// What a decrypted depot manifest lists: file entries, each cut into
// chunks that carry their original size and SHA-1 digest.
module Manifest {
  import opened Base

  /** `chunk.cb_original` and `chunk.sha`. */
  datatype Chunk = Chunk(cbOriginal: nat, sha: Bytes)

  /** `file_info.filename`, `.size`, `.chunks`, `.is_directory`. */
  datatype FileEntry = FileEntry(filename: string, size: nat, chunks: seq<Chunk>, isDirectory: bool)

  /** Total of the chunk sizes of `chunks`, that is, where the chunk after them starts. */
  function ChunkStart(chunks: seq<Chunk>, i: nat): nat
    requires i <= |chunks|
  {
    if i == 0 then 0 else ChunkStart(chunks, i - 1) + chunks[i - 1].cbOriginal
  }
}
