// Checking one downloaded file against its manifest chunks and cutting it
// back to the last good byte so that a download can resume from there
// (`_verify_and_repair_file`).
module ChunkVerifier {
  import opened Base
  import opened Manifest

  /** `hashlib.sha1(data).digest()`; SHA-1 itself (FIPS 180-4) is a parameter of the model. */
  type Digest = Bytes -> Bytes

  function Min(a: int, b: int): int
  {
    if a <= b then a else b
  }

  /** `f.read(n)` at position `pos`: `n` bytes, fewer near the end of the file, none at it. */
  function Read(content: Bytes, pos: nat, n: nat): (d: Bytes)
    requires pos <= |content|
    ensures |d| == Min(n, |content| - pos)
    ensures d == content[pos..pos + |d|]
  {
    content[pos..Min(pos + n, |content|)]
  }

  // ---------------------------------------------------------------------
  // The scan, as a specification
  // ---------------------------------------------------------------------

  /**
   * The bytes the scan reads for chunk `i` once every earlier chunk was
   * accepted: the read position is then the chunk's start, or the end of
   * the file if that comes first.
   */
  function ChunkData(content: Bytes, chunks: seq<Chunk>, i: nat): Bytes
    requires i < |chunks|
  {
    Read(content, Min(ChunkStart(chunks, i), |content|), chunks[i].cbOriginal)
  }

  /** Chunk `i` is accepted: its read is non-empty and has the chunk's digest. */
  predicate ChunkOk(content: Bytes, chunks: seq<Chunk>, sha1: Digest, i: nat)
    requires i < |chunks|
  {
    var data := ChunkData(content, chunks, i);
    data != [] && sha1(data) == chunks[i].sha
  }

  /** Index of the first rejected chunk at or after `i` (or the chunk count). */
  function AcceptedFrom(content: Bytes, chunks: seq<Chunk>, sha1: Digest, i: nat): (k: nat)
    requires i <= |chunks|
    ensures i <= k <= |chunks|
    decreases |chunks| - i
  {
    if i == |chunks| || !ChunkOk(content, chunks, sha1, i) then i
    else AcceptedFrom(content, chunks, sha1, i + 1)
  }

  /** Length of the accepted chunk prefix. */
  function Accepted(content: Bytes, chunks: seq<Chunk>, sha1: Digest): nat
  {
    AcceptedFrom(content, chunks, sha1, 0)
  }

  /** `verified_offset` after the loop: where the accepted chunks end. */
  function VerifiedOffset(content: Bytes, chunks: seq<Chunk>, sha1: Digest): nat
  {
    ChunkStart(chunks, Accepted(content, chunks, sha1))
  }

  /** Lines 534-538: reads chunk by chunk until a read is empty or a digest differs. */
  method ScanChunks(content: Bytes, chunks: seq<Chunk>, sha1: Digest) returns (verifiedOffset: nat)
    ensures verifiedOffset == VerifiedOffset(content, chunks, sha1)
  {
    verifiedOffset := 0;
    var pos := 0;
    var i := 0;
    while i < |chunks|
      invariant i <= |chunks|
      invariant verifiedOffset == ChunkStart(chunks, i)
      invariant pos == Min(verifiedOffset, |content|)
      invariant AcceptedFrom(content, chunks, sha1, i) == Accepted(content, chunks, sha1)
    {
      var data := Read(content, pos, chunks[i].cbOriginal);
      if data == [] {
        break;
      }
      if sha1(data) != chunks[i].sha {
        break;
      }
      verifiedOffset := verifiedOffset + chunks[i].cbOriginal;
      pos := pos + |data|;
      i := i + 1;
    }
  }

  // ---------------------------------------------------------------------
  // The file system and the whole check
  // ---------------------------------------------------------------------

  /**
   * The files under the download directory, by relative path; those that
   * cannot be opened at all; and those that open for reading but not for
   * writing.
   */
  datatype Disk = Disk(files: map<string, Bytes>, unreadable: set<string>, readOnly: set<string>)

  /** `return True`, or `file_info.seek(offset)` then `return False`. */
  datatype Outcome = Verified | Resume(offset: nat)

  /** `f.truncate(n)`: cuts the file to `n` bytes, or pads it with zero bytes up to `n`. */
  function Truncate(content: Bytes, n: nat): (r: Bytes)
    ensures |r| == n
    ensures n <= |content| ==> r == content[..n]
    ensures n > |content| ==> r == content + Zeros(n - |content|)
  {
    if n <= |content| then content[..n] else content + Zeros(n - |content|)
  }

  /** The whole of `_verify_and_repair_file` for entry `f`: its outcome and the disk after it. */
  function VerifyFile(disk: Disk, f: FileEntry, sha1: Digest): (r: (Outcome, Disk))
    ensures r.1.files.Keys == disk.files.Keys && r.1.unreadable == disk.unreadable && r.1.readOnly == disk.readOnly
    ensures forall q :: q in disk.files && q != f.filename ==> r.1.files[q] == disk.files[q]
    ensures r.0.Verified? <==>
              f.filename in disk.files && f.filename !in disk.unreadable
              && VerifiedOffset(disk.files[f.filename], f.chunks, sha1) == f.size
    ensures r.0.Verified? ==> r.1 == disk
    ensures f.filename !in disk.files || f.filename in disk.unreadable ==> r == (Resume(0), disk)
    ensures f.filename in disk.readOnly && !r.0.Verified? ==> r == (Resume(0), disk)
  {
    var path := f.filename;
    if path !in disk.files || path in disk.unreadable then (Resume(0), disk)
    else
      var offset := VerifiedOffset(disk.files[path], f.chunks, sha1);
      if offset == f.size then (Verified, disk)
      else if path in disk.readOnly then (Resume(0), disk)
      else (Resume(offset), disk.(files := disk.files[path := Truncate(disk.files[path], offset)]))
  }

  /** The local file system under the download directory. */
  class FileSystem {
    var files: map<string, Bytes>
    var unreadable: set<string>
    var readOnly: set<string>

    constructor (files: map<string, Bytes>, unreadable: set<string>, readOnly: set<string>)
      ensures this.files == files && this.unreadable == unreadable && this.readOnly == readOnly
    {
      this.files := files;
      this.unreadable := unreadable;
      this.readOnly := readOnly;
    }

    function Snapshot(): Disk
      reads this
    {
      Disk(files, unreadable, readOnly)
    }

    /** `_verify_and_repair_file(file_info, base_dir / file_info.filename)`. */
    method VerifyAndRepairFile(f: FileEntry, sha1: Digest) returns (outcome: Outcome)
      modifies this
      ensures (outcome, Snapshot()) == VerifyFile(old(Snapshot()), f, sha1)
    {
      var path := f.filename;
      if path !in files || path in unreadable {
        return Resume(0);
      }
      var verifiedOffset := ScanChunks(files[path], f.chunks, sha1);
      if verifiedOffset == f.size {
        return Verified;
      }
      if path in readOnly {
        return Resume(0);
      }
      files := files[path := Truncate(files[path], verifiedOffset)];
      return Resume(verifiedOffset);
    }
  }

  // ---------------------------------------------------------------------
  // Properties
  // ---------------------------------------------------------------------

  lemma {:induction false} AcceptedFromIsFirstReject(content: Bytes, chunks: seq<Chunk>, sha1: Digest, i: nat)
    requires i <= |chunks|
    ensures forall j :: i <= j < AcceptedFrom(content, chunks, sha1, i) ==> ChunkOk(content, chunks, sha1, j)
    ensures AcceptedFrom(content, chunks, sha1, i) < |chunks| ==>
              !ChunkOk(content, chunks, sha1, AcceptedFrom(content, chunks, sha1, i))
    decreases |chunks| - i
  {
    if i < |chunks| && ChunkOk(content, chunks, sha1, i) {
      AcceptedFromIsFirstReject(content, chunks, sha1, i + 1);
    }
  }

  /**
   * The verified offset is where the longest accepted chunk prefix ends:
   * every chunk before it is accepted and the chunk at it, if any, is not.
   */
  lemma LongestAcceptedPrefix(content: Bytes, chunks: seq<Chunk>, sha1: Digest)
    ensures var k := Accepted(content, chunks, sha1);
            && VerifiedOffset(content, chunks, sha1) == ChunkStart(chunks, k)
            && (forall j :: 0 <= j < k ==> ChunkOk(content, chunks, sha1, j))
            && (k < |chunks| ==> !ChunkOk(content, chunks, sha1, k))
  {
    AcceptedFromIsFirstReject(content, chunks, sha1, 0);
  }

  /**
   * SHA-1 digests pin down the length of what they digest: a digest equal
   * to a chunk's digest comes only from data of that chunk's size. Without
   * this, a short final read whose digest happened to match would be accepted.
   */
  ghost predicate DigestPinsLength(chunks: seq<Chunk>, sha1: Digest)
  {
    forall i :: 0 <= i < |chunks| ==> DigestPinsChunk(chunks[i], sha1)
  }

  /** Only data of the chunk's size has the chunk's digest. */
  ghost predicate DigestPinsChunk(c: Chunk, sha1: Digest)
  {
    forall d :: sha1(d) == c.sha ==> |d| == c.cbOriginal
  }

  lemma {:induction false} ChunkStartMonotone(chunks: seq<Chunk>, i: nat, j: nat)
    requires i <= j <= |chunks|
    ensures ChunkStart(chunks, i) <= ChunkStart(chunks, j)
    decreases j
  {
    if i < j {
      ChunkStartMonotone(chunks, i, j - 1);
    }
  }

  /** An accepted chunk that starts inside the file under `DigestPinsLength` also ends inside it. */
  lemma AcceptedChunkInsideFile(content: Bytes, chunks: seq<Chunk>, sha1: Digest, i: nat)
    requires DigestPinsLength(chunks, sha1)
    requires i < |chunks| && ChunkOk(content, chunks, sha1, i)
    requires ChunkStart(chunks, i) <= |content|
    ensures ChunkStart(chunks, i + 1) <= |content|
  {
    assert DigestPinsChunk(chunks[i], sha1);
    var start := ChunkStart(chunks, i);
    assert Min(start, |content|) == start;
    assert |ChunkData(content, chunks, i)| == Min(chunks[i].cbOriginal, |content| - start);
  }

  /** Accepted chunks were read whole, so they all lie inside the file. */
  lemma {:induction false} AcceptedInsideFile(content: Bytes, chunks: seq<Chunk>, sha1: Digest, k: nat)
    requires DigestPinsLength(chunks, sha1)
    requires k <= |chunks|
    requires forall j :: 0 <= j < k ==> ChunkOk(content, chunks, sha1, j)
    ensures ChunkStart(chunks, k) <= |content|
  {
    if k > 0 {
      AcceptedInsideFile(content, chunks, sha1, k - 1);
      assert ChunkOk(content, chunks, sha1, k - 1);
      AcceptedChunkInsideFile(content, chunks, sha1, k - 1);
    }
  }

  /** Under `DigestPinsLength`, the verified offset never lies beyond the end of the file. */
  lemma OffsetInsideFile(content: Bytes, chunks: seq<Chunk>, sha1: Digest)
    requires DigestPinsLength(chunks, sha1)
    ensures VerifiedOffset(content, chunks, sha1) <= |content|
  {
    LongestAcceptedPrefix(content, chunks, sha1);
    AcceptedInsideFile(content, chunks, sha1, Accepted(content, chunks, sha1));
  }

  /**
   * A file that fails is cut to exactly its verified offset, the bytes
   * before it unchanged, and the resume position is that offset.
   */
  lemma RepairKeepsVerifiedPrefix(disk: Disk, f: FileEntry, sha1: Digest)
    requires DigestPinsLength(f.chunks, sha1)
    requires f.filename in disk.files && f.filename !in disk.unreadable && f.filename !in disk.readOnly
    requires VerifyFile(disk, f, sha1).0.Resume?
    ensures var content := disk.files[f.filename];
            var offset := VerifyFile(disk, f, sha1).0.offset;
            && offset == VerifiedOffset(content, f.chunks, sha1)
            && offset <= |content|
            && VerifyFile(disk, f, sha1).1.files[f.filename] == content[..offset]
  {
    OffsetInsideFile(disk.files[f.filename], f.chunks, sha1);
  }

  /** Cutting a file at or after where chunk `i` ends leaves that chunk's read as it was. */
  lemma ChunkDataOfPrefix(content: Bytes, chunks: seq<Chunk>, i: nat, n: nat)
    requires i < |chunks|
    requires ChunkStart(chunks, i + 1) <= n <= |content|
    ensures ChunkData(content[..n], chunks, i) == ChunkData(content, chunks, i)
  {
  }

  /** An accepted chunk that ends at or before the cut is still accepted after it. */
  lemma AcceptedChunkSurvivesCut(content: Bytes, chunks: seq<Chunk>, sha1: Digest, j: nat, n: nat)
    requires j < |chunks| && ChunkOk(content, chunks, sha1, j)
    requires ChunkStart(chunks, j + 1) <= n <= |content|
    ensures ChunkOk(content[..n], chunks, sha1, j)
  {
    ChunkDataOfPrefix(content, chunks, j, n);
  }

  /** A file cut to its verified offset, when that lies inside it, accepts the same chunks. */
  lemma {:induction false} CutKeepsAccepted(content: Bytes, chunks: seq<Chunk>, sha1: Digest)
    requires VerifiedOffset(content, chunks, sha1) <= |content|
    ensures var n := VerifiedOffset(content, chunks, sha1);
            Accepted(content[..n], chunks, sha1) == Accepted(content, chunks, sha1)
  {
    var k := Accepted(content, chunks, sha1);
    var n := VerifiedOffset(content, chunks, sha1);
    LongestAcceptedPrefix(content, chunks, sha1);
    var cut := content[..n];
    forall j | 0 <= j < k ensures ChunkOk(cut, chunks, sha1, j) {
      ChunkStartMonotone(chunks, j + 1, k);
      AcceptedChunkSurvivesCut(content, chunks, sha1, j, n);
    }
    if k < |chunks| {
      assert ChunkData(cut, chunks, k) == [];
    }
    AcceptedPrefixUnique(cut, chunks, sha1, k);
  }

  /** After cutting the file to its verified offset, the same chunks are accepted again. */
  lemma {:induction false} AcceptedAfterTruncation(content: Bytes, chunks: seq<Chunk>, sha1: Digest)
    requires DigestPinsLength(chunks, sha1)
    ensures VerifiedOffset(content, chunks, sha1) <= |content|
    ensures var k := Accepted(content, chunks, sha1);
            Accepted(content[..VerifiedOffset(content, chunks, sha1)], chunks, sha1) == k
  {
    OffsetInsideFile(content, chunks, sha1);
    CutKeepsAccepted(content, chunks, sha1);
  }

  /** The accepted prefix is the only prefix that is all accepted and stops at a rejected chunk. */
  lemma AcceptedPrefixUnique(content: Bytes, chunks: seq<Chunk>, sha1: Digest, k: nat)
    requires k <= |chunks|
    requires forall j :: 0 <= j < k ==> ChunkOk(content, chunks, sha1, j)
    requires k < |chunks| ==> !ChunkOk(content, chunks, sha1, k)
    ensures Accepted(content, chunks, sha1) == k
  {
    AcceptedFromIsFirstReject(content, chunks, sha1, 0);
  }

  /**
   * Verifying twice changes nothing the second time: a truncated file is
   * found to end exactly at its verified offset and is left alone.
   */
  lemma {:induction false} VerifyIdempotent(disk: Disk, f: FileEntry, sha1: Digest)
    requires DigestPinsLength(f.chunks, sha1)
    ensures var (outcome, after) := VerifyFile(disk, f, sha1);
            VerifyFile(after, f, sha1) == (outcome, after)
  {
    var (outcome, after) := VerifyFile(disk, f, sha1);
    var path := f.filename;
    if outcome.Resume? && path in disk.files && path !in disk.unreadable && path !in disk.readOnly {
      var content := disk.files[path];
      AcceptedAfterTruncation(content, f.chunks, sha1);
      var n := VerifiedOffset(content, f.chunks, sha1);
      var cut := content[..n];
      assert after == disk.(files := disk.files[path := cut]);
      assert VerifiedOffset(cut, f.chunks, sha1) == n;
      assert Truncate(cut, n) == cut;
      assert after.files[path := cut] == after.files;
    }
  }
}
