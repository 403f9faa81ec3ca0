# SuperSexySteamDownloader core, in Dafny

This project models the part of `SuperSexySteamDownloader.py` that decides
what ends up on disk. It leaves out the Steam client, the console and the
threads around that part. The model covers seven pieces:

- **Manifest aggregation** (`download_game`, aggregation.dfy and
  `Downloader.SteamDownloader.AggregateFiles`). The queued depots' file lists
  are layered into one path-keyed map in queue order. The last writer wins,
  and every path collision appends one overwrite-log line. The map follows
  Python `dict` semantics: a key keeps the place where it first appeared
  (pydict.dfy).
- **Chunk verifier** (`_verify_and_repair_file`, chunk_verifier.dfy). The
  local file is read chunk by chunk. The scan stops at an empty read or a
  SHA-1 mismatch. The file is then accepted untouched, or cut back to the
  verified offset, which becomes the resume position.
- **Reconciliation loop** (`_execute_verification_and_download_cycle`,
  reconciliation.dfy). It verifies every non-directory file and sums the
  missing bytes. It asks once in verify-only mode. Otherwise it downloads and
  verifies again.
- **Queue file codec** (`_write_sfd_file`, `_load_sfd_from_path`,
  `_reset_queue`; sfd_codec.dfy, text_codec.dfy and the session class in
  app.dfy). The `.sfd` text holds the app id, then four-line depot records,
  then `EndOfFile`. Keys are written as lowercase base16 (section 8 of
  RFC 4648).
- **LUA import** (`convert_lua_workflow`, lua_import.dfy). The two directive
  regexes are written out by hand. The lines are folded into an
  insertion-ordered depot table. Depots with a manifest id and a manifest
  file beside the script become records. They are written as a queue file,
  and that file is loaded.
- **ACF descriptor** (`SteamManifestGenerator.parse_app_data` and
  `generate_acf_content`, acf_manifest.dfy). Depot entries are classified
  into installable and shared tables. The `appmanifest` text is generated
  with the depots in ascending id order.
- **`_sanitize_filename`** (sanitize.dfy).

The session object (`SuperSexySteamDownloader`) is the class
`Downloader.SteamDownloader`. Its fields are the app id, the queue, the
overwrite log and the CDN client's two caches. The generator is the class
`AcfManifest.SteamManifestGenerator`. The local file system is the class
`ChunkVerifier.FileSystem`, a map from relative path to bytes plus the set of
paths that cannot be opened and the set of paths that open for reading but
not for writing. Each method is proved against a specification
function (`VerifyFile`, `VerifyPass`, `Cycle`, `AggregateAll`, `ParseSfd`,
`Fold`, `ScanDepots`, `AcfParts`). The lemmas state the source's promises
about those functions.

Several things are parameters of the model:

- SHA-1 (FIPS 180-4) is a function `Bytes -> Bytes` passed in.
- Python's `repr`/`ast.literal_eval` on bytes is a pair of functions. Their
  round trip is the assumption `RoundTrips`.
- Manifest loading and decryption is a function giving each depot's file
  list, or `None` when it raises.
- Each download round is one function giving the bytes appended to a file
  from its resume offset.
- The answer to "Repair now?" is a boolean.
- The login result is a boolean.

Where the code's behaviour is surprising, the model follows the code:

- A short but non-empty read is not rejected as such. It passes whenever its
  digest equals the chunk's digest. So "the verified offset lies inside the
  file" and the idempotence of a repair are proved under the explicit
  assumption `DigestPinsLength`: a digest equal to a chunk's digest comes only
  from data of that chunk's size.
- A queue file whose last record has fewer than four lines keeps the records
  before it (lines 375-376). It is not treated as an input error. Only a
  failing conversion clears the queue.
- The loop has no iteration cap. The model passes in a finite sequence of
  download rounds and ends with `GaveUp` when they run out. Every property is
  stated for runs that end `Succeeded` or `Cancelled`, or for all runs.
- `f.truncate(n)` beyond the end of a file pads it with zero bytes, and
  `Truncate` says so. The pad is never used: the offset never lies beyond the
  file under `DigestPinsLength`.

## Model

| member | source | states |
|---|---|---|
| `Sanitize.SanitizeFilename` | SuperSexySteamDownloader.py:220-222 | the result has the name's length, each forbidden character of `<>:"/\|?*` becomes `_`, every other character is kept, and no forbidden character is left |
| `Sanitize.SanitizeIdempotent` | SuperSexySteamDownloader.py:220-222 | sanitizing a sanitized name changes nothing |
| `Sanitize.SanitizeKeepsCleanName` | SuperSexySteamDownloader.py:220-222 | a name with no forbidden character is returned unchanged |
| `PyDict.Put` | SuperSexySteamDownloader.py:606 | `d[k] = v` maps `k` to `v`; a present key keeps its position, a new key goes last, and keys stay unique |
| `Aggregation.AggregateMeaning` | SuperSexySteamDownloader.py:598-606 | the map's keys are the distinct paths in first-appearance order; each path maps to the last (file, depot) pair met that lists it; the events are exactly one per collision, naming the latest earlier owner and the new depot, in encounter order |
| `Aggregation.OneEventPerCollision` | SuperSexySteamDownloader.py:603-606 | the number of overwrite events is the number of files met minus the number of distinct paths |
| `Aggregation.LastWriterWins` | SuperSexySteamDownloader.py:598-606 | a path listed at any point of the queue's encounter order maps to that pair or a later one, and no pair after the winner lists the path |
| `Aggregation.LastOwnerPresent` | SuperSexySteamDownloader.py:603-604 | a path has an earlier owner exactly when some earlier file listed it |
| `Downloader.SteamDownloader.AggregateFiles` | SuperSexySteamDownloader.py:595-610 | the nested loop leaves the overwrite log as the log lines of `AggregateAll` over the queue's encounters (depots whose loading raised contribute nothing) and returns the map's entries in key order; queue and caches are unchanged |
| `Downloader.LayerDepotFiles` | SuperSexySteamDownloader.py:602-606 | layering one depot's files onto the map and log gives the map and log lines of `AggregateAll` over the files met so far followed by that depot's files |
| `Downloader.LogCountsCollisions` | SuperSexySteamDownloader.py:603-610 | the log has as many lines as files met minus distinct paths |
| `Downloader.JoinLinesAppend` | SuperSexySteamDownloader.py:624 | the joined log text splits into the joined halves with one newline between them |
| `Downloader.LogLineOnItsOwnLine` | SuperSexySteamDownloader.py:624 | in the log file each log line is preceded by the header and the earlier lines ending in a newline, and followed by nothing or by a newline and the later lines |
| `Downloader.SteamDownloader.DownloadGame` | SuperSexySteamDownloader.py:587-627 | an empty queue or a falsy app id returns early and a failed login changes nothing; otherwise the log is rebuilt, no files means no verification, and the run's outcome and disk are those of `Cycle` over the aggregated files; the overwrite-log file is written only after success with a non-empty log |
| `ChunkVerifier.Read` | SuperSexySteamDownloader.py:536 | `f.read(n)` yields `min(n, remaining)` bytes taken from the current position |
| `ChunkVerifier.ScanChunks` | SuperSexySteamDownloader.py:534-539 | the loop's verified offset is the start of the first rejected chunk |
| `ChunkVerifier.LongestAcceptedPrefix` | SuperSexySteamDownloader.py:535-539 | the verified offset is the summed size of the longest chunk prefix whose reads are non-empty and digest-equal; the chunk after it, if any, is rejected |
| `ChunkVerifier.AcceptedPrefixUnique` | SuperSexySteamDownloader.py:535-539 | any prefix that is all accepted and stops at a rejected chunk is that longest prefix |
| `ChunkVerifier.Truncate` | SuperSexySteamDownloader.py:544 | `f.truncate(n)` leaves exactly `n` bytes: the first `n` when shorter, zero padding when longer |
| `ChunkVerifier.VerifyFile` | SuperSexySteamDownloader.py:528-547 | a missing or unopenable file gives resume offset 0 and no change; the file is accepted exactly when the verified offset equals the entry's size, and then nothing changes (trailing bytes included); a rejected file that cannot be opened for writing gives resume offset 0 and no change; no other file is touched |
| `ChunkVerifier.FileSystem.VerifyAndRepairFile` | SuperSexySteamDownloader.py:528-547 | the outcome and the new file system are those `VerifyFile` specifies |
| `ChunkVerifier.OffsetInsideFile` | SuperSexySteamDownloader.py:535-539 | when a chunk's digest determines its size, the verified offset never exceeds the file's length |
| `ChunkVerifier.RepairKeepsVerifiedPrefix` | SuperSexySteamDownloader.py:540-545 | a rejected file that can be opened for writing is cut to exactly the verified offset, the bytes before it unchanged, and that offset is the resume position |
| `ChunkVerifier.AcceptedAfterTruncation` | SuperSexySteamDownloader.py:535-545 | the cut file accepts exactly the chunks the uncut file did |
| `ChunkVerifier.VerifyIdempotent` | SuperSexySteamDownloader.py:528-547 | verifying again after a verification returns the same outcome and changes nothing |
| `Reconciliation.VerifyAll` | SuperSexySteamDownloader.py:557-566 | one pass skips directories, verifies the other files in order, flags the failures with their resume offsets, and totals `size - offset` over the flagged files |
| `Reconciliation.DownloadFlagged` | SuperSexySteamDownloader.py:580-583 | each flagged file gets the download's bytes appended (created when absent), and a file that cannot be opened for appending is left as it was, as `DownloadAll` specifies |
| `Reconciliation.ExecuteCycle` | SuperSexySteamDownloader.py:549-585 | the loop's outcome and final disk are those of `Cycle` |
| `Reconciliation.CleanPass` | SuperSexySteamDownloader.py:560-569 | a pass that flags nothing changed nothing and found every non-directory file verified |
| `Reconciliation.SucceededOnlyWhenAllVerified` | SuperSexySteamDownloader.py:568-569 | `True` is returned only when a last pass verified every non-directory file on the final disk |
| `Reconciliation.CancelledOnlyByDeclining` | SuperSexySteamDownloader.py:571-574 | the run returns `False` by cancelling exactly when verify-only mode was on, the first pass flagged files and the answer was no; then nothing was downloaded |
| `Reconciliation.AskedAtMostOnce` | SuperSexySteamDownloader.py:571-575 | the repair question is asked at most once, and exactly when verify-only mode was on and the first pass flagged files |
| `Reconciliation.NoPromptOnceConfirmed` | SuperSexySteamDownloader.py:575 | with the flag cleared the loop never asks and never cancels |
| `Reconciliation.DirectoriesUntouched` | SuperSexySteamDownloader.py:561 | a path listed only by directory entries is neither verified nor downloaded: the disk holds the same there at the end |
| `Downloader.SteamDownloader.ResetQueue` | SuperSexySteamDownloader.py:209-218 | app id `None`, empty queue and overwrite log, both CDN caches empty |
| `SfdCodec.WriteSfdFile` | SuperSexySteamDownloader.py:259-269 | the text is the app id line, each record's four lines in queue order, then `EndOfFile` |
| `SfdCodec.SfdRoundTrip` | SuperSexySteamDownloader.py:259-268 | loading a written queue file (whatever follows the sentinel) gives back the app id and the same records in the same order |
| `SfdCodec.ParseAfterRecords` | SuperSexySteamDownloader.py:371-384 | records in front of any text are read back in order, and the rest of the text decides only what follows |
| `SfdCodec.SentinelStops` | SuperSexySteamDownloader.py:373 | an `EndOfFile` line ends the records |
| `SfdCodec.TruncatedRecordDropped` | SuperSexySteamDownloader.py:374-376 | a final record of one to three lines, the last of them possibly cut before its newline, is dropped and the records before it are kept |
| `SfdCodec.IdLineNotSentinel` | SuperSexySteamDownloader.py:373 | a written depot id line is never taken for the sentinel |
| `TextCodec.HexRoundTrip` | SuperSexySteamDownloader.py:380 | `bytes.fromhex(b.hex()) == b` |
| `TextCodec.IntRoundTrip` | SuperSexySteamDownloader.py:370 | `int(str(n)) == n` |
| `TextCodec.ReadLineOf` | SuperSexySteamDownloader.py:372 | `readline` returns a line up to and including its newline and leaves the rest |
| `Downloader.ReadQueue` | SuperSexySteamDownloader.py:371-387 | the record loop succeeds exactly when the records parse; the queue is then the parsed records and the caches are built from them |
| `Downloader.SteamDownloader.LoadSfdFromPath` | SuperSexySteamDownloader.py:364-391 | a good file leaves app id, queue and both caches as the file says; any conversion error leaves app id `None`, the queue empty and both caches empty; the overwrite log is always empty |
| `Downloader.KeysOfLastWins` | SuperSexySteamDownloader.py:386 | the key cache has a key for exactly the queue's depot ids, each the key of the last record for that depot |
| `Downloader.ManifestsOfMembers` | SuperSexySteamDownloader.py:387 | the manifest cache has an entry exactly for each (app id, depot id, manifest id) of the queue |
| `LuaImport.Classify` | SuperSexySteamDownloader.py:419-429 | a line is `addappid` (depot, hex key) or else `setManifestid` (depot, digit manifest id) or else neither |
| `LuaImport.AddAppIdLineRecognised` | SuperSexySteamDownloader.py:419-425 | a well-formed `addappid(depot,flag,"key")` line is classified as that depot and key |
| `LuaImport.SetManifestIdLineRecognised` | SuperSexySteamDownloader.py:420-429 | a well-formed `setManifestid(depot,"id"` line without an `addappid` match is classified as that depot and id |
| `LuaImport.ParseLua` | SuperSexySteamDownloader.py:416-430 | the line loop builds the table `Fold` specifies |
| `LuaImport.InTableIffAdded` | SuperSexySteamDownloader.py:425-430 | a depot is in the table exactly when some `addappid` line names it |
| `LuaImport.TableOrderIsFirstAdded` | SuperSexySteamDownloader.py:425 | the table lists depots in the order of their first `addappid` line |
| `LuaImport.AddDiscardsManifestId` | SuperSexySteamDownloader.py:425-426 | an `addappid` line replaces the depot's entry: any earlier manifest id is gone |
| `LuaImport.SetAfterAddRecorded` | SuperSexySteamDownloader.py:427-430 | a `setManifestid` after the depot's `addappid` records the manifest id |
| `LuaImport.SetBeforeAddIgnored` | SuperSexySteamDownloader.py:430 | a `setManifestid` for a depot not yet added changes nothing |
| `LuaImport.CollectOne` | SuperSexySteamDownloader.py:439-453 | a record comes only from a depot with a manifest id and a `{depot}_{manifest}.manifest` file, with that file's bytes, the decoded key and the parsed manifest id |
| `LuaImport.CollectDepots` | SuperSexySteamDownloader.py:437-454 | the collection loop yields what `Collect` specifies |
| `LuaImport.CollectKeysMeaning` | SuperSexySteamDownloader.py:438-454 | the records are exactly the table's depots that yield one, in table order |
| `LuaImport.ConvertedFileName` | SuperSexySteamDownloader.py:457 | the converted queue file's name has no forbidden character |
| `LuaImport.ConversionLoadsBack` | SuperSexySteamDownloader.py:456-462 | a successful conversion writes a queue file that loads back as the app id and the collected records |
| `Downloader.SteamDownloader.ConvertLuaWorkflow` | SuperSexySteamDownloader.py:416-462 | the conversion is `ConvertLua`; a converted queue becomes the session's app id, queue and caches and the overwrite log is cleared; anything else leaves the session unchanged |
| `AcfManifest.SteamManifestGenerator.ParseAppData` | SuperSexySteamDownloader.py:80-121 | no data or no `common` section returns failure and leaves the generator unchanged; otherwise name, install directory (sanitized name by default) and build id are set and the tables are the scan's |
| `AcfManifest.SteamManifestGenerator.ClassifyDepots` | SuperSexySteamDownloader.py:100-118 | the depot loop leaves the tables `ScanDepots` specifies over the entries' outcomes in table order, reports whether an `int(...)` raised, and keeps name, install directory and build id |
| `AcfManifest.ScanEntries` | SuperSexySteamDownloader.py:100-118 | applying the outcomes in order until one raises gives the tables and the raised flag of `ScanDepots` |
| `AcfManifest.PyIntIsParseOfStrip` | SuperSexySteamDownloader.py:105-117 | `int(s)` parses what is left of `s` once the whitespace `str.strip` drops is removed |
| `AcfManifest.ConvertMeaning` | SuperSexySteamDownloader.py:101-117 | when no `int(...)` raises, one entry is installed under `id` exactly when it is the numbered, non-shared depot `id` with a public `gid`, and shared under `id` exactly when it is the numbered depot `id` marked shared |
| `AcfManifest.RaisedSticks` | SuperSexySteamDownloader.py:100-118 | after an `int(...)` raises, later entries change nothing |
| `AcfManifest.ScanMembership` | SuperSexySteamDownloader.py:100-118 | a completed scan lists as installable exactly the numbered, non-shared entries with a public `gid`, and as shared exactly the numbered entries with `sharedinstall == "1"` |
| `AcfManifest.StepMembership` | SuperSexySteamDownloader.py:101-118 | one entry adds its id to the table it belongs to and nothing else |
| `AcfManifest.SharedNeverInstalled` | SuperSexySteamDownloader.py:103-106 | provided no two numbered keys have the same value (`NoAliases`), no shared-install depot is listed as installable |
| `AcfManifest.AliasedKeysFillBothTables` | SuperSexySteamDownloader.py:100-118 | without that proviso the property fails: a shared entry `"07"` and an installable entry `"7"` both put depot 7 in the tables, one in each |
| `AcfManifest.SortAscending` | SuperSexySteamDownloader.py:142-153 | `sorted` gives the same ids, strictly ascending |
| `AcfManifest.SizeSumPermutation` | SuperSexySteamDownloader.py:126 | the summed size of a set of depots is the same whatever order they are visited in |
| `AcfManifest.AppendKvLines` | SuperSexySteamDownloader.py:138-139 | the top-level loop appends one `"key"  "value"` line per key, in the keys' order, after the opening lines |
| `AcfManifest.SizeOnDiskIsEmittedTotal` | SuperSexySteamDownloader.py:126-146 | `SizeOnDisk` equals the sum of the sizes written under `InstalledDepots` |
| `AcfManifest.DlcLineIffDlc` | SuperSexySteamDownloader.py:147-148 | a depot block has a `dlcappid` line exactly when the depot has a DLC app id |
| `AcfManifest.SteamManifestGenerator.GenerateAcfContent` | SuperSexySteamDownloader.py:123-158 | the text is the fixed top-level keys in order, then installed depots ascending, then shared depots ascending, then the closing brace |
| `AcfManifest.AppendDepotBlock` | SuperSexySteamDownloader.py:143-149 | one depot block: id, manifest, size, an optional `dlcappid`, closing brace |

## Left out

- Steam login, keyring credentials, product-info lookups and the game-name cache: network and foreign-library calls. Their results are parameters.
- CDN manifest fetching, decryption and file iteration: a parameter gives each depot's file list, or `None` when loading raises.
- `_download_single_file` and the thread pool with its progress bar: the concurrency is not modelled. A round appends each flagged file's bytes in turn; per-file failures are bytes that the next pass rejects.
- The interactive menu and `input()` prompts: the repair answer is a boolean and the "Press Enter" pause is dropped.
- File picking, `make_sfd`, the store search over HTTP and `write_acf_file`: filesystem and network plumbing.
- Writing the overwrite log through a temporary file and a rename: only the log file's final text is modelled.
- SHA-1 and Python's `repr`/`ast.literal_eval`: uninterpreted function parameters, with the round trip as an assumption.
- `Reconciliation.ExecuteCycle`: the loop is bounded by the number of download rounds passed in, so a run that never converges ends as `GaveUp` rather than looping forever.
- Text decoding details: the queue-file reader's `errors='ignore'` decoding and universal-newline translation are not modelled; a line ends at `\n`. The LUA script is opened without `errors='ignore'`, and a decode error there reaches the `except Exception` at line 431, which abandons the conversion; `Downloader.SteamDownloader.ConvertLuaWorkflow` takes the script's lines already decoded, so that abort cannot happen in the model.
- `ChunkVerifier.VerifyFile`: an I/O error raised by a read inside the chunk loop (line 536) is not modelled; the source then returns offset 0 and leaves the file as it was. A file that cannot be opened at all, or opens for reading but not for writing, is modelled.
- `ChunkVerifier.FileSystem.VerifyAndRepairFile`: the same mid-read I/O error is not modelled.
- `AcfManifest.ScanMembership`: `str.isdigit` is modelled for ASCII digits only; Unicode digits such as `²` pass `isdigit` in Python and then make `int` raise, which the model does not reproduce.
- `AcfManifest.SteamManifestGenerator.ClassifyDepots`: the entries' conversions are pure, so the model evaluates them before the loop and stores the tables after it; a table's state midway through the loop is not observable.
- `TextCodec.ParseInt`: only an optional sign and ASCII decimal digits are read. Python's `int()` also accepts single underscores between digits (`1_000`) and non-ASCII decimal digits; the model rejects those as if `int()` had raised.
- `Downloader.ReadQueue`: a queue file whose numeric lines use underscores or non-ASCII decimal digits fails to load in the model, while the source loads it (see `TextCodec.ParseInt`).
- `Downloader.SteamDownloader.LoadSfdFromPath`: for the same reason, such a queue file resets the session in the model instead of loading.
- `LuaImport.Classify`: `\d` matches ASCII digits only; Python's `\d` also matches non-ASCII decimal digits, so a line such as `addappid(١٢٣,1,"ab")` is `Other` in the model while the source adds depot 123.
- `AcfManifest.SharedNeverInstalled`: holds only when no two numbered keys of the `depots` table have the same integer value (`NoAliases`); the source does not ensure that, and `AcfManifest.AliasedKeysFillBothTables` shows a table where depot 7 ends up in both tables and so is written under both `InstalledDepots` and `SharedDepots`.
- The manifest object built for the manifest cache is modelled as the raw payload bytes; an error raised while building it is not modelled.
