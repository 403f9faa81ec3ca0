// The verify / download / re-verify loop
// (`_execute_verification_and_download_cycle`): verify every file, collect
// the ones that failed with their resume offsets, stop when none failed,
// ask once in verify-only mode, otherwise download and go round again.
module Reconciliation {
  import opened Base
  import opened Manifest
  import opened ChunkVerifier

  /** A file that failed verification, and the offset its download resumes from. */
  datatype Flagged = Flagged(entry: FileEntry, resume: nat)

  /** What one verification pass yields: the flagged files, in order, and the disk after it. */
  datatype Pass = Pass(flagged: seq<Flagged>, disk: Disk)

  /**
   * One download attempt for every flagged file: the bytes the chunk stream
   * yields for the entry from the given offset. A failed or cut-off download
   * yields fewer (or wrong) bytes; the next pass repairs them.
   */
  type Fetch = (FileEntry, nat) -> Bytes

  /** How the loop ends: `return True`, `return False`, or (in the model only) out of attempts. */
  datatype CycleOutcome = Succeeded | Cancelled | GaveUp

  /** The end of a run, how many times it asked to repair, and how many download rounds it made. */
  datatype CycleRun = CycleRun(outcome: CycleOutcome, disk: Disk, prompts: nat, rounds: nat)

  // ---------------------------------------------------------------------
  // Specification
  // ---------------------------------------------------------------------

  /** Phase 1 over `files`: directories skipped, every other entry verified and repaired in turn. */
  function VerifyPass(disk: Disk, files: seq<FileEntry>, sha1: Digest): Pass
  {
    if files == [] then Pass([], disk)
    else
      var p := VerifyPass(disk, files[..|files| - 1], sha1);
      var f := files[|files| - 1];
      if f.isDirectory then p
      else
        var (outcome, after) := VerifyFile(p.disk, f, sha1);
        match outcome
        case Verified => Pass(p.flagged, after)
        case Resume(offset) => Pass(p.flagged + [Flagged(f, offset)], after)
  }

  /** `total_download_size`: the bytes still missing from the flagged files. */
  function MissingBytes(flagged: seq<Flagged>): int
  {
    Sum(seq(|flagged|, i requires 0 <= i < |flagged| => flagged[i].entry.size - flagged[i].resume))
  }

  /**
   * `_download_single_file`: the file is opened for appending (created if
   * absent) and the stream appended; a file that cannot be opened for
   * writing makes `open('ab')` raise, which the worker catches.
   */
  function DownloadFile(disk: Disk, fl: Flagged, fetch: Fetch): Disk
  {
    var path := fl.entry.filename;
    if path in disk.unreadable || path in disk.readOnly then disk
    else
      var before := if path in disk.files then disk.files[path] else [];
      disk.(files := disk.files[path := before + fetch(fl.entry, fl.resume)])
  }

  /** Phase 2: every flagged file downloaded once. */
  function DownloadAll(disk: Disk, flagged: seq<Flagged>, fetch: Fetch): Disk
  {
    if flagged == [] then disk
    else DownloadFile(DownloadAll(disk, flagged[..|flagged| - 1], fetch), flagged[|flagged| - 1], fetch)
  }

  /**
   * The loop, given the user's answer to "Repair now?" and one download
   * attempt per round; running out of attempts ends the run with `GaveUp`.
   */
  function Cycle(disk: Disk, files: seq<FileEntry>, verifyOnly: bool, confirm: bool,
                 attempts: seq<Fetch>, sha1: Digest): CycleRun
    decreases |attempts|
  {
    var p := VerifyPass(disk, files, sha1);
    var asked := if verifyOnly then 1 else 0;
    if p.flagged == [] then CycleRun(Succeeded, p.disk, 0, 0)
    else if verifyOnly && !confirm then CycleRun(Cancelled, p.disk, 1, 0)
    else if attempts == [] then CycleRun(GaveUp, p.disk, asked, 0)
    else
      var next := Cycle(DownloadAll(p.disk, p.flagged, attempts[0]), files, false, confirm, attempts[1..], sha1);
      next.(prompts := next.prompts + asked, rounds := next.rounds + 1)
  }

  // ---------------------------------------------------------------------
  // Implementation
  // ---------------------------------------------------------------------

  lemma MissingBytesSnoc(flagged: seq<Flagged>, fl: Flagged)
    ensures MissingBytes(flagged + [fl]) == MissingBytes(flagged) + (fl.entry.size - fl.resume)
  {
    var xs := seq(|flagged| + 1, i requires 0 <= i < |flagged| + 1 =>
                (flagged + [fl])[i].entry.size - (flagged + [fl])[i].resume);
    assert xs[..|flagged|] == seq(|flagged|, i requires 0 <= i < |flagged| => flagged[i].entry.size - flagged[i].resume);
  }

  lemma VerifyPassSnoc(disk: Disk, files: seq<FileEntry>, f: FileEntry, sha1: Digest)
    ensures var p := VerifyPass(disk, files, sha1);
            VerifyPass(disk, files + [f], sha1) ==
              if f.isDirectory then p
              else
                var (outcome, after) := VerifyFile(p.disk, f, sha1);
                match outcome
                case Verified => Pass(p.flagged, after)
                case Resume(offset) => Pass(p.flagged + [Flagged(f, offset)], after)
  {
    assert (files + [f])[..|files|] == files;
  }

  lemma DownloadAllSnoc(disk: Disk, flagged: seq<Flagged>, fl: Flagged, fetch: Fetch)
    ensures DownloadAll(disk, flagged + [fl], fetch) == DownloadFile(DownloadAll(disk, flagged, fetch), fl, fetch)
  {
    assert (flagged + [fl])[..|flagged|] == flagged;
  }

  /** Phase 1, with the running total of missing bytes. */
  method VerifyAll(fs: FileSystem, files: seq<FileEntry>, sha1: Digest)
    returns (flagged: seq<Flagged>, totalDownloadSize: int)
    modifies fs
    ensures Pass(flagged, fs.Snapshot()) == VerifyPass(old(fs.Snapshot()), files, sha1)
    ensures totalDownloadSize == MissingBytes(flagged)
  {
    flagged := [];
    totalDownloadSize := 0;
    for i := 0 to |files|
      invariant Pass(flagged, fs.Snapshot()) == VerifyPass(old(fs.Snapshot()), files[..i], sha1)
      invariant totalDownloadSize == MissingBytes(flagged)
    {
      var f := files[i];
      TakeSnoc(files, i);
      VerifyPassSnoc(old(fs.Snapshot()), files[..i], f, sha1);
      if f.isDirectory {
        continue;
      }
      var outcome := fs.VerifyAndRepairFile(f, sha1);
      if outcome.Resume? {
        MissingBytesSnoc(flagged, Flagged(f, outcome.offset));
        flagged := flagged + [Flagged(f, outcome.offset)];
        totalDownloadSize := totalDownloadSize + (f.size - outcome.offset);
      }
    }
    TakeAll(files);
  }

  /** Phase 2: each flagged file downloaded from its resume offset (one at a time in this model). */
  method DownloadFlagged(fs: FileSystem, flagged: seq<Flagged>, fetch: Fetch)
    modifies fs
    ensures fs.Snapshot() == DownloadAll(old(fs.Snapshot()), flagged, fetch)
  {
    for i := 0 to |flagged|
      invariant fs.Snapshot() == DownloadAll(old(fs.Snapshot()), flagged[..i], fetch)
    {
      TakeSnoc(flagged, i);
      DownloadAllSnoc(old(fs.Snapshot()), flagged[..i], flagged[i], fetch);
      var path := flagged[i].entry.filename;
      if path !in fs.unreadable && path !in fs.readOnly {
        var before := if path in fs.files then fs.files[path] else [];
        fs.files := fs.files[path := before + fetch(flagged[i].entry, flagged[i].resume)];
      }
    }
    TakeAll(flagged);
  }

  /** The outcome and the final disk of a run agree. */
  predicate SameEnd(a: CycleRun, b: CycleRun)
  {
    a.outcome == b.outcome && a.disk == b.disk
  }

  /** `_execute_verification_and_download_cycle`; `Succeeded` is `True`, the other two `False`. */
  method ExecuteCycle(fs: FileSystem, allFiles: seq<FileEntry>, verifyOnly: bool, confirm: bool,
                      attempts: seq<Fetch>, sha1: Digest) returns (outcome: CycleOutcome)
    modifies fs
    ensures var run := Cycle(old(fs.Snapshot()), allFiles, verifyOnly, confirm, attempts, sha1);
            outcome == run.outcome && fs.Snapshot() == run.disk
  {
    var verifyOnlyNow := verifyOnly;
    var r := 0;
    while true
      invariant r <= |attempts|
      invariant SameEnd(Cycle(old(fs.Snapshot()), allFiles, verifyOnly, confirm, attempts, sha1),
                        Cycle(fs.Snapshot(), allFiles, verifyOnlyNow, confirm, attempts[r..], sha1))
      decreases |attempts| - r
    {
      var flagged, totalDownloadSize := VerifyAll(fs, allFiles, sha1);
      if flagged == [] {
        return Succeeded;
      }
      if verifyOnlyNow {
        if !confirm {
          return Cancelled;
        }
        verifyOnlyNow := false;
      }
      if r == |attempts| {
        return GaveUp;
      }
      DownloadFlagged(fs, flagged, attempts[r]);
      assert attempts[r..][1..] == attempts[r + 1..];
      r := r + 1;
    }
  }

  // ---------------------------------------------------------------------
  // Properties
  // ---------------------------------------------------------------------

  /** A pass that flags nothing found every non-directory file verified and changed nothing. */
  lemma {:induction false} CleanPass(disk: Disk, files: seq<FileEntry>, sha1: Digest)
    requires VerifyPass(disk, files, sha1).flagged == []
    ensures VerifyPass(disk, files, sha1).disk == disk
    ensures forall f :: f in files && !f.isDirectory ==> VerifyFile(disk, f, sha1) == (Verified, disk)
  {
    if files != [] {
      var pre, f := files[..|files| - 1], files[|files| - 1];
      assert files == pre + [f];
      CleanPass(disk, pre, sha1);
    }
  }

  /** The loop returns `True` only after a pass in which every non-directory file verified. */
  lemma {:induction false} SucceededOnlyWhenAllVerified(disk: Disk, files: seq<FileEntry>, verifyOnly: bool,
                                                        confirm: bool, attempts: seq<Fetch>, sha1: Digest)
    requires Cycle(disk, files, verifyOnly, confirm, attempts, sha1).outcome == Succeeded
    ensures var end := Cycle(disk, files, verifyOnly, confirm, attempts, sha1).disk;
            forall f :: f in files && !f.isDirectory ==> VerifyFile(end, f, sha1) == (Verified, end)
    decreases |attempts|
  {
    var p := VerifyPass(disk, files, sha1);
    if p.flagged == [] {
      CleanPass(disk, files, sha1);
    } else {
      SucceededOnlyWhenAllVerified(DownloadAll(p.disk, p.flagged, attempts[0]), files, false, confirm, attempts[1..], sha1);
    }
  }

  /** Once the flag is off (or was never on), the loop never asks and never cancels. */
  lemma {:induction false} NoPromptOnceConfirmed(disk: Disk, files: seq<FileEntry>, confirm: bool,
                                                 attempts: seq<Fetch>, sha1: Digest)
    ensures var run := Cycle(disk, files, false, confirm, attempts, sha1);
            run.prompts == 0 && run.outcome != Cancelled
    decreases |attempts|
  {
    var p := VerifyPass(disk, files, sha1);
    if p.flagged != [] && attempts != [] {
      NoPromptOnceConfirmed(DownloadAll(p.disk, p.flagged, attempts[0]), files, confirm, attempts[1..], sha1);
    }
  }

  /**
   * The repair question is asked at most once, only in verify-only mode, and
   * only when the first pass flagged something.
   */
  lemma AskedAtMostOnce(disk: Disk, files: seq<FileEntry>, verifyOnly: bool, confirm: bool,
                        attempts: seq<Fetch>, sha1: Digest)
    ensures var run := Cycle(disk, files, verifyOnly, confirm, attempts, sha1);
            && run.prompts <= 1
            && (run.prompts == 1 <==> verifyOnly && VerifyPass(disk, files, sha1).flagged != [])
  {
    var p := VerifyPass(disk, files, sha1);
    if p.flagged != [] && !(verifyOnly && !confirm) && attempts != [] {
      NoPromptOnceConfirmed(DownloadAll(p.disk, p.flagged, attempts[0]), files, confirm, attempts[1..], sha1);
    }
  }

  /**
   * Declining the repair returns `False` straight after the first pass:
   * nothing is downloaded and the disk is as that pass left it. A run is
   * cancelled only that way.
   */
  lemma CancelledOnlyByDeclining(disk: Disk, files: seq<FileEntry>, verifyOnly: bool, confirm: bool,
                                 attempts: seq<Fetch>, sha1: Digest)
    ensures var run := Cycle(disk, files, verifyOnly, confirm, attempts, sha1);
            var p := VerifyPass(disk, files, sha1);
            run.outcome == Cancelled <==> verifyOnly && !confirm && p.flagged != []
    ensures var run := Cycle(disk, files, verifyOnly, confirm, attempts, sha1);
            run.outcome == Cancelled ==> run.rounds == 0 && run.disk == VerifyPass(disk, files, sha1).disk
  {
    var p := VerifyPass(disk, files, sha1);
    if p.flagged != [] && !(verifyOnly && !confirm) && attempts != [] {
      NoPromptOnceConfirmed(DownloadAll(p.disk, p.flagged, attempts[0]), files, confirm, attempts[1..], sha1);
    }
  }

  /** Path `path` is listed by no entry except directory entries. */
  predicate OnlyDirectories(files: seq<FileEntry>, path: string)
  {
    forall f :: f in files && f.filename == path ==> f.isDirectory
  }

  /** The two disks hold the same thing (or nothing) at `path`. */
  predicate SameAt(d1: Disk, d2: Disk, path: string)
  {
    (path in d1.files <==> path in d2.files)
    && (path in d1.files ==> d1.files[path] == d2.files[path])
    && d1.unreadable == d2.unreadable && d1.readOnly == d2.readOnly
  }

  lemma {:induction false} PassSparesDirectories(disk: Disk, files: seq<FileEntry>, sha1: Digest, path: string)
    requires OnlyDirectories(files, path)
    ensures SameAt(VerifyPass(disk, files, sha1).disk, disk, path)
    ensures forall fl :: fl in VerifyPass(disk, files, sha1).flagged ==> fl.entry.filename != path
  {
    if files != [] {
      var pre, f := files[..|files| - 1], files[|files| - 1];
      assert files == pre + [f];
      PassSparesDirectories(disk, pre, sha1, path);
    }
  }

  lemma {:induction false} DownloadSparesOthers(disk: Disk, flagged: seq<Flagged>, fetch: Fetch, path: string)
    requires forall fl :: fl in flagged ==> fl.entry.filename != path
    ensures SameAt(DownloadAll(disk, flagged, fetch), disk, path)
  {
    if flagged != [] {
      var pre := flagged[..|flagged| - 1];
      assert flagged == pre + [flagged[|flagged| - 1]];
      DownloadSparesOthers(disk, pre, fetch, path);
    }
  }

  /** Directory entries are never verified or downloaded: a path only they list is left as it was. */
  lemma {:induction false} DirectoriesUntouched(disk: Disk, files: seq<FileEntry>, verifyOnly: bool, confirm: bool,
                                                attempts: seq<Fetch>, sha1: Digest, path: string)
    requires OnlyDirectories(files, path)
    ensures SameAt(Cycle(disk, files, verifyOnly, confirm, attempts, sha1).disk, disk, path)
    decreases |attempts|
  {
    var p := VerifyPass(disk, files, sha1);
    PassSparesDirectories(disk, files, sha1, path);
    if p.flagged != [] && !(verifyOnly && !confirm) && attempts != [] {
      var next := DownloadAll(p.disk, p.flagged, attempts[0]);
      DownloadSparesOthers(p.disk, p.flagged, attempts[0], path);
      DirectoriesUntouched(next, files, false, confirm, attempts[1..], sha1, path);
    }
  }
}
