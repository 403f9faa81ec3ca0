// The downloader's session state (`SuperSexySteamDownloader`): the queue of
// depots loaded from an `.sfd` file, the overwrite log of the last
// aggregation, and the CDN client's depot-key and manifest caches, with the
// operations that reset, load, convert into and consume that queue.
module Downloader {
  import opened Base
  import opened PyDict
  import opened TextCodec
  import opened Manifest
  import opened SfdCodec
  import opened Aggregation
  import opened ChunkVerifier
  import opened Reconciliation
  import opened LuaImport

  /**
   * `cdn.get_manifest` followed by `decrypt_filenames` and `iter_files` for
   * one queued depot: its file list, or `None` when any of them raises.
   */
  type Listing = DepotRecord -> Option<seq<FileEntry>>

  /** How `download_game` ends. */
  datatype DownloadResult =
    | QueueEmpty
    | NotLoggedIn
    | NoFiles
    | Finished(outcome: CycleOutcome, overwriteLogFile: Option<string>)

  // ---------------------------------------------------------------------
  // Specification
  // ---------------------------------------------------------------------

  /** `cdn.depot_keys` after the records were loaded in order: a later record for a depot replaces an earlier one. */
  function KeysOf(ds: seq<DepotRecord>): map<int, Bytes>
  {
    if ds == [] then map[]
    else
      var d := ds[|ds| - 1];
      KeysOf(ds[..|ds| - 1])[d.depotId := d.depotKey]
  }

  /** `cdn.manifests`, keyed by (app id, depot id, manifest id), holding each payload. */
  function ManifestsOf(appId: int, ds: seq<DepotRecord>): map<(int, int, int), Bytes>
  {
    if ds == [] then map[]
    else
      var d := ds[|ds| - 1];
      ManifestsOf(appId, ds[..|ds| - 1])[(appId, d.depotId, d.manifestId) := d.manifestContent]
  }

  /** The queue with each depot's file listing (or its failure). */
  function LoadedOf(ds: seq<DepotRecord>, listing: Listing): (ls: seq<LoadedDepot>)
    ensures |ls| == |ds| && forall i :: 0 <= i < |ds| ==> ls[i] == LoadedDepot(ds[i].depotId, listing(ds[i]))
  {
    seq(|ds|, i requires 0 <= i < |ds| => LoadedDepot(ds[i].depotId, listing(ds[i])))
  }

  /** `"\n".join(lines)`. */
  function JoinLines(lines: seq<string>): string
  {
    if lines == [] then ""
    else if |lines| == 1 then lines[0]
    else JoinLines(lines[..|lines| - 1]) + "\n" + lines[|lines| - 1]
  }

  /** The comment line that opens `overwritten_files.txt`, and a blank line. */
  const LogHeader := "# File versions from depots listed LATER in the .sfd file were kept.\n\n"

  /** The text of `overwritten_files.txt`. */
  function OverwriteLogText(log: seq<string>): string
  {
    LogHeader + JoinLines(log)
  }

  lemma KeysOfSnoc(ds: seq<DepotRecord>, d: DepotRecord)
    ensures KeysOf(ds + [d]) == KeysOf(ds)[d.depotId := d.depotKey]
  {
    assert (ds + [d])[..|ds|] == ds;
  }

  lemma ManifestsOfSnoc(appId: int, ds: seq<DepotRecord>, d: DepotRecord)
    ensures ManifestsOf(appId, ds + [d]) == ManifestsOf(appId, ds)[(appId, d.depotId, d.manifestId) := d.manifestContent]
  {
    assert (ds + [d])[..|ds|] == ds;
  }

  lemma PrependSnoc(ds: seq<DepotRecord>, d: DepotRecord, r: Option<seq<DepotRecord>>)
    ensures Prepend(ds + [d], r) == Prepend(ds, Prepend([d], r))
  {
    if r.Some? {
      AppendAssoc(ds, [d], r.value);
    }
  }

  lemma EncountersSnoc(ds: seq<DepotRecord>, i: nat, listing: Listing)
    requires i < |ds|
    ensures Encounters(LoadedOf(ds[..i + 1], listing))
         == Encounters(LoadedOf(ds[..i], listing))
            + match listing(ds[i]) { case None => [] case Some(fs) => Tagged(ds[i].depotId, fs) }
  {
    assert LoadedOf(ds[..i + 1], listing)[..i] == LoadedOf(ds[..i], listing);
  }

  lemma TaggedSnoc(id: int, fs: seq<FileEntry>, j: nat)
    requires j < |fs|
    ensures Tagged(id, fs[..j + 1]) == Tagged(id, fs[..j]) + [Owned(fs[j], id)]
  {
  }

  lemma LogLinesSnoc(es: seq<OverwriteEvent>, e: OverwriteEvent)
    ensures LogLines(es + [e]) == LogLines(es) + [LogLine(e)]
  {
  }

  /**
   * The record loop of `_load_sfd_from_path`: records are read until the
   * sentinel or the end of the text, each one appended to the queue and
   * registered in both caches; `ok` is false when a record fails to parse.
   */
  method ReadQueue(rest: string, c: PayloadCodec, a: int)
    returns (ok: bool, queue: seq<DepotRecord>, keys: map<int, Bytes>, cache: map<(int, int, int), Bytes>)
    ensures ok <==> ParseRecords(rest, c).Some?
    ensures ok ==> queue == ParseRecords(rest, c).value && keys == KeysOf(queue) && cache == ManifestsOf(a, queue)
  {
    queue, keys, cache := [], map[], map[];
    var unread := rest;
    PrependNil(ParseRecords(rest, c));
    while true
      invariant Prepend(queue, ParseRecords(unread, c)) == ParseRecords(rest, c)
      invariant keys == KeysOf(queue)
      invariant cache == ManifestsOf(a, queue)
      decreases |unread|
    {
      var next := ReadRecord(unread, c);
      if next.EndOfRecords? {
        break;
      }
      if next.BadRecord? {
        return false, [], map[], map[];
      }
      var d := next.record;
      PrependSnoc(queue, d, ParseRecords(next.rest, c));
      KeysOfSnoc(queue, d);
      ManifestsOfSnoc(a, queue, d);
      queue := queue + [d];
      keys := keys[d.depotId := d.depotKey];
      cache := cache[(a, d.depotId, d.manifestId) := d.manifestContent];
      unread := next.rest;
    }
    assert queue + [] == queue;
    ok := true;
  }

  // ---------------------------------------------------------------------
  // The session
  // ---------------------------------------------------------------------

  /**
   * Lines 602-606: one depot's files layered onto the map in order, each
   * file whose path is already held logging one overwrite line.
   */
  method LayerDepotFiles(map0: Dict<string, Owned>, log0: seq<string>, ghost events0: seq<OverwriteEvent>,
                         ghost met0: seq<Owned>, depotId: int, fs: seq<FileEntry>)
    returns (fileMap: Dict<string, Owned>, log: seq<string>, ghost events: seq<OverwriteEvent>)
    requires Aggregate(map0, events0) == AggregateAll(met0) && log0 == LogLines(events0)
    ensures var agg := AggregateAll(met0 + Tagged(depotId, fs));
            fileMap == agg.fileMap && log == LogLines(agg.events) && events == agg.events
  {
    fileMap, log, events := map0, log0, events0;
    ghost var met := met0;
    for j := 0 to |fs|
      invariant met == met0 + Tagged(depotId, fs[..j])
      invariant Aggregate(fileMap, events) == AggregateAll(met)
      invariant log == LogLines(events)
    {
      var fileInfo := fs[j];
      var entry := Owned(fileInfo, depotId);
      AggregateSnoc(met, entry);
      TaggedSnoc(depotId, fs, j);
      AppendAssoc(met0, Tagged(depotId, fs[..j]), [entry]);
      if fileInfo.filename in fileMap.entries {
        var oldDepotId := fileMap.entries[fileInfo.filename].depotId;
        var e := OverwriteEvent(fileInfo.filename, oldDepotId, depotId);
        LogLinesSnoc(events, e);
        log := log + [LogLine(e)];
        events := events + [e];
      }
      fileMap := Put(fileMap, fileInfo.filename, entry);
      met := met + [entry];
    }
    assert fs[..|fs|] == fs;
  }

  class SteamDownloader {
    var appId: Option<int>
    var depotsToDownload: seq<DepotRecord>
    var overwriteLog: seq<string>
    var depotKeys: map<int, Bytes>
    var manifests: map<(int, int, int), Bytes>

    constructor ()
      ensures appId == None && depotsToDownload == [] && overwriteLog == []
      ensures depotKeys == map[] && manifests == map[]
    {
      appId := None;
      depotsToDownload := [];
      overwriteLog := [];
      depotKeys := map[];
      manifests := map[];
    }

    /** `_reset_queue`: no app, an empty queue and log, and both CDN caches cleared. */
    method ResetQueue()
      modifies this
      ensures appId == None && depotsToDownload == [] && overwriteLog == []
      ensures depotKeys == map[] && manifests == map[]
    {
      appId := None;
      depotsToDownload := [];
      overwriteLog := [];
      manifests := map[];
      depotKeys := map[];
    }

    /**
     * `_load_sfd_from_path` on the file's text: the queue and the caches
     * hold exactly the records the file yields, and a file that raises
     * anywhere leaves the session reset, caches included.
     */
    method LoadSfdFromPath(text: string, c: PayloadCodec)
      modifies this
      ensures overwriteLog == []
      ensures match ParseSfd(text, c)
              case Loaded(a, ds) =>
                && appId == Some(a) && depotsToDownload == ds
                && depotKeys == KeysOf(ds) && manifests == ManifestsOf(a, ds)
              case LoadError =>
                && appId == None && depotsToDownload == []
                && depotKeys == map[] && manifests == map[]
    {
      ResetQueue();
      var (first, rest) := ReadLine(text);
      var parsedAppId := ParseInt(Strip(first));
      if parsedAppId.None? {
        return;
      }
      var a := parsedAppId.value;
      var ok, queue, keys, cache := ReadQueue(rest, c, a);
      if ok {
        appId, depotsToDownload, depotKeys, manifests := Some(a), queue, keys, cache;
      }
    }

    /**
     * Lines 416-457 once the app id and the game name are known: the script
     * is folded into the depot table, the depots with a manifest file are
     * collected, written as a queue file and that file is loaded.
     */
    method ConvertLuaWorkflow(lines: seq<string>, luaAppId: int, gameName: string,
                              dir: map<string, Bytes>, c: PayloadCodec) returns (conv: Conversion)
      requires RoundTrips(c)
      modifies this
      ensures conv == ConvertLua(lines, luaAppId, gameName, dir, c)
      ensures conv.Converted? ==>
                && appId == Some(luaAppId) && depotsToDownload == conv.collected
                && depotKeys == KeysOf(conv.collected) && manifests == ManifestsOf(luaAppId, conv.collected)
                && overwriteLog == []
      ensures !conv.Converted? ==> unchanged(this)
    {
      var parsedDepots := ParseLua(lines);
      if parsedDepots.keys == [] {
        return NoDepotsParsed;
      }
      var collectedDepots := CollectDepots(parsedDepots, dir);
      if collectedDepots == [] {
        return ConversionFailed;
      }
      var sfdFilename := ConvertedFileName(gameName);
      var text := WriteSfdFile(luaAppId, collectedDepots, c);
      conv := Converted(sfdFilename, text, collectedDepots);
      ConversionLoadsBack(lines, luaAppId, gameName, dir, c);
      LoadSfdFromPath(text, c);
    }

    /**
     * Lines 595-610: the queued depots' files layered into one map in
     * queue order, each collision logged, and the map's entries listed.
     */
    method AggregateFiles(listing: Listing) returns (allFilesInManifest: seq<FileEntry>)
      modifies this
      ensures appId == old(appId) && depotsToDownload == old(depotsToDownload)
      ensures depotKeys == old(depotKeys) && manifests == old(manifests)
      ensures var agg := AggregateAll(Encounters(LoadedOf(depotsToDownload, listing)));
              allFilesInManifest == FileList(agg) && overwriteLog == LogLines(agg.events)
    {
      overwriteLog := [];
      var masterFileMap: Dict<string, Owned> := Empty();
      ghost var events: seq<OverwriteEvent> := [];
      ghost var met: seq<Owned> := [];
      var queue := depotsToDownload;
      for i := 0 to |queue|
        invariant appId == old(appId) && depotsToDownload == old(depotsToDownload) == queue
        invariant depotKeys == old(depotKeys) && manifests == old(manifests)
        invariant met == Encounters(LoadedOf(queue[..i], listing))
        invariant Aggregate(masterFileMap, events) == AggregateAll(met)
        invariant overwriteLog == LogLines(events)
      {
        var depot := queue[i];
        EncountersSnoc(queue, i, listing);
        var files := listing(depot);
        if files.Some? {
          var fs := files.value;
          var log;
          masterFileMap, log, events := LayerDepotFiles(masterFileMap, overwriteLog, events, met, depot.depotId, fs);
          overwriteLog := log;
          met := met + Tagged(depot.depotId, fs);
        } else {
          assert met + [] == met;
        }
      }
      assert queue[..|queue|] == queue;
      allFilesInManifest := FileList(Aggregate(masterFileMap, []));
    }

    /**
     * `download_game`, with the login attempt's result, the verify-only
     * flag, the user's answer to the repair question, one download attempt
     * per round and the digest as parameters.
     */
    method DownloadGame(fs: FileSystem, listing: Listing, loggedIn: bool, verificationOnly: bool,
                        confirm: bool, attempts: seq<Fetch>, sha1: Digest) returns (r: DownloadResult)
      modifies this, fs
      ensures appId == old(appId) && depotsToDownload == old(depotsToDownload)
      ensures (r == QueueEmpty) <==> (old(depotsToDownload) == [] || old(appId) == None || old(appId) == Some(0))
      ensures r == QueueEmpty || r == NotLoggedIn ==> unchanged(this) && unchanged(fs)
      ensures r == NotLoggedIn <==> r != QueueEmpty && !loggedIn
      ensures r.NoFiles? || r.Finished? ==>
                var agg := AggregateAll(Encounters(LoadedOf(depotsToDownload, listing)));
                && overwriteLog == LogLines(agg.events)
                && (r.NoFiles? <==> FileList(agg) == [])
                && (r.NoFiles? ==> unchanged(fs))
                && (r.Finished? ==>
                      var run := Cycle(old(fs.Snapshot()), FileList(agg), verificationOnly, confirm, attempts, sha1);
                      && r.outcome == run.outcome && fs.Snapshot() == run.disk
                      && r.overwriteLogFile == (if run.outcome == Succeeded && overwriteLog != []
                                                then Some(OverwriteLogText(overwriteLog)) else None))
    {
      if depotsToDownload == [] || appId.None? || appId.value == 0 {
        return QueueEmpty;
      }
      if !loggedIn {
        return NotLoggedIn;
      }
      var allFilesInManifest := AggregateFiles(listing);
      if allFilesInManifest == [] {
        return NoFiles;
      }
      var outcome := ExecuteCycle(fs, allFilesInManifest, verificationOnly, confirm, attempts, sha1);
      if outcome == Succeeded && overwriteLog != [] {
        r := Finished(outcome, Some(OverwriteLogText(overwriteLog)));
      } else {
        r := Finished(outcome, None);
      }
    }
  }

  // ---------------------------------------------------------------------
  // Properties
  // ---------------------------------------------------------------------

  /** The record at the highest position naming depot `id`. */
  function LastRecordFor(ds: seq<DepotRecord>, id: int): Option<DepotRecord>
  {
    if ds == [] then None
    else if ds[|ds| - 1].depotId == id then Some(ds[|ds| - 1])
    else LastRecordFor(ds[..|ds| - 1], id)
  }

  /**
   * The key cache holds a key for exactly the depots the queue names, and
   * for each it is the key of the last record naming that depot.
   */
  lemma {:induction false} KeysOfLastWins(ds: seq<DepotRecord>, id: int)
    ensures id in KeysOf(ds) <==> exists k :: 0 <= k < |ds| && ds[k].depotId == id
    ensures id in KeysOf(ds) ==> LastRecordFor(ds, id).Some? && KeysOf(ds)[id] == LastRecordFor(ds, id).value.depotKey
  {
    if ds != [] {
      var pre := ds[..|ds| - 1];
      KeysOfLastWins(pre, id);
      if exists k :: 0 <= k < |pre| && pre[k].depotId == id {
        var k :| 0 <= k < |pre| && pre[k].depotId == id;
        assert ds[k] == pre[k];
      }
      if exists k :: 0 <= k < |ds| && ds[k].depotId == id {
        var k :| 0 <= k < |ds| && ds[k].depotId == id;
        if k < |ds| - 1 {
          assert pre[k] == ds[k];
        }
      }
    }
  }

  /** The manifest cache holds an entry exactly for each (depot, manifest) pair of the queue, under its app id. */
  lemma {:induction false} ManifestsOfMembers(appId: int, ds: seq<DepotRecord>, a: int, id: int, m: int)
    ensures (a, id, m) in ManifestsOf(appId, ds)
            <==> a == appId && exists k :: 0 <= k < |ds| && ds[k].depotId == id && ds[k].manifestId == m
  {
    if ds != [] {
      var pre := ds[..|ds| - 1];
      ManifestsOfMembers(appId, pre, a, id, m);
      if exists k :: 0 <= k < |pre| && pre[k].depotId == id && pre[k].manifestId == m {
        var k :| 0 <= k < |pre| && pre[k].depotId == id && pre[k].manifestId == m;
        assert ds[k] == pre[k];
      }
      if exists k :: 0 <= k < |ds| && ds[k].depotId == id && ds[k].manifestId == m {
        var k :| 0 <= k < |ds| && ds[k].depotId == id && ds[k].manifestId == m;
        if k < |ds| - 1 {
          assert pre[k] == ds[k];
        }
      }
    }
  }

  /**
   * The overwrite log has one line per file met whose path an earlier file
   * already held: as many lines as files met, less the distinct paths.
   */
  lemma LogCountsCollisions(ds: seq<DepotRecord>, listing: Listing)
    ensures var os := Encounters(LoadedOf(ds, listing));
            var agg := AggregateAll(os);
            |LogLines(agg.events)| == |os| - |FileList(agg)|
  {
    OneEventPerCollision(Encounters(LoadedOf(ds, listing)));
  }

  /**
   * Each log line stands on a line of its own in the log file: what comes
   * before it is the header and the earlier lines, ending in a newline, and
   * what follows it is empty or starts with a newline before the later lines.
   */
  lemma LogLineOnItsOwnLine(log: seq<string>, i: int)
    requires 0 <= i < |log|
    ensures var before := OverwriteLogText(log[..i]) + (if i == 0 then "" else "\n");
            var after := if i + 1 == |log| then "" else "\n" + JoinLines(log[i + 1..]);
            OverwriteLogText(log) == before + log[i] + after && before[|before| - 1] == '\n'
  {
    var sep := if i == 0 then "" else "\n";
    var after := if i + 1 == |log| then "" else "\n" + JoinLines(log[i + 1..]);
    JoinLinesAround(log, i);
    var prefix := JoinLines(log[..i]) + sep;
    AppendAssoc(LogHeader, JoinLines(log[..i]), sep);
    AppendAssoc(LogHeader, prefix, log[i]);
    AppendAssoc(LogHeader, prefix + log[i], after);
  }

  /** `"\n".join(log)` around its `i`-th line. */
  lemma JoinLinesAround(log: seq<string>, i: int)
    requires 0 <= i < |log|
    ensures JoinLines(log) == JoinLines(log[..i]) + (if i == 0 then "" else "\n") + log[i]
                              + (if i + 1 == |log| then "" else "\n" + JoinLines(log[i + 1..]))
  {
    var upto, rest := log[..i + 1], log[i + 1..];
    TakeDrop(log, i + 1);
    assert upto[..i] == log[..i] && upto[i] == log[i];
    if i == 0 {
      assert JoinLines(upto) == JoinLines(log[..i]) + "" + log[i];
    } else {
      assert JoinLines(upto) == JoinLines(log[..i]) + "\n" + log[i];
    }
    if i + 1 < |log| {
      JoinLinesAppend(upto, rest);
      AppendAssoc(JoinLines(upto), "\n", JoinLines(rest));
    } else {
      assert upto == log;
    }
  }

  /**
   * Joining splits at any point between two non-empty runs of lines: the
   * two joined halves with one newline between them.
   */
  lemma {:induction false} JoinLinesAppend(xs: seq<string>, ys: seq<string>)
    requires xs != [] && ys != []
    ensures JoinLines(xs + ys) == JoinLines(xs) + "\n" + JoinLines(ys)
    decreases |ys|
  {
    var zs := xs + ys;
    var pre, y := ys[..|ys| - 1], ys[|ys| - 1];
    assert zs[..|zs| - 1] == xs + pre && zs[|zs| - 1] == y;
    if |ys| == 1 {
      assert zs[..|zs| - 1] == xs;
    } else {
      JoinLinesAppend(xs, pre);
      var a, b := JoinLines(xs) + "\n", JoinLines(pre);
      AppendAssoc(a + b, "\n", y);
      AppendAssoc(a, b, "\n" + y);
      AppendAssoc(b, "\n", y);
    }
  }
}
