// Layering the depots of a queue into one path-keyed file map (the first
// half of `download_game`): for each depot in queue order, each file it
// lists is stored under its path; a path seen before keeps its place in
// the map, takes the new entry, and logs which depot was overwritten.
module Aggregation {
  import opened Base
  import opened PyDict
  import opened Manifest
  import opened TextCodec

  /** A map value `(file_info, depot_id)`. */
  datatype Owned = Owned(entry: FileEntry, depotId: int)

  /** A queued depot and its file list; `None` when loading it raised, so it is skipped whole. */
  datatype LoadedDepot = LoadedDepot(depotId: int, files: Option<seq<FileEntry>>)

  /** One path collision: the depot that owned the path and the depot that took it over. */
  datatype OverwriteEvent = OverwriteEvent(path: string, oldDepot: int, newDepot: int)

  /** `master_file_map` and the events behind `overwrite_log`. */
  datatype Aggregate = Aggregate(fileMap: Dict<string, Owned>, events: seq<OverwriteEvent>)

  function Path(o: Owned): string
  {
    o.entry.filename
  }

  // ---------------------------------------------------------------------
  // The fold
  // ---------------------------------------------------------------------

  /** The files of one depot, each tagged with the depot's id. */
  function Tagged(depotId: int, files: seq<FileEntry>): (os: seq<Owned>)
    ensures |os| == |files|
    ensures forall i :: 0 <= i < |os| ==> os[i] == Owned(files[i], depotId)
  {
    seq(|files|, i requires 0 <= i < |files| => Owned(files[i], depotId))
  }

  /** Every (file, depot) pair the nested loop meets, in the order it meets them. */
  function Encounters(depots: seq<LoadedDepot>): seq<Owned>
  {
    if depots == [] then []
    else
      var last := depots[|depots| - 1];
      Encounters(depots[..|depots| - 1])
      + match last.files { case None => [] case Some(fs) => Tagged(last.depotId, fs) }
  }

  /** Lines 603-606 for one file. */
  function Insert(a: Aggregate, o: Owned): (r: Aggregate)
    requires Valid(a.fileMap)
    ensures Valid(r.fileMap)
  {
    var p := Path(o);
    if p in a.fileMap.entries then
      Aggregate(Put(a.fileMap, p, o), a.events + [OverwriteEvent(p, a.fileMap.entries[p].depotId, o.depotId)])
    else
      Aggregate(Put(a.fileMap, p, o), a.events)
  }

  /** The whole aggregation over the encountered pairs, starting from an empty map and log. */
  function AggregateAll(os: seq<Owned>): (r: Aggregate)
    ensures Valid(r.fileMap)
  {
    if os == [] then Aggregate(Empty(), [])
    else Insert(AggregateAll(os[..|os| - 1]), os[|os| - 1])
  }

  lemma AggregateSnoc(os: seq<Owned>, o: Owned)
    ensures AggregateAll(os + [o]) == Insert(AggregateAll(os), o)
  {
    assert (os + [o])[..|os|] == os;
  }

  /** `all_files_in_manifest`: the entries of the map in key order. */
  function FileList(a: Aggregate): seq<FileEntry>
    requires Valid(a.fileMap)
  {
    var owned := Values(a.fileMap);
    seq(|owned|, i requires 0 <= i < |owned| => owned[i].entry)
  }

  /** The text of one overwrite-log line. */
  function LogLine(e: OverwriteEvent): string
  {
    "File '" + e.path + "' from Depot " + IntToString(e.oldDepot)
    + " was overwritten by Depot " + IntToString(e.newDepot) + "."
  }

  function LogLines(es: seq<OverwriteEvent>): (ls: seq<string>)
    ensures |ls| == |es|
  {
    seq(|es|, i requires 0 <= i < |es| => LogLine(es[i]))
  }

  // ---------------------------------------------------------------------
  // Reference definitions, independent of the map
  // ---------------------------------------------------------------------

  function Paths(os: seq<Owned>): set<string>
  {
    set o | o in os :: Path(o)
  }

  /** The last pair that lists path `p`. */
  function LastOwner(os: seq<Owned>, p: string): Option<Owned>
  {
    if os == [] then None
    else if Path(os[|os| - 1]) == p then Some(os[|os| - 1])
    else LastOwner(os[..|os| - 1], p)
  }

  /** The distinct paths in the order they first appear. */
  function FirstAppearance(os: seq<Owned>): seq<string>
  {
    if os == [] then []
    else
      var pre := os[..|os| - 1];
      var p := Path(os[|os| - 1]);
      FirstAppearance(pre) + (if p in Paths(pre) then [] else [p])
  }

  /** One event per pair whose path was listed before, naming the latest earlier owner. */
  function Collisions(os: seq<Owned>): seq<OverwriteEvent>
  {
    if os == [] then []
    else
      var pre := os[..|os| - 1];
      var o := os[|os| - 1];
      Collisions(pre)
      + match LastOwner(pre, Path(o)) {
          case None => []
          case Some(prev) => [OverwriteEvent(Path(o), prev.depotId, o.depotId)]
        }
  }

  // ---------------------------------------------------------------------
  // Properties
  // ---------------------------------------------------------------------

  lemma PathsSnoc(os: seq<Owned>, o: Owned)
    ensures Paths(os + [o]) == Paths(os) + {Path(o)}
  {
    forall q | q in Paths(os + [o]) ensures q in Paths(os) + {Path(o)} {
      var x :| x in os + [o] && Path(x) == q;
    }
    forall q | q in Paths(os) + {Path(o)} ensures q in Paths(os + [o]) {
      if q in Paths(os) {
        var x :| x in os && Path(x) == q;
        assert x in os + [o];
      } else {
        assert o in os + [o];
      }
    }
  }

  lemma {:induction false} LastOwnerPresent(os: seq<Owned>, p: string)
    ensures LastOwner(os, p).Some? <==> p in Paths(os)
    ensures LastOwner(os, p).Some? ==> Path(LastOwner(os, p).value) == p
  {
    if os != [] {
      var pre, o := os[..|os| - 1], os[|os| - 1];
      assert os == pre + [o];
      PathsSnoc(pre, o);
      LastOwnerPresent(pre, p);
    }
  }

  /**
   * The aggregate is what the reference definitions say: the map lists each
   * path once, in first-appearance order; each path maps to the last pair
   * that lists it; the log has one event per collision, in encounter order.
   */
  lemma AggregateMeaning(os: seq<Owned>)
    ensures AggregateAll(os).fileMap.keys == FirstAppearance(os)
    ensures AggregateAll(os).fileMap.entries.Keys == Paths(os)
    ensures forall p :: p in AggregateAll(os).fileMap.entries ==>
              LastOwner(os, p) == Some(AggregateAll(os).fileMap.entries[p])
    ensures AggregateAll(os).events == Collisions(os)
  {
    AggregateKeys(os);
    AggregateEntries(os);
    AggregateEvents(os);
  }

  /** The map lists each path once, in first-appearance order. */
  lemma {:induction false} AggregateKeys(os: seq<Owned>)
    ensures AggregateAll(os).fileMap.keys == FirstAppearance(os)
    ensures AggregateAll(os).fileMap.entries.Keys == Paths(os)
  {
    if os != [] {
      var pre, o := os[..|os| - 1], os[|os| - 1];
      assert os == pre + [o];
      AggregateKeys(pre);
      PathsSnoc(pre, o);
    }
  }

  /** Each path maps to the last pair that lists it. */
  lemma {:induction false} AggregateEntries(os: seq<Owned>)
    ensures forall p :: p in AggregateAll(os).fileMap.entries ==>
              LastOwner(os, p) == Some(AggregateAll(os).fileMap.entries[p])
  {
    if os != [] {
      var pre, o := os[..|os| - 1], os[|os| - 1];
      AggregateEntries(pre);
      var a := AggregateAll(pre);
      var r := AggregateAll(os);
      assert r == Insert(a, o);
      forall p | p in r.fileMap.entries
        ensures LastOwner(os, p) == Some(r.fileMap.entries[p])
      {
        if p != Path(o) {
          assert p in a.fileMap.entries;
        }
      }
    }
  }

  /** The log has one event per collision, naming the previous owner, in encounter order. */
  lemma {:induction false} AggregateEvents(os: seq<Owned>)
    ensures AggregateAll(os).events == Collisions(os)
  {
    if os != [] {
      var pre, o := os[..|os| - 1], os[|os| - 1];
      assert os == pre + [o];
      AggregateEvents(pre);
      AggregateKeys(pre);
      AggregateEntries(pre);
      PathsSnoc(pre, o);
      LastOwnerPresent(pre, Path(o));
      assert AggregateAll(os) == Insert(AggregateAll(pre), o);
    }
  }

  /** Each pair either introduces a new path or causes exactly one overwrite event. */
  lemma {:induction false} OneEventPerCollision(os: seq<Owned>)
    ensures |Collisions(os)| + |FirstAppearance(os)| == |os|
    ensures |AggregateAll(os).events| == |os| - |AggregateAll(os).fileMap.keys|
  {
    if os != [] {
      var pre, o := os[..|os| - 1], os[|os| - 1];
      OneEventPerCollision(pre);
      LastOwnerPresent(pre, Path(o));
    }
    AggregateMeaning(os);
  }

  /**
   * `LastOwner` picks the pair at the highest position that lists the path:
   * nothing after it lists the path again.
   */
  lemma {:induction false} LastOwnerIsLast(os: seq<Owned>, p: string, k: nat)
    requires k < |os| && Path(os[k]) == p
    ensures LastOwner(os, p).Some?
    ensures exists m :: k <= m < |os| && os[m] == LastOwner(os, p).value
                        && forall m' :: m < m' < |os| ==> Path(os[m']) != p
  {
    var n := |os|;
    if Path(os[n - 1]) == p {
      assert os[n - 1] == LastOwner(os, p).value;
    } else {
      var pre := os[..n - 1];
      LastOwnerIsLast(pre, p, k);
      var m :| k <= m < |pre| && pre[m] == LastOwner(pre, p).value
               && forall m' :: m < m' < |pre| ==> Path(pre[m']) != p;
      assert os[m] == LastOwner(os, p).value;
    }
  }

  /**
   * Last writer wins: whenever the file at position `k` of the encounter
   * order lists path `p`, the map's entry for `p` is that pair or one met
   * later, and no pair after the winner lists `p`.
   */
  lemma LastWriterWins(depots: seq<LoadedDepot>, p: string, k: nat)
    requires k < |Encounters(depots)| && Path(Encounters(depots)[k]) == p
    ensures p in AggregateAll(Encounters(depots)).fileMap.entries
    ensures var os := Encounters(depots);
            exists m :: k <= m < |os| && os[m] == AggregateAll(os).fileMap.entries[p]
                        && forall m' :: m < m' < |os| ==> Path(os[m']) != p
  {
    var os := Encounters(depots);
    assert os[k] in os;
    AggregateMeaning(os);
    LastOwnerIsLast(os, p, k);
  }
}
