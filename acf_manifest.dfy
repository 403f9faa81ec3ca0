// The installed-game descriptor (`SteamManifestGenerator`): the depots of an
// app's product info are sorted into installable and shared-install tables
// (`parse_app_data`), and an `appmanifest_<appid>.acf` text is generated
// from them (`generate_acf_content`).
module AcfManifest {
  import opened Base
  import opened PyDict
  import opened TextCodec
  import opened Sanitize

  // ---------------------------------------------------------------------
  // Product info as far as it is read
  // ---------------------------------------------------------------------

  /** `depot_info['manifests']['public']`: `gid` and `size`, each possibly absent. */
  datatype PublicManifest = PublicManifest(gid: Option<string>, size: Option<string>)

  /** The fields of one `depots` entry that are consulted. */
  datatype DepotInfo = DepotInfo(
    sharedInstall: Option<string>,
    depotFromApp: Option<string>,
    publicManifest: Option<PublicManifest>,
    dlcAppId: Option<string>)

  /**
   * The app's product info: `common.name` (`common` itself may be absent),
   * `config.installdir`, the `depots` entries other than `branches`, in
   * order, and `depots.branches.public.buildid`.
   */
  datatype AppData = AppData(
    common: Option<Option<string>>,
    installDir: Option<string>,
    depots: Dict<string, DepotInfo>,
    publicBuildId: Option<string>)

  /** `{'manifest': gid, 'size': ..., 'dlc_appid': ...}`. */
  datatype DepotDetails = DepotDetails(manifest: string, size: int, dlcAppId: Option<int>)

  /** `self.depots` and `self.shared_depots`. */
  datatype Tables = Tables(installed: Dict<int, DepotDetails>, shared: Dict<int, int>)

  /** `int(s)` on a product-info string: surrounding whitespace, a sign and decimal digits. */
  function PyInt(s: string): Option<int>
    decreases |s|
  {
    if s != [] && IsSpace(s[0]) then PyInt(s[1..])
    else if s != [] && IsSpace(s[|s| - 1]) then PyInt(s[..|s| - 1])
    else ParseInt(s)
  }

  /** `int(s)` strips the whitespace `str.strip` drops, then parses what is left. */
  lemma {:induction false} PyIntIsParseOfStrip(s: string)
    ensures PyInt(s) == ParseInt(Strip(s))
    decreases |s|
  {
    if s != [] && IsSpace(s[0]) {
      PyIntIsParseOfStrip(s[1..]);
    } else if s != [] && IsSpace(s[|s| - 1]) {
      PyIntIsParseOfStrip(s[..|s| - 1]);
    }
  }

  /** `s.isdigit()`, for decimal digits. */
  predicate IsDigitString(s: string)
  {
    s != [] && forall i :: 0 <= i < |s| ==> IsDigit(s[i])
  }

  // ---------------------------------------------------------------------
  // Classifying the depots
  // ---------------------------------------------------------------------

  /** What lines 101-117 make of one entry, before any `int(...)` is applied. */
  datatype EntryKind =
    | Skipped
    | SharedEntry(id: int, parent: string)
    | InstallEntry(id: int, gid: string, size: string, dlc: Option<string>)

  function KindOf(key: string, info: DepotInfo): EntryKind
  {
    if !IsDigitString(key) then Skipped
    else if info.sharedInstall == Some("1") then
      SharedEntry(DigitsValue(key), if info.depotFromApp.Some? then info.depotFromApp.value else key)
    else if info.publicManifest.None? || info.publicManifest.value.gid.None? then Skipped
    else
      var pm := info.publicManifest.value;
      InstallEntry(DigitsValue(key), pm.gid.value, if pm.size.Some? then pm.size.value else "0", info.dlcAppId)
  }

  /** What lines 101-117 make of one entry once its `int(...)` conversions are applied. */
  datatype Outcome =
    | Skip
    | Fail
    | AddShared(id: int, parent: int)
    | AddInstall(id: int, details: DepotDetails)

  /** The conversions of lines 101-117 for one entry; `Fail` when an `int(...)` raises. */
  function Convert(key: string, info: DepotInfo): Outcome
  {
    match KindOf(key, info)
    case Skipped => Skip
    case SharedEntry(id, parent) =>
      (match PyInt(parent)
       case None => Fail
       case Some(p) => AddShared(id, p))
    case InstallEntry(id, gid, size, dlc) =>
      match PyInt(size)
      case None => Fail
      case Some(sz) =>
        match dlc
        case None => AddInstall(id, DepotDetails(gid, sz, None))
        case Some(d) =>
          match PyInt(d)
          case None => Fail
          case Some(dlcId) => AddInstall(id, DepotDetails(gid, sz, Some(dlcId)))
  }

  /**
   * One entry's outcome applied to the tables: `None` when an `int(...)`
   * raised (the exception leaves `parse_app_data`), otherwise the updated tables.
   */
  function Apply(t: Tables, o: Outcome): (r: Option<Tables>)
    requires Valid(t.installed) && Valid(t.shared)
    ensures r.Some? ==> Valid(r.value.installed) && Valid(r.value.shared)
  {
    match o
    case Skip => Some(t)
    case Fail => None
    case AddShared(id, p) => Some(t.(shared := Put(t.shared, id, p)))
    case AddInstall(id, d) => Some(t.(installed := Put(t.installed, id, d)))
  }

  /** The outcome of every `depots` entry, in table order. */
  function Outcomes(depots: Dict<string, DepotInfo>): (os: seq<Outcome>)
    requires Valid(depots)
    ensures |os| == |depots.keys|
  {
    seq(|depots.keys|, i requires 0 <= i < |depots.keys| => Convert(depots.keys[i], depots.entries[depots.keys[i]]))
  }

  /** Where the loop stands: the tables so far, and whether an `int(...)` raised (which ends it). */
  datatype Scan = Scan(tables: Tables, raised: bool)

  /** The loop of lines 100-117 over the first `n` entries, given their outcomes. */
  function ScanDepots(t: Tables, os: seq<Outcome>, n: nat): (s: Scan)
    requires Valid(t.installed) && Valid(t.shared) && n <= |os|
    ensures Valid(s.tables.installed) && Valid(s.tables.shared)
  {
    if n == 0 then Scan(t, false)
    else Advance(ScanDepots(t, os, n - 1), os[n - 1])
  }

  /** One turn of the loop; once raised, nothing more happens. */
  function Advance(s: Scan, o: Outcome): (s': Scan)
    requires Valid(s.tables.installed) && Valid(s.tables.shared)
    ensures Valid(s'.tables.installed) && Valid(s'.tables.shared)
    ensures s.raised ==> s' == s
  {
    if s.raised then s
    else
      match Apply(s.tables, o)
      case None => Scan(s.tables, true)
      case Some(t') => Scan(t', false)
  }

  /** An `int(...)` that raised ends the loop: later entries change nothing. */
  lemma {:induction false} RaisedSticks(t: Tables, os: seq<Outcome>, i: nat, n: nat)
    requires Valid(t.installed) && Valid(t.shared) && i <= n <= |os|
    requires ScanDepots(t, os, i).raised
    ensures ScanDepots(t, os, n) == ScanDepots(t, os, i)
    decreases n
  {
    if n > i {
      RaisedSticks(t, os, i, n - 1);
    }
  }

  /** How `parse_app_data` ends. */
  datatype ParseOutcome = Parsed | NoAppData | NoCommon | Raised

  // ---------------------------------------------------------------------
  // The descriptor text
  // ---------------------------------------------------------------------

  /** Inserts `x` into an ascending sequence that lacks it. */
  function InsertAscending(x: int, r: seq<int>): (r': seq<int>)
    requires StrictlyAscending(r) && x !in r
    ensures StrictlyAscending(r') && |r'| == |r| + 1
    ensures forall y :: y in r' <==> y == x || y in r
  {
    if r == [] then [x]
    else if x < r[0] then [x] + r
    else
      var rest := InsertAscending(x, r[1..]);
      assert r[0] in r;
      forall j | 0 <= j < |rest|
        ensures r[0] < rest[j]
      {
        assert rest[j] in rest;
        if rest[j] != x {
          var k :| 0 <= k < |r[1..]| && r[1..][k] == rest[j];
          assert r[k + 1] == rest[j];
        }
      }
      [r[0]] + rest
  }

  /** `sorted(...)` of a table's ids: the same ids, ascending. */
  function SortAscending(xs: seq<int>): (r: seq<int>)
    requires Distinct(xs)
    ensures StrictlyAscending(r) && |r| == |xs|
    ensures forall y :: y in r <==> y in xs
  {
    if xs == [] then []
    else
      var pre := xs[..|xs| - 1];
      assert xs == pre + [xs[|xs| - 1]];
      InsertAscending(xs[|xs| - 1], SortAscending(pre))
  }

  /** `f'{t1}"{key}"{t2}"{value}"\n'`. */
  function KvLine(key: string, value: string): string
  {
    "\t\"" + key + "\"\t\t\"" + value + "\"\n"
  }

  /** Lines 126-133: the top-level keys, in this order, with their values. */
  function MainKv(appId: int, name: string, installDir: string, buildId: string, sizeOnDisk: int): seq<(string, string)>
  {
    [ ("appid", IntToString(appId)), ("Universe", "1"), ("LauncherPath", ""), ("name", name),
      ("StateFlags", "4"), ("installdir", installDir), ("LastUpdated", "0"),
      ("SizeOnDisk", IntToString(sizeOnDisk)), ("StagingSize", "0"), ("buildid", buildId),
      ("LastOwner", "None"), ("UpdateResult", "0"), ("BytesToDownload", "0"), ("BytesDownloaded", "0"),
      ("BytesToStage", "0"), ("BytesStaged", "0"), ("TargetBuildID", "0"), ("AutoUpdateBehavior", "0"),
      ("AllowOtherDownloadsWhileRunning", "0"), ("ScheduledAutoUpdate", "0") ]
  }

  function KvLines(kv: seq<(string, string)>): (ls: seq<string>)
    ensures |ls| == |kv| && forall i :: 0 <= i < |kv| ==> ls[i] == KvLine(kv[i].0, kv[i].1)
  {
    seq(|kv|, i requires 0 <= i < |kv| => KvLine(kv[i].0, kv[i].1))
  }

  /** The `dlcappid` line of an installed depot. */
  function DlcLine(dlc: int): string
  {
    "\t\t\t\"dlcappid\"\t\t\"" + IntToString(dlc) + "\"\n"
  }

  /** Lines 143-149 for one installed depot. */
  function DepotParts(id: int, d: DepotDetails): seq<string>
  {
    [ "\t\t\"" + IntToString(id) + "\"\n", "\t\t{\n",
      "\t\t\t\"manifest\"\t\t\"" + d.manifest + "\"\n",
      "\t\t\t\"size\"\t\t\"" + IntToString(d.size) + "\"\n" ]
    + (match d.dlcAppId { case None => [] case Some(dlc) => [DlcLine(dlc)] })
    + [ "\t\t}\n" ]
  }

  function InstalledParts(ids: seq<int>, installed: map<int, DepotDetails>): seq<string>
    requires forall k :: 0 <= k < |ids| ==> ids[k] in installed
  {
    if ids == [] then []
    else InstalledParts(ids[..|ids| - 1], installed) + DepotParts(ids[|ids| - 1], installed[ids[|ids| - 1]])
  }

  lemma InstalledPartsSnoc(pre: seq<string>, ids: seq<int>, i: nat, installed: map<int, DepotDetails>)
    requires i < |ids| && forall k :: 0 <= k < |ids| ==> ids[k] in installed
    ensures pre + InstalledParts(ids[..i + 1], installed)
            == (pre + InstalledParts(ids[..i], installed)) + DepotParts(ids[i], installed[ids[i]])
  {
    assert ids[..i + 1][..i] == ids[..i];
    AppendAssoc(pre, InstalledParts(ids[..i], installed), DepotParts(ids[i], installed[ids[i]]));
  }

  /** Line 154 for one shared depot. */
  function SharedLine(id: int, parent: int): string
  {
    "\t\t\"" + IntToString(id) + "\"\t\t\"" + IntToString(parent) + "\"\n"
  }

  function SharedParts(ids: seq<int>, shared: map<int, int>): seq<string>
    requires forall k :: 0 <= k < |ids| ==> ids[k] in shared
  {
    if ids == [] then []
    else SharedParts(ids[..|ids| - 1], shared) + [SharedLine(ids[|ids| - 1], shared[ids[|ids| - 1]])]
  }

  lemma SharedPartsSnoc(pre: seq<string>, ids: seq<int>, i: nat, shared: map<int, int>)
    requires i < |ids| && forall k :: 0 <= k < |ids| ==> ids[k] in shared
    ensures pre + SharedParts(ids[..i + 1], shared)
            == (pre + SharedParts(ids[..i], shared)) + [SharedLine(ids[i], shared[ids[i]])]
  {
    assert ids[..i + 1][..i] == ids[..i];
    AppendAssoc(pre, SharedParts(ids[..i], shared), [SharedLine(ids[i], shared[ids[i]])]);
  }

  /** `sum(d['size'] for d in ...)` over the depots `ids`, in that order. */
  function SizeSum(ids: seq<int>, installed: map<int, DepotDetails>): int
    requires forall k :: 0 <= k < |ids| ==> ids[k] in installed
  {
    if ids == [] then 0 else SizeSum(ids[..|ids| - 1], installed) + installed[ids[|ids| - 1]].size
  }

  /** `size_on_disk`: the installed depots' sizes, summed in table order. */
  function SizeOnDisk(installed: Dict<int, DepotDetails>): int
    requires Valid(installed)
  {
    SizeSum(installed.keys, installed.entries)
  }

  /** `"".join(content_parts)`. */
  function Join(parts: seq<string>): string
  {
    if parts == [] then "" else Join(parts[..|parts| - 1]) + parts[|parts| - 1]
  }

  /** Everything `content_parts` holds at the end of `generate_acf_content`. */
  function AcfParts(appId: int, name: string, installDir: string, buildId: string, t: Tables): seq<string>
    requires Valid(t.installed) && Valid(t.shared)
  {
    Preamble(MainKv(appId, name, installDir, buildId, SizeOnDisk(t.installed)))
    + InstalledSection(t.installed) + SharedSection(t.shared) + ["}\n"]
  }

  /** The opening of the `AppState` block and its top-level keys. */
  function Preamble(kv: seq<(string, string)>): seq<string>
  {
    ["\"AppState\"\n", "{\n"] + KvLines(kv)
  }

  /** The `InstalledDepots` block, ids ascending. */
  function InstalledSection(installed: Dict<int, DepotDetails>): seq<string>
    requires Valid(installed)
  {
    ["\t\"InstalledDepots\"\n", "\t{\n"] + InstalledParts(SortAscending(installed.keys), installed.entries) + ["\t}\n"]
  }

  /** The `SharedDepots` block, ids ascending. */
  function SharedSection(shared: Dict<int, int>): seq<string>
    requires Valid(shared)
  {
    ["\t\"SharedDepots\"\n", "\t{\n"] + SharedParts(SortAscending(shared.keys), shared.entries) + ["\t}\n"]
  }

  // ---------------------------------------------------------------------
  // Properties
  // ---------------------------------------------------------------------

  function NoTables(): (t: Tables)
    ensures Valid(t.installed) && Valid(t.shared)
  {
    Tables(Empty(), Empty())
  }

  /** The entry is a numbered depot `id`, not shared-install, with a public manifest id. */
  predicate Installable(key: string, info: DepotInfo, id: int)
  {
    && IsDigitString(key) && DigitsValue(key) == id
    && info.sharedInstall != Some("1")
    && info.publicManifest.Some? && info.publicManifest.value.gid.Some?
  }

  lemma KindOfMeaning(key: string, info: DepotInfo, id: int)
    ensures Installable(key, info, id) <==> KindOf(key, info).InstallEntry? && KindOf(key, info).id == id
    ensures SharedInstall(key, info, id) <==> KindOf(key, info).SharedEntry? && KindOf(key, info).id == id
  {
  }

  /** The entry is a numbered depot `id` marked `sharedinstall = "1"`. */
  predicate SharedInstall(key: string, info: DepotInfo, id: int)
  {
    IsDigitString(key) && DigitsValue(key) == id && info.sharedInstall == Some("1")
  }

  predicate InstallableAt(depots: Dict<string, DepotInfo>, k: nat, id: int)
    requires Valid(depots) && k < |depots.keys|
  {
    Installable(depots.keys[k], depots.entries[depots.keys[k]], id)
  }

  predicate SharedAt(depots: Dict<string, DepotInfo>, k: nat, id: int)
    requires Valid(depots) && k < |depots.keys|
  {
    SharedInstall(depots.keys[k], depots.entries[depots.keys[k]], id)
  }

  /** One entry that raises nothing adds its id to the table it belongs in, and nothing else. */
  lemma StepMembership(t: Tables, o: Outcome)
    requires Valid(t.installed) && Valid(t.shared) && Apply(t, o).Some?
    ensures var t' := Apply(t, o).value;
            forall id :: id in t'.installed.entries <==> id in t.installed.entries || (o.AddInstall? && o.id == id)
    ensures var t' := Apply(t, o).value;
            forall id :: id in t'.shared.entries <==> id in t.shared.entries || (o.AddShared? && o.id == id)
  {
  }

  /**
   * An entry whose conversions succeed is installed under `id` exactly when
   * it is a numbered, non-shared depot `id` with a public manifest id, and
   * shared under `id` exactly when it is a numbered depot `id` marked shared.
   */
  lemma ConvertMeaning(key: string, info: DepotInfo, id: int)
    requires !Convert(key, info).Fail?
    ensures Convert(key, info).AddInstall? && Convert(key, info).id == id <==> Installable(key, info, id)
    ensures Convert(key, info).AddShared? && Convert(key, info).id == id <==> SharedInstall(key, info, id)
  {
    KindOfMeaning(key, info, id);
  }

  /** The outcome adds depot `id` to the installable table. */
  predicate Installs(o: Outcome, id: int)
  {
    o.AddInstall? && o.id == id
  }

  /** The outcome adds depot `id` to the shared table. */
  predicate Shares(o: Outcome, id: int)
  {
    o.AddShared? && o.id == id
  }

  /** A scan that has not raised met no failing entry. */
  lemma {:induction false} NoFailBefore(t: Tables, os: seq<Outcome>, n: nat)
    requires Valid(t.installed) && Valid(t.shared) && n <= |os|
    requires !ScanDepots(t, os, n).raised
    ensures forall k :: 0 <= k < n ==> !os[k].Fail?
  {
    if n > 0 {
      NoFailBefore(t, os, n - 1);
    }
  }

  /** The ids in the shared table, or in the installable one. */
  function TableIds(t: Tables, shared: bool): set<int>
  {
    if shared then t.shared.entries.Keys else t.installed.entries.Keys
  }

  /** The outcome adds depot `id` to the shared table, or to the installable one. */
  predicate Adds(o: Outcome, id: int, shared: bool)
  {
    if shared then Shares(o, id) else Installs(o, id)
  }

  /** A scan that raises nothing holds exactly the ids its outcomes add. */
  lemma OutcomeMembership(os: seq<Outcome>, n: nat)
    requires n <= |os| && !ScanDepots(NoTables(), os, n).raised
    ensures var t := ScanDepots(NoTables(), os, n).tables;
            forall id :: id in t.installed.entries <==> exists k :: 0 <= k < n && Installs(os[k], id)
    ensures var t := ScanDepots(NoTables(), os, n).tables;
            forall id :: id in t.shared.entries <==> exists k :: 0 <= k < n && Shares(os[k], id)
  {
    TableMembership(os, n, false);
    TableMembership(os, n, true);
  }

  lemma {:induction false} TableMembership(os: seq<Outcome>, n: nat, shared: bool)
    requires n <= |os| && !ScanDepots(NoTables(), os, n).raised
    ensures forall id :: id in TableIds(ScanDepots(NoTables(), os, n).tables, shared)
                         <==> exists k :: 0 <= k < n && Adds(os[k], id, shared)
  {
    if n > 0 {
      TableMembership(os, n - 1, shared);
      var t := ScanDepots(NoTables(), os, n - 1).tables;
      StepMembership(t, os[n - 1]);
      var t' := Apply(t, os[n - 1]).value;
      assert ScanDepots(NoTables(), os, n).tables == t';
      forall id
        ensures id in TableIds(t', shared) <==> exists k :: 0 <= k < n && Adds(os[k], id, shared)
      {
        if exists k :: 0 <= k < n && Adds(os[k], id, shared) {
          var k :| 0 <= k < n && Adds(os[k], id, shared);
          if k < n - 1 {
            assert id in TableIds(t, shared);
          }
        }
        if id in TableIds(t', shared) && id !in TableIds(t, shared) {
          assert Adds(os[n - 1], id, shared);
        }
      }
    }
  }

  /**
   * A scan that raises nothing lists under the installable depots exactly
   * the numbered, non-shared entries with a public manifest id, and under
   * the shared depots exactly the numbered entries marked shared; every
   * other entry is skipped.
   */
  lemma ScanMembership(depots: Dict<string, DepotInfo>, n: nat)
    requires Valid(depots) && n <= |depots.keys|
    requires !ScanDepots(NoTables(), Outcomes(depots), n).raised
    ensures var t := ScanDepots(NoTables(), Outcomes(depots), n).tables;
            forall id :: id in t.installed.entries <==> exists k :: 0 <= k < n && InstallableAt(depots, k, id)
    ensures var t := ScanDepots(NoTables(), Outcomes(depots), n).tables;
            forall id :: id in t.shared.entries <==> exists k :: 0 <= k < n && SharedAt(depots, k, id)
  {
    var os := Outcomes(depots);
    OutcomeMembership(os, n);
    NoFailBefore(NoTables(), os, n);
    forall id, k | 0 <= k < n
      ensures Installs(os[k], id) <==> InstallableAt(depots, k, id)
      ensures Shares(os[k], id) <==> SharedAt(depots, k, id)
    {
      var key := depots.keys[k];
      assert os[k] == Convert(key, depots.entries[key]);
      ConvertMeaning(key, depots.entries[key], id);
    }
  }

  /** No two numbered entries denote the same depot id (as `"7"` and `"07"` would). */
  predicate NoAliases(depots: Dict<string, DepotInfo>)
  {
    forall i, j :: 0 <= i < j < |depots.keys| && IsDigitString(depots.keys[i]) && IsDigitString(depots.keys[j])
                   ==> DigitsValue(depots.keys[i]) != DigitsValue(depots.keys[j])
  }

  lemma NoAliasesAt(depots: Dict<string, DepotInfo>, i: nat, j: nat)
    requires NoAliases(depots) && i < |depots.keys| && j < |depots.keys| && i != j
    requires IsDigitString(depots.keys[i]) && IsDigitString(depots.keys[j])
    ensures DigitsValue(depots.keys[i]) != DigitsValue(depots.keys[j])
  {
    if j < i {
      assert 0 <= j < i < |depots.keys|;
    }
  }

  /**
   * A `depots` table whose keys `"07"` (shared install) and `"7"` (with a
   * public `gid`) both name depot 7.
   */
  function AliasedDepots(): Dict<string, DepotInfo>
  {
    var shared := DepotInfo(Some("1"), None, None, None);
    var installable := DepotInfo(None, None, Some(PublicManifest(Some("1"), None)), None);
    Dict(["07", "7"], map["07" := shared, "7" := installable])
  }

  /** The two entries of `AliasedDepots` convert to a shared and an installable depot 7. */
  lemma AliasedDepotsOutcomes()
    ensures Valid(AliasedDepots())
    ensures Outcomes(AliasedDepots()) == [AddShared(7, 7), AddInstall(7, DepotDetails("1", 0, None))]
  {
    var d := AliasedDepots();
    AliasedConversions();
    var os := Outcomes(d);
    assert os[0] == Convert("07", d.entries["07"]);
    assert os[1] == Convert("7", d.entries["7"]);
  }

  /** The keys `"07"` and `"7"` both read as 7. */
  lemma AliasedKeysCollide()
    ensures Valid(AliasedDepots()) && !NoAliases(AliasedDepots())
  {
    assert IsDigitString("07") && IsDigitString("7");
    assert "07"[..1] == "0";
    assert DigitsValue("07") == 7 && DigitsValue("7") == 7;
    var d := AliasedDepots();
    assert d.keys[0] == "07" && d.keys[1] == "7";
    assert IsDigitString(d.keys[0]) && IsDigitString(d.keys[1]) && DigitsValue(d.keys[0]) == DigitsValue(d.keys[1]);
  }

  /** The conversions of the two entries of `AliasedDepots`. */
  lemma AliasedConversions()
    ensures Convert("07", DepotInfo(Some("1"), None, None, None)) == AddShared(7, 7)
    ensures Convert("7", DepotInfo(None, None, Some(PublicManifest(Some("1"), None)), None))
            == AddInstall(7, DepotDetails("1", 0, None))
  {
    assert IsDigitString("07") && IsDigitString("7");
    assert "07"[..1] == "0";
    assert DigitsValue("07") == 7 && DigitsValue("7") == 7;
    SmallPyInts();
  }

  /** `int("07") == 7` and `int("0") == 0`. */
  lemma SmallPyInts()
    ensures PyInt("07") == Some(7) && PyInt("0") == Some(0)
  {
    NotSpace('0');
    NotSpace('7');
    assert "07"[..1] == "0";
    assert ParseDigits("0") == Some(0);
    assert ParseDigits("07") == Some(7);
    assert PyInt("07") == ParseInt("07");
    assert PyInt("0") == ParseInt("0");
  }

  /**
   * `NoAliases` is needed: both tables are keyed by `int(depot_id_str)`, so
   * the entries of `AliasedDepots` put depot 7 in both tables.
   */
  lemma AliasedKeysFillBothTables()
    ensures Valid(AliasedDepots()) && !NoAliases(AliasedDepots())
    ensures var s := ScanDepots(NoTables(), Outcomes(AliasedDepots()), 2);
            !s.raised && 7 in s.tables.installed.entries && 7 in s.tables.shared.entries
  {
    AliasedKeysCollide();
    AliasedDepotsOutcomes();
    var os := Outcomes(AliasedDepots());
    assert ScanDepots(NoTables(), os, 0) == Scan(NoTables(), false);
    var s1 := ScanDepots(NoTables(), os, 1);
    assert s1 == Advance(Scan(NoTables(), false), os[0]);
    assert !s1.raised && 7 in s1.tables.shared.entries;
    var s2 := ScanDepots(NoTables(), os, 2);
    assert s2 == Advance(s1, os[1]);
  }

  /** A shared-install depot never appears among the installable ones. */
  lemma SharedNeverInstalled(depots: Dict<string, DepotInfo>)
    requires Valid(depots) && NoAliases(depots)
    requires !ScanDepots(NoTables(), Outcomes(depots), |depots.keys|).raised
    ensures var t := ScanDepots(NoTables(), Outcomes(depots), |depots.keys|).tables;
            forall id :: !(id in t.installed.entries && id in t.shared.entries)
  {
    ScanMembership(depots, |depots.keys|);
    var t := ScanDepots(NoTables(), Outcomes(depots), |depots.keys|).tables;
    forall id | id in t.installed.entries
      ensures id !in t.shared.entries
    {
      var k1 :| 0 <= k1 < |depots.keys| && InstallableAt(depots, k1, id);
      forall k2 | 0 <= k2 < |depots.keys| ensures !SharedAt(depots, k2, id) {
        if k2 != k1 && IsDigitString(depots.keys[k2]) {
          NoAliasesAt(depots, k1, k2);
        }
      }
    }
  }

  lemma {:induction false} SizeSumRemove(ids: seq<int>, i: nat, m: map<int, DepotDetails>)
    requires i < |ids| && forall k :: 0 <= k < |ids| ==> ids[k] in m
    ensures SizeSum(ids, m) == SizeSum(ids[..i] + ids[i + 1..], m) + m[ids[i]].size
    decreases |ids|
  {
    var last := |ids| - 1;
    if i == last {
      assert ids[..i] + ids[i + 1..] == ids[..last];
    } else {
      var pre := ids[..last];
      SizeSumRemove(pre, i, m);
      var rest := pre[..i] + pre[i + 1..];
      assert ids[..i] + ids[i + 1..] == rest + [ids[last]];
      assert (rest + [ids[last]])[..|rest|] == rest;
    }
  }

  /**
   * Taking the last element of `ys` out of both sequences, where it sits at
   * position `i` of `xs`, leaves two sequences with the same elements again.
   */
  lemma RemoveMatching(xs: seq<int>, ys: seq<int>, i: nat, m: map<int, DepotDetails>)
    requires Distinct(xs) && Distinct(ys) && |xs| == |ys| && ys != []
    requires forall x :: x in xs <==> x in ys
    requires i < |xs| && xs[i] == ys[|ys| - 1]
    requires forall k :: 0 <= k < |xs| ==> xs[k] in m
    ensures var xs', ys' := xs[..i] + xs[i + 1..], ys[..|ys| - 1];
            && Distinct(xs') && Distinct(ys') && |xs'| == |ys'|
            && (forall x :: x in xs' <==> x in ys')
            && (forall k :: 0 <= k < |xs'| ==> xs'[k] in m)
            && (forall k :: 0 <= k < |ys'| ==> ys'[k] in m)
  {
    var y, xs', ys' := ys[|ys| - 1], xs[..i] + xs[i + 1..], ys[..|ys| - 1];
    assert forall k :: 0 <= k < |xs'| ==> xs'[k] == (if k < i then xs[k] else xs[k + 1]);
    forall x
      ensures x in xs' <==> x in ys'
    {
      if x in xs' {
        var k :| 0 <= k < |xs'| && xs'[k] == x;
        assert x in xs && x != y;
      }
      if x in ys' {
        var k :| 0 <= k < |ys'| && ys'[k] == x;
        assert x in ys && x != y;
        var j :| 0 <= j < |xs| && xs[j] == x;
        assert j != i;
        assert xs'[if j < i then j else j - 1] == x;
      }
    }
    forall k | 0 <= k < |ys'| ensures ys'[k] in m {
      assert ys'[k] in xs';
    }
  }

  /** The sum of the sizes does not depend on the order the depots are visited in. */
  lemma {:induction false} SizeSumPermutation(xs: seq<int>, ys: seq<int>, m: map<int, DepotDetails>)
    requires Distinct(xs) && Distinct(ys) && |xs| == |ys|
    requires forall x :: x in xs <==> x in ys
    requires forall k :: 0 <= k < |xs| ==> xs[k] in m
    requires forall k :: 0 <= k < |ys| ==> ys[k] in m
    ensures SizeSum(xs, m) == SizeSum(ys, m)
    decreases |ys|
  {
    if ys != [] {
      var y := ys[|ys| - 1];
      assert y in ys;
      var i :| 0 <= i < |xs| && xs[i] == y;
      SizeSumRemove(xs, i, m);
      RemoveMatching(xs, ys, i, m);
      SizeSumPermutation(xs[..i] + xs[i + 1..], ys[..|ys| - 1], m);
    }
  }

  /**
   * `SizeOnDisk`, summed in table order, equals the sum of the `size`
   * values written under `InstalledDepots`, which lists the depots by id.
   */
  lemma SizeOnDiskIsEmittedTotal(installed: Dict<int, DepotDetails>)
    requires Valid(installed)
    ensures SizeOnDisk(installed) == SizeSum(SortAscending(installed.keys), installed.entries)
  {
    var ids := SortAscending(installed.keys);
    forall k | 0 <= k < |ids| ensures ids[k] in installed.entries {
      assert ids[k] in ids;
    }
    forall i, j | 0 <= i < j < |ids| ensures ids[i] != ids[j] {
    }
    SizeSumPermutation(installed.keys, ids, installed.entries);
  }

  /** Whether a descriptor line is a `dlcappid` entry of an installed depot. */
  predicate IsDlcLine(line: string)
  {
    |line| >= 13 && line[..13] == "\t\t\t\"dlcappid\""
  }

  /** A line that differs from the `dlcappid` key within its first 13 characters is not a `dlcappid` line. */
  lemma NotDlcLine(line: string, k: nat)
    requires k < 13 && (|line| < 13 || line[k] != "\t\t\t\"dlcappid\""[k])
    ensures !IsDlcLine(line)
  {
    if |line| >= 13 {
      assert line[..13][k] == line[k];
    }
  }

  /** A depot's block carries a `dlcappid` line exactly when the depot has a DLC app id. */
  lemma DlcLineIffDlc(id: int, d: DepotDetails)
    ensures (exists line :: line in DepotParts(id, d) && IsDlcLine(line)) <==> d.dlcAppId.Some?
  {
    if d.dlcAppId.Some? {
      DlcLinePresent(id, d);
    } else {
      DlcLineAbsent(id, d);
    }
  }

  lemma DlcLinePresent(id: int, d: DepotDetails)
    requires d.dlcAppId.Some?
    ensures DlcLine(d.dlcAppId.value) in DepotParts(id, d) && IsDlcLine(DlcLine(d.dlcAppId.value))
  {
    var line := DlcLine(d.dlcAppId.value);
    assert DepotParts(id, d)[4] == line;
    assert line[..13] == "\t\t\t\"dlcappid\"";
  }

  lemma DlcLineAbsent(id: int, d: DepotDetails)
    requires d.dlcAppId.None?
    ensures forall line :: line in DepotParts(id, d) ==> !IsDlcLine(line)
  {
    var ps := DepotParts(id, d);
    assert |ps| == 5;
    NotDlcLine(ps[0], 2);
    NotDlcLine(ps[1], 0);
    NotDlcLine(ps[2], 4);
    NotDlcLine(ps[3], 4);
    NotDlcLine(ps[4], 0);
  }

  // ---------------------------------------------------------------------
  // The generator
  // ---------------------------------------------------------------------

  class SteamManifestGenerator {
    var appId: int
    var name: string
    var installDir: string
    var buildId: string
    var depots: Dict<int, DepotDetails>
    var sharedDepots: Dict<int, int>

    ghost predicate Valid()
      reads this
    {
      PyDict.Valid(depots) && PyDict.Valid(sharedDepots)
    }

    constructor (appId: int)
      ensures Valid() && this.appId == appId && depots == Empty() && sharedDepots == Empty()
    {
      this.appId := appId;
      name := "";
      installDir := "";
      buildId := "";
      depots := Empty();
      sharedDepots := Empty();
    }

    /** `parse_app_data`, given what `get_product_info` returned. */
    method ParseAppData(appData: Option<AppData>) returns (outcome: ParseOutcome)
      requires Valid()
      requires appData.Some? ==> PyDict.Valid(appData.value.depots)
      modifies this
      ensures Valid() && appId == old(appId)
      ensures appData.None? ==> outcome == NoAppData
      ensures appData.Some? && appData.value.common.None? ==> outcome == NoCommon
      ensures outcome == NoAppData || outcome == NoCommon ==> unchanged(this)
      ensures appData.Some? && appData.value.common.Some? ==>
                var data := appData.value;
                var scan := ScanDepots(Tables(old(depots), old(sharedDepots)), Outcomes(data.depots), |data.depots.keys|);
                && name == (if data.common.value.Some? then data.common.value.value else "Unknown App " + IntToString(appId))
                && installDir == (if data.installDir.Some? then data.installDir.value else SanitizeFilename(name))
                && buildId == (if data.publicBuildId.Some? then data.publicBuildId.value else "0")
                && Tables(depots, sharedDepots) == scan.tables
                && (outcome == Raised <==> scan.raised)
                && (outcome == Parsed <==> !scan.raised)
    {
      if appData.None? {
        return NoAppData;
      }
      var data := appData.value;
      if data.common.None? {
        return NoCommon;
      }
      name := if data.common.value.Some? then data.common.value.value else "Unknown App " + IntToString(appId);
      installDir := if data.installDir.Some? then data.installDir.value else SanitizeFilename(name);
      buildId := if data.publicBuildId.Some? then data.publicBuildId.value else "0";
      var raised := ClassifyDepots(data.depots);
      outcome := if raised then Raised else Parsed;
    }

    /**
     * The loop of `parse_app_data` over the `depots` entries. The entries'
     * conversions are pure, so they are evaluated first; the loop then stops
     * at the first one that raised, as the source does. The tables are carried
     * in a local and stored once the loop ends, also when an `int(...)`
     * raised, so the fields end up as the source leaves them.
     */
    method ClassifyDepots(depotsData: Dict<string, DepotInfo>) returns (raised: bool)
      requires Valid() && PyDict.Valid(depotsData)
      modifies this
      ensures Valid()
      ensures appId == old(appId) && name == old(name) && installDir == old(installDir) && buildId == old(buildId)
      ensures Scan(Tables(depots, sharedDepots), raised) == ScanDepots(Tables(old(depots), old(sharedDepots)), Outcomes(depotsData), |depotsData.keys|)
    {
      var t;
      t, raised := ScanEntries(Tables(depots, sharedDepots), Outcomes(depotsData));
      depots, sharedDepots := t.installed, t.shared;
    }

    /** `generate_acf_content`. */
    method GenerateAcfContent() returns (content: string)
      requires Valid()
      ensures content == Join(AcfParts(appId, name, installDir, buildId, Tables(depots, sharedDepots)))
    {
      var sizeOnDisk := SizeOnDisk(depots);
      var contentParts := AppendKvLines(["\"AppState\"\n", "{\n"], MainKv(appId, name, installDir, buildId, sizeOnDisk));
      contentParts := AppendInstalledDepots(contentParts, depots);
      contentParts := AppendSharedDepots(contentParts, sharedDepots);
      contentParts := contentParts + ["}\n"];
      content := Join(contentParts);
    }
  }

  /** Lines 100-117: the entries' outcomes, applied in table order until one raises. */
  method ScanEntries(t0: Tables, os: seq<Outcome>) returns (t: Tables, raised: bool)
    requires Valid(t0.installed) && Valid(t0.shared)
    ensures Valid(t.installed) && Valid(t.shared)
    ensures Scan(t, raised) == ScanDepots(t0, os, |os|)
  {
    t, raised := t0, false;
    var i := 0;
    while i < |os|
      invariant i <= |os| && Valid(t.installed) && Valid(t.shared)
      invariant ScanDepots(t0, os, i) == Scan(t, false)
    {
      var step := Apply(t, os[i]);
      if step.None? {
        RaisedSticks(t0, os, i + 1, |os|);
        return t, true;
      }
      t := step.value;
      i := i + 1;
    }
  }

  /** The top-level loop of `generate_acf_content`: one line per key, in order. */
  method AppendKvLines(parts: seq<string>, kv: seq<(string, string)>) returns (contentParts: seq<string>)
    ensures contentParts == parts + KvLines(kv)
  {
    contentParts := parts;
    for i := 0 to |kv|
      invariant contentParts == parts + KvLines(kv[..i])
    {
      assert KvLines(kv[..i + 1]) == KvLines(kv[..i]) + [KvLine(kv[i].0, kv[i].1)];
      contentParts := contentParts + [KvLine(kv[i].0, kv[i].1)];
    }
    assert kv[..|kv|] == kv;
  }

  /** The `InstalledDepots` loop of `generate_acf_content`. */
  method AppendInstalledDepots(parts: seq<string>, installed: Dict<int, DepotDetails>) returns (contentParts: seq<string>)
    requires Valid(installed)
    ensures contentParts == parts + InstalledSection(installed)
  {
    contentParts := parts + ["\t\"InstalledDepots\"\n", "\t{\n"];
    ghost var beforeInstalled := contentParts;
    var ids := SortAscending(installed.keys);
    for i := 0 to |ids|
      invariant contentParts == beforeInstalled + InstalledParts(ids[..i], installed.entries)
    {
      InstalledPartsSnoc(beforeInstalled, ids, i, installed.entries);
      var details := installed.entries[ids[i]];
      contentParts := AppendDepotBlock(contentParts, ids[i], details);
    }
    assert ids[..|ids|] == ids;
    contentParts := contentParts + ["\t}\n"];
    ghost var header := ["\t\"InstalledDepots\"\n", "\t{\n"];
    AppendAssoc(parts, header, InstalledParts(ids, installed.entries));
    AppendAssoc(parts, header + InstalledParts(ids, installed.entries), ["\t}\n"]);
  }

  /** One depot's block inside the `InstalledDepots` loop. */
  method AppendDepotBlock(parts: seq<string>, id: int, details: DepotDetails) returns (contentParts: seq<string>)
    ensures contentParts == parts + DepotParts(id, details)
  {
    var opening := ["\t\t\"" + IntToString(id) + "\"\n", "\t\t{\n",
                    "\t\t\t\"manifest\"\t\t\"" + details.manifest + "\"\n",
                    "\t\t\t\"size\"\t\t\"" + IntToString(details.size) + "\"\n"];
    contentParts := parts + opening;
    if details.dlcAppId.Some? {
      contentParts := contentParts + [DlcLine(details.dlcAppId.value)];
      AppendAssoc(parts, opening, [DlcLine(details.dlcAppId.value)]);
    } else {
      assert opening == opening + [];
    }
    ghost var beforeClose := contentParts;
    contentParts := contentParts + ["\t\t}\n"];
    AppendAssoc(parts, beforeClose[|parts|..], ["\t\t}\n"]);
  }

  /** The `SharedDepots` loop of `generate_acf_content`. */
  method AppendSharedDepots(parts: seq<string>, shared: Dict<int, int>) returns (contentParts: seq<string>)
    requires Valid(shared)
    ensures contentParts == parts + SharedSection(shared)
  {
    contentParts := parts + ["\t\"SharedDepots\"\n", "\t{\n"];
    ghost var beforeShared := contentParts;
    var sharedIds := SortAscending(shared.keys);
    for i := 0 to |sharedIds|
      invariant contentParts == beforeShared + SharedParts(sharedIds[..i], shared.entries)
    {
      SharedPartsSnoc(beforeShared, sharedIds, i, shared.entries);
      contentParts := contentParts + [SharedLine(sharedIds[i], shared.entries[sharedIds[i]])];
    }
    assert sharedIds[..|sharedIds|] == sharedIds;
    contentParts := contentParts + ["\t}\n"];
    ghost var header := ["\t\"SharedDepots\"\n", "\t{\n"];
    AppendAssoc(parts, header, SharedParts(sharedIds, shared.entries));
    AppendAssoc(parts, header + SharedParts(sharedIds, shared.entries), ["\t}\n"]);
  }
}
