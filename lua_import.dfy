// Turning a LUA depot script and the manifest files beside it into a queue
// (`convert_lua_workflow`): two directive patterns are searched for on each
// line and folded into an insertion-ordered depot table, then every depot
// with a key, a manifest id and a readable `{depot}_{manifest}.manifest`
// file becomes a depot record.
module LuaImport {
  import opened Base
  import opened PyDict
  import opened TextCodec
  import opened Sanitize
  import opened SfdCodec

  // ---------------------------------------------------------------------
  // The two patterns
  // ---------------------------------------------------------------------

  predicate IsHexChar(c: char)
  {
    ('0' <= c <= '9') || ('a' <= c <= 'f') || ('A' <= c <= 'F')
  }

  predicate AllDigits(s: string)
  {
    forall i :: 0 <= i < |s| ==> IsDigit(s[i])
  }

  predicate AllHex(s: string)
  {
    forall i :: 0 <= i < |s| ==> IsHexChar(s[i])
  }

  /** `\s*`: what is left after the leading whitespace. */
  function SkipSpace(s: string): (r: string)
    ensures |r| <= |s| && r == s[|s| - |r|..]
    ensures r == [] || !IsSpace(r[0])
  {
    if s != [] && IsSpace(s[0]) then SkipSpace(s[1..]) else s
  }

  /**
   * Length of the leading run of ASCII decimal digits (`\d+` is greedy and
   * nothing after it is a digit). Python's `\d` also matches non-ASCII
   * decimal digits, which this model treats as non-digits.
   */
  function DigitRun(s: string): (n: nat)
    ensures n <= |s| && AllDigits(s[..n])
    ensures n < |s| ==> !IsDigit(s[n])
  {
    if s != [] && IsDigit(s[0]) then 1 + DigitRun(s[1..]) else 0
  }

  /** Length of the leading run of `[a-fA-F0-9]`. */
  function HexRun(s: string): (n: nat)
    ensures n <= |s| && AllHex(s[..n])
    ensures n < |s| ==> !IsHexChar(s[n])
  {
    if s != [] && IsHexChar(s[0]) then 1 + HexRun(s[1..]) else 0
  }

  /** `s` starts with the literal `p`. */
  predicate StartsWith(s: string, p: string)
  {
    |p| <= |s| && s[..|p|] == p
  }

  /** `\s*(\d+)\s*` followed by `sep`: the digits and what follows `sep`. */
  function DigitsThen(s: string, sep: char): (r: Option<(string, string)>)
    ensures r.Some? ==> r.value.0 != [] && AllDigits(r.value.0)
  {
    var s1 := SkipSpace(s);
    var n := DigitRun(s1);
    var s2 := SkipSpace(s1[n..]);
    if n == 0 || s2 == [] || s2[0] != sep then None else Some((s1[..n], s2[1..]))
  }

  /** `\s*"([a-fA-F0-9]+)"`: the quoted hex digits and what follows the closing quote. */
  function QuotedHex(s: string): (r: Option<(string, string)>)
    ensures r.Some? ==> r.value.0 != [] && AllHex(r.value.0)
  {
    var s1 := SkipSpace(s);
    if s1 == [] || s1[0] != '"' then None
    else
      var n := HexRun(s1[1..]);
      var rest := s1[1..][n..];
      if n == 0 || rest == [] || rest[0] != '"' then None else Some((s1[1..][..n], rest[1..]))
  }

  /** `\s*"(\d+)"`: the quoted digits and what follows the closing quote. */
  function QuotedDigits(s: string): (r: Option<(string, string)>)
    ensures r.Some? ==> r.value.0 != [] && AllDigits(r.value.0)
  {
    var s1 := SkipSpace(s);
    if s1 == [] || s1[0] != '"' then None
    else
      var n := DigitRun(s1[1..]);
      var rest := s1[1..][n..];
      if n == 0 || rest == [] || rest[0] != '"' then None else Some((s1[1..][..n], rest[1..]))
  }

  /** `addappid\(\s*(\d+)\s*,\s*\d+\s*,\s*"([a-fA-F0-9]+)"\)` matched at the start of `s`: the two groups. */
  function MatchAddAppId(s: string): (r: Option<(string, string)>)
    ensures r.Some? ==> r.value.0 != [] && AllDigits(r.value.0) && r.value.1 != [] && AllHex(r.value.1)
  {
    if !StartsWith(s, "addappid(") then None
    else
      var depot := DigitsThen(s[9..], ',');
      if depot.None? then None
      else
        var flag := DigitsThen(depot.value.1, ',');
        if flag.None? then None
        else
          var key := QuotedHex(flag.value.1);
          if key.None? || key.value.1 == [] || key.value.1[0] != ')' then None
          else Some((depot.value.0, key.value.0))
  }

  /** `setManifestid\(\s*(\d+)\s*,\s*"(\d+)"` matched at the start of `s`: the two groups. */
  function MatchSetManifestId(s: string): (r: Option<(string, string)>)
    ensures r.Some? ==> r.value.0 != [] && AllDigits(r.value.0) && r.value.1 != [] && AllDigits(r.value.1)
  {
    if !StartsWith(s, "setManifestid(") then None
    else
      var depot := DigitsThen(s[14..], ',');
      if depot.None? then None
      else
        var manifestId := QuotedDigits(depot.value.1);
        if manifestId.None? then None
        else Some((depot.value.0, manifestId.value.0))
  }

  /** `pattern.search(line)` for the first pattern: the leftmost match. */
  function SearchAddAppId(line: string): (r: Option<(string, string)>)
    ensures r.Some? ==> r.value.0 != [] && AllDigits(r.value.0) && r.value.1 != [] && AllHex(r.value.1)
  {
    if MatchAddAppId(line).Some? || line == [] then MatchAddAppId(line)
    else SearchAddAppId(line[1..])
  }

  /** `pattern.search(line)` for the second pattern: the leftmost match. */
  function SearchSetManifestId(line: string): (r: Option<(string, string)>)
    ensures r.Some? ==> r.value.0 != [] && AllDigits(r.value.0) && r.value.1 != [] && AllDigits(r.value.1)
  {
    if MatchSetManifestId(line).Some? || line == [] then MatchSetManifestId(line)
    else SearchSetManifestId(line[1..])
  }

  /** What a line of the script says, the `addappid` pattern taking precedence. */
  datatype LuaLine = AddAppId(depot: int, key: string) | SetManifest(depot: int, manifestId: string) | Other

  function Classify(line: string): (l: LuaLine)
    ensures l.AddAppId? ==> l.key != [] && AllHex(l.key)
    ensures l.SetManifest? ==> l.manifestId != [] && AllDigits(l.manifestId)
  {
    match SearchAddAppId(line)
    case Some((depot, key)) => AddAppId(DigitsValue(depot), key)
    case None =>
      match SearchSetManifestId(line)
      case Some((depot, manifestId)) => SetManifest(DigitsValue(depot), manifestId)
      case None => Other
  }

  lemma DigitNotSpace(c: char)
    requires IsDigit(c) || IsHexChar(c)
    ensures !IsSpace(c)
  {
    NotSpace(c);
  }

  lemma {:induction false} DigitRunOf(digits: string, rest: string)
    requires AllDigits(digits)
    requires rest == [] || !IsDigit(rest[0])
    ensures DigitRun(digits + rest) == |digits|
    ensures (digits + rest)[..|digits|] == digits && (digits + rest)[|digits|..] == rest
  {
    if digits != [] {
      assert (digits + rest)[1..] == digits[1..] + rest;
      DigitRunOf(digits[1..], rest);
    }
  }

  lemma {:induction false} HexRunOf(hex: string, rest: string)
    requires AllHex(hex)
    requires rest == [] || !IsHexChar(rest[0])
    ensures HexRun(hex + rest) == |hex|
    ensures (hex + rest)[..|hex|] == hex && (hex + rest)[|hex|..] == rest
  {
    if hex != [] {
      assert (hex + rest)[1..] == hex[1..] + rest;
      HexRunOf(hex[1..], rest);
    }
  }

  lemma DigitsThenOf(digits: string, sep: char, rest: string)
    requires digits != [] && AllDigits(digits)
    requires !IsDigit(sep) && !IsSpace(sep)
    ensures DigitsThen(digits + ([sep] + rest), sep) == Some((digits, rest))
  {
    var s := digits + ([sep] + rest);
    DigitNotSpace(digits[0]);
    assert SkipSpace(s) == s;
    DigitRunOf(digits, [sep] + rest);
    assert SkipSpace([sep] + rest) == [sep] + rest;
  }

  lemma QuotedHexOf(hex: string, rest: string)
    requires hex != [] && AllHex(hex)
    ensures QuotedHex("\"" + (hex + ("\"" + rest))) == Some((hex, rest))
  {
    var s := "\"" + (hex + ("\"" + rest));
    NotSpace('"');
    assert s[1..] == hex + ("\"" + rest);
    HexRunOf(hex, "\"" + rest);
  }

  lemma LiteralPrefix(p: string, rest: string)
    ensures StartsWith(p + rest, p) && (p + rest)[|p|..] == rest
  {
  }

  /** `addappid(<depot>,<flag>,"<key>")` as a LUA script writes it, then the rest of the line. */
  function AddAppIdLine(depot: nat, flag: nat, key: string, trailing: string): string
  {
    "addappid(" + (NatToString(depot) + ([','] + (NatToString(flag) + ([','] + ("\"" + (key + ("\"" + (")" + trailing))))))))
  }

  lemma MatchAddAppIdLine(depot: nat, flag: nat, key: string, trailing: string)
    requires key != [] && AllHex(key)
    ensures MatchAddAppId(AddAppIdLine(depot, flag, key, trailing)) == Some((NatToString(depot), key))
  {
    var d, f := NatToString(depot), NatToString(flag);
    var tail2 := "\"" + (key + ("\"" + (")" + trailing)));
    var tail1 := f + ([','] + tail2);
    LiteralPrefix("addappid(", d + ([','] + tail1));
    NotSpace(',');
    DigitsThenOf(d, ',', tail1);
    DigitsThenOf(f, ',', tail2);
    QuotedHexOf(key, ")" + trailing);
  }

  /** The canonical `addappid` line is recognised, whatever follows it on the line. */
  lemma AddAppIdLineRecognised(depot: nat, flag: nat, key: string, trailing: string)
    requires key != [] && AllHex(key)
    ensures Classify(AddAppIdLine(depot, flag, key, trailing)) == AddAppId(depot, key)
  {
    MatchAddAppIdLine(depot, flag, key, trailing);
    NatDigitsValue(depot);
  }

  lemma QuotedDigitsOf(digits: string, rest: string)
    requires digits != [] && AllDigits(digits)
    ensures QuotedDigits("\"" + (digits + ("\"" + rest))) == Some((digits, rest))
  {
    var s := "\"" + (digits + ("\"" + rest));
    NotSpace('"');
    assert s[1..] == digits + ("\"" + rest);
    DigitRunOf(digits, "\"" + rest);
  }

  /** `setManifestid(<depot>,"<manifest id>"` as a LUA script writes it, then the rest of the line. */
  function SetManifestIdLine(depot: nat, manifestId: string, trailing: string): string
  {
    "setManifestid(" + (NatToString(depot) + ([','] + ("\"" + (manifestId + ("\"" + trailing)))))
  }

  /**
   * The canonical `setManifestid` line is recognised, whatever follows it,
   * unless the line also holds an `addappid` directive, which takes precedence.
   */
  lemma SetManifestIdLineRecognised(depot: nat, manifestId: string, trailing: string)
    requires manifestId != [] && AllDigits(manifestId)
    requires SearchAddAppId(SetManifestIdLine(depot, manifestId, trailing)).None?
    ensures Classify(SetManifestIdLine(depot, manifestId, trailing)) == SetManifest(depot, manifestId)
  {
    var d := NatToString(depot);
    var tail := "\"" + (manifestId + ("\"" + trailing));
    LiteralPrefix("setManifestid(", d + ([','] + tail));
    NotSpace(',');
    DigitsThenOf(d, ',', tail);
    QuotedDigitsOf(manifestId, trailing);
    assert MatchSetManifestId(SetManifestIdLine(depot, manifestId, trailing)) == Some((d, manifestId));
    NatDigitsValue(depot);
  }

  // ---------------------------------------------------------------------
  // The depot table
  // ---------------------------------------------------------------------

  /** `parsed_depots[depot_id]`: the key and, once set, the manifest id text. */
  datatype LuaDepot = LuaDepot(key: string, manifestId: Option<string>)

  /** One line applied to the table (lines 422-430). */
  function Step(parsed: Dict<int, LuaDepot>, l: LuaLine): (r: Dict<int, LuaDepot>)
    requires Valid(parsed)
    ensures Valid(r)
  {
    match l
    case AddAppId(depot, key) => Put(parsed, depot, LuaDepot(key, None))
    case SetManifest(depot, manifestId) =>
      if depot in parsed.entries then Put(parsed, depot, parsed.entries[depot].(manifestId := Some(manifestId)))
      else parsed
    case Other => parsed
  }

  /** The table after the classified lines, read in order. */
  function Fold(ls: seq<LuaLine>): (r: Dict<int, LuaDepot>)
    ensures Valid(r)
  {
    if ls == [] then Empty()
    else Step(Fold(ls[..|ls| - 1]), ls[|ls| - 1])
  }

  function ClassifyAll(lines: seq<string>): (ls: seq<LuaLine>)
    ensures |ls| == |lines| && forall i :: 0 <= i < |lines| ==> ls[i] == Classify(lines[i])
  {
    seq(|lines|, i requires 0 <= i < |lines| => Classify(lines[i]))
  }

  /** `parsed_depots` after reading every line of the script. */
  function ParseLines(lines: seq<string>): Dict<int, LuaDepot>
  {
    Fold(ClassifyAll(lines))
  }

  lemma FoldSnoc(ls: seq<LuaLine>, i: nat)
    requires i < |ls|
    ensures Fold(ls[..i + 1]) == Step(Fold(ls[..i]), ls[i])
  {
    assert ls[..i + 1][..i] == ls[..i];
  }

  /** Lines 417-430: each line of the script folded into the table. */
  method ParseLua(lines: seq<string>) returns (parsedDepots: Dict<int, LuaDepot>)
    ensures parsedDepots == ParseLines(lines)
  {
    ghost var ls := ClassifyAll(lines);
    parsedDepots := Empty();
    for i := 0 to |lines|
      invariant parsedDepots == Fold(ls[..i])
    {
      FoldSnoc(ls, i);
      parsedDepots := Step(parsedDepots, Classify(lines[i]));
    }
    TakeAll(ls);
  }

  /** The line names depot `x`. */
  predicate Mentions(l: LuaLine, x: int)
  {
    (l.AddAppId? || l.SetManifest?) && l.depot == x
  }

  /** Lines from `n` on that never name `x` leave its entry (or its absence) as it was. */
  lemma {:induction false} UnrelatedLinesKeepEntry(ls: seq<LuaLine>, n: nat, x: int)
    requires n <= |ls|
    requires forall j :: n <= j < |ls| ==> !Mentions(ls[j], x)
    ensures x in Fold(ls).entries <==> x in Fold(ls[..n]).entries
    ensures x in Fold(ls).entries ==> Fold(ls).entries[x] == Fold(ls[..n]).entries[x]
    decreases |ls|
  {
    if |ls| > n {
      var pre := ls[..|ls| - 1];
      assert pre[..n] == ls[..n];
      UnrelatedLinesKeepEntry(pre, n, x);
    } else {
      assert ls[..n] == ls;
    }
  }

  /** Some line before position `n` is an `addappid` line for `x`. */
  predicate AddedBefore(ls: seq<LuaLine>, n: nat, x: int)
    requires n <= |ls|
  {
    exists i :: 0 <= i < n && ls[i].AddAppId? && ls[i].depot == x
  }

  /** A depot is in the table exactly when some `addappid` line names it. */
  lemma {:induction false} InTableIffAdded(ls: seq<LuaLine>, x: int)
    ensures x in Fold(ls).entries <==> AddedBefore(ls, |ls|, x)
  {
    if ls != [] {
      var n := |ls| - 1;
      var pre := ls[..n];
      InTableIffAdded(pre, x);
      assert AddedBefore(pre, n, x) ==> AddedBefore(ls, n, x);
      assert AddedBefore(ls, n, x) ==> AddedBefore(pre, n, x);
      if AddedBefore(ls, |ls|, x) && !(ls[n].AddAppId? && ls[n].depot == x) {
        assert AddedBefore(ls, n, x);
      }
    }
  }

  /** The depots of the `addappid` lines, each once, in the order they were first added. */
  function FirstAdded(ls: seq<LuaLine>): seq<int>
  {
    if ls == [] then []
    else
      var n := |ls| - 1;
      FirstAdded(ls[..n]) + (if ls[n].AddAppId? && !AddedBefore(ls, n, ls[n].depot) then [ls[n].depot] else [])
  }

  /** The table lists its depots in the order their first `addappid` line appears. */
  lemma {:induction false} TableOrderIsFirstAdded(ls: seq<LuaLine>)
    ensures Fold(ls).keys == FirstAdded(ls)
  {
    if ls != [] {
      var n := |ls| - 1;
      var pre := ls[..n];
      TableOrderIsFirstAdded(pre);
      if ls[n].AddAppId? || ls[n].SetManifest? {
        var x := ls[n].depot;
        InTableIffAdded(pre, x);
        assert AddedBefore(pre, n, x) <==> AddedBefore(ls, n, x) by {
          assert forall i :: 0 <= i < n ==> pre[i] == ls[i];
        }
      }
    }
  }

  /**
   * An `addappid` line starts the depot afresh: whatever manifest id was set
   * before is gone, and if no later line names the depot, the table holds
   * that line's key and no manifest id.
   */
  lemma AddDiscardsManifestId(ls: seq<LuaLine>, i: nat, x: int, key: string)
    requires i < |ls| && ls[i] == AddAppId(x, key)
    requires forall j :: i < j < |ls| ==> !Mentions(ls[j], x)
    ensures x in Fold(ls).entries && Fold(ls).entries[x] == LuaDepot(key, None)
  {
    UnrelatedLinesKeepEntry(ls, i + 1, x);
    FoldSnoc(ls, i);
  }

  /**
   * A `setManifestid` line after the depot's `addappid` line records its
   * manifest id, which stays if no later line names the depot.
   */
  lemma SetAfterAddRecorded(ls: seq<LuaLine>, i: nat, j: nat, x: int, key: string, manifestId: string)
    requires i < j < |ls|
    requires ls[i] == AddAppId(x, key) && ls[j] == SetManifest(x, manifestId)
    requires forall k :: i < k < |ls| && k != j ==> !Mentions(ls[k], x)
    ensures x in Fold(ls).entries && Fold(ls).entries[x] == LuaDepot(key, Some(manifestId))
  {
    var upToSet := ls[..j];
    assert forall k :: i < k < |upToSet| ==> upToSet[k] == ls[k];
    AddDiscardsManifestId(upToSet, i, x, key);
    FoldSnoc(ls, j);
    UnrelatedLinesKeepEntry(ls, j + 1, x);
  }

  /** A `setManifestid` line for a depot no earlier `addappid` line named changes nothing. */
  lemma SetBeforeAddIgnored(ls: seq<LuaLine>, j: nat, x: int, manifestId: string)
    requires j < |ls| && ls[j] == SetManifest(x, manifestId)
    requires !AddedBefore(ls, j, x)
    ensures Fold(ls[..j + 1]) == Fold(ls[..j])
  {
    InTableIffAdded(ls[..j], x);
    FoldSnoc(ls, j);
  }

  // ---------------------------------------------------------------------
  // Collecting the depot records
  // ---------------------------------------------------------------------

  /** `f"{depot_id}_{data['manifest_id']}.manifest"`. */
  function ManifestFileName(depot: int, manifestId: string): string
  {
    IntToString(depot) + "_" + manifestId + ".manifest"
  }

  /**
   * Lines 439-452 for one depot, given the readable files beside the script:
   * no manifest id, no file, or a key `bytes.fromhex` rejects (an odd digit
   * count) means no record.
   */
  function CollectOne(depot: int, e: LuaDepot, dir: map<string, Bytes>): (r: Option<DepotRecord>)
    ensures r.Some? ==> r.value.depotId == depot && e.manifestId.Some?
                        && ManifestFileName(depot, e.manifestId.value) in dir
                        && r.value.manifestContent == dir[ManifestFileName(depot, e.manifestId.value)]
                        && FromHex(e.key) == Some(r.value.depotKey)
                        && ParseInt(e.manifestId.value) == Some(r.value.manifestId)
  {
    match e.manifestId
    case None => None
    case Some(manifestId) =>
      var name := ManifestFileName(depot, manifestId);
      if name !in dir then None
      else
        match (ParseInt(manifestId), FromHex(e.key))
        case (Some(m), Some(key)) => Some(DepotRecord(depot, m, key, dir[name]))
        case _ => None
  }

  /** The records of `keys`, in that order. */
  function CollectKeys(keys: seq<int>, entries: map<int, LuaDepot>, dir: map<string, Bytes>): seq<DepotRecord>
    requires forall k :: k in keys ==> k in entries
  {
    if keys == [] then []
    else
      var pre := keys[..|keys| - 1];
      var k := keys[|keys| - 1];
      CollectKeys(pre, entries, dir)
      + match CollectOne(k, entries[k], dir) { case None => [] case Some(r) => [r] }
  }

  function Collect(parsed: Dict<int, LuaDepot>, dir: map<string, Bytes>): seq<DepotRecord>
    requires Valid(parsed)
  {
    CollectKeys(parsed.keys, parsed.entries, dir)
  }

  /** Lines 437-452: the depots of the table, in table order, that yield a record. */
  method CollectDepots(parsedDepots: Dict<int, LuaDepot>, dir: map<string, Bytes>)
    returns (collectedDepots: seq<DepotRecord>)
    requires Valid(parsedDepots)
    ensures collectedDepots == Collect(parsedDepots, dir)
  {
    var keys := parsedDepots.keys;
    collectedDepots := [];
    for i := 0 to |keys|
      invariant collectedDepots == CollectKeys(keys[..i], parsedDepots.entries, dir)
    {
      CollectKeysSnoc(keys, i, parsedDepots.entries, dir);
      var depot := keys[i];
      var r := CollectOne(depot, parsedDepots.entries[depot], dir);
      if r.Some? {
        collectedDepots := collectedDepots + [r.value];
      }
    }
    TakeAll(keys);
  }

  lemma CollectKeysSnoc(keys: seq<int>, i: nat, entries: map<int, LuaDepot>, dir: map<string, Bytes>)
    requires i < |keys| && forall k :: k in keys ==> k in entries
    ensures forall k :: k in keys[..i] ==> k in entries
    ensures CollectKeys(keys[..i + 1], entries, dir)
            == CollectKeys(keys[..i], entries, dir)
               + match CollectOne(keys[i], entries[keys[i]], dir) { case None => [] case Some(r) => [r] }
  {
    assert keys[..i + 1][..i] == keys[..i];
  }

  function DepotIds(ds: seq<DepotRecord>): (ids: seq<int>)
    ensures |ids| == |ds| && forall i :: 0 <= i < |ds| ==> ids[i] == ds[i].depotId
  {
    seq(|ds|, i requires 0 <= i < |ds| => ds[i].depotId)
  }

  /** `a` is `b` with some elements left out, the rest in order. */
  predicate IsSubsequence(a: seq<int>, b: seq<int>)
  {
    if a == [] then true
    else if b == [] then false
    else if a[|a| - 1] == b[|b| - 1] then IsSubsequence(a[..|a| - 1], b[..|b| - 1])
    else IsSubsequence(a, b[..|b| - 1])
  }

  /**
   * The records are exactly the table's depots that have a manifest id, a
   * readable manifest file and a well-formed key, each built from its file,
   * in table order.
   */
  lemma CollectKeysMeaning(keys: seq<int>, entries: map<int, LuaDepot>, dir: map<string, Bytes>)
    requires forall k :: k in keys ==> k in entries
    ensures IsSubsequence(DepotIds(CollectKeys(keys, entries, dir)), keys)
    ensures forall r :: r in CollectKeys(keys, entries, dir) ==> r.depotId in keys && CollectOne(r.depotId, entries[r.depotId], dir) == Some(r)
    ensures forall k :: k in keys && CollectOne(k, entries[k], dir).Some? ==> CollectOne(k, entries[k], dir).value in CollectKeys(keys, entries, dir)
  {
    CollectKeysInOrder(keys, entries, dir);
    CollectKeysSound(keys, entries, dir);
    CollectKeysComplete(keys, entries, dir);
  }

  lemma {:induction false} CollectKeysInOrder(keys: seq<int>, entries: map<int, LuaDepot>, dir: map<string, Bytes>)
    requires forall k :: k in keys ==> k in entries
    ensures IsSubsequence(DepotIds(CollectKeys(keys, entries, dir)), keys)
  {
    if keys != [] {
      var pre, k := keys[..|keys| - 1], keys[|keys| - 1];
      assert forall x :: x in pre ==> x in keys;
      CollectKeysInOrder(pre, entries, dir);
      var extra := match CollectOne(k, entries[k], dir) { case None => [] case Some(r) => [r] };
      SubsequenceSnoc(CollectKeys(pre, entries, dir), keys, extra);
    }
  }

  /** Appending the last key's record, or nothing, keeps the ids a subsequence of the keys. */
  lemma SubsequenceSnoc(before: seq<DepotRecord>, keys: seq<int>, extra: seq<DepotRecord>)
    requires keys != [] && IsSubsequence(DepotIds(before), keys[..|keys| - 1])
    requires extra == [] || (|extra| == 1 && extra[0].depotId == keys[|keys| - 1])
    ensures IsSubsequence(DepotIds(before + extra), keys)
  {
    if extra == [] {
      assert before + extra == before;
      NotLastSubsequence(DepotIds(before), keys);
    } else {
      var ids := DepotIds(before + extra);
      assert ids[..|ids| - 1] == DepotIds(before);
    }
  }

  lemma {:induction false} CollectKeysSound(keys: seq<int>, entries: map<int, LuaDepot>, dir: map<string, Bytes>)
    requires forall k :: k in keys ==> k in entries
    ensures forall r :: r in CollectKeys(keys, entries, dir) ==> r.depotId in keys && CollectOne(r.depotId, entries[r.depotId], dir) == Some(r)
  {
    if keys != [] {
      var pre, k := keys[..|keys| - 1], keys[|keys| - 1];
      assert forall x :: x in pre ==> x in keys;
      CollectKeysSound(pre, entries, dir);
    }
  }

  lemma {:induction false} CollectKeysComplete(keys: seq<int>, entries: map<int, LuaDepot>, dir: map<string, Bytes>)
    requires forall k :: k in keys ==> k in entries
    ensures forall k :: k in keys && CollectOne(k, entries[k], dir).Some? ==> CollectOne(k, entries[k], dir).value in CollectKeys(keys, entries, dir)
  {
    if keys != [] {
      var pre, k := keys[..|keys| - 1], keys[|keys| - 1];
      assert forall x :: x in pre ==> x in keys;
      CollectKeysComplete(pre, entries, dir);
      forall x | x in keys ensures x in pre || x == k {
        var i :| 0 <= i < |keys| && keys[i] == x;
        if i < |keys| - 1 {
          assert pre[i] == x;
        }
      }
    }
  }

  lemma NotLastSubsequence(a: seq<int>, b: seq<int>)
    requires b != [] && IsSubsequence(a, b[..|b| - 1])
    ensures IsSubsequence(a, b)
  {
    if a != [] && a[|a| - 1] == b[|b| - 1] {
      SubsequenceDropLast(a, b[..|b| - 1]);
    }
  }

  lemma {:induction false} SubsequenceDropLast(a: seq<int>, b: seq<int>)
    requires a != [] && IsSubsequence(a, b)
    ensures IsSubsequence(a[..|a| - 1], b)
  {
    if b != [] {
      if a[|a| - 1] == b[|b| - 1] {
        NotLastSubsequence(a[..|a| - 1], b);
      } else {
        SubsequenceDropLast(a, b[..|b| - 1]);
        NotLastSubsequence(a[..|a| - 1], b);
      }
    }
  }

  // ---------------------------------------------------------------------
  // The conversion
  // ---------------------------------------------------------------------

  /** How a conversion ends: nothing parsed, nothing collected, or a queue file written. */
  datatype Conversion =
    | NoDepotsParsed
    | ConversionFailed
    | Converted(fileName: string, text: string, collected: seq<DepotRecord>)

  /** `f"{sanitized game name}_converted.sfd"`: never holds a forbidden character. */
  function ConvertedFileName(gameName: string): (name: string)
    ensures forall i :: 0 <= i < |name| ==> !Forbidden(name[i])
  {
    var clean := SanitizeFilename(gameName);
    assert forall i :: |clean| <= i < |clean + "_converted.sfd"| ==> (clean + "_converted.sfd")[i] in "_converted.sfd";
    clean + "_converted.sfd"
  }

  /** Lines 416-457, after the app id and the game name are known. */
  function ConvertLua(lines: seq<string>, appId: int, gameName: string, dir: map<string, Bytes>, c: PayloadCodec): Conversion
  {
    var parsed := ParseLines(lines);
    if parsed.keys == [] then NoDepotsParsed
    else
      var collected := Collect(parsed, dir);
      if collected == [] then ConversionFailed
      else Converted(ConvertedFileName(gameName), SfdText(appId, collected, c), collected)
  }

  /** A conversion writes a queue file that loads back as the app id and the collected records. */
  lemma ConversionLoadsBack(lines: seq<string>, appId: int, gameName: string, dir: map<string, Bytes>, c: PayloadCodec)
    requires RoundTrips(c)
    requires ConvertLua(lines, appId, gameName, dir, c).Converted?
    ensures var conv := ConvertLua(lines, appId, gameName, dir, c);
            ParseSfd(conv.text, c) == Loaded(appId, conv.collected) && conv.collected != []
  {
    var conv := ConvertLua(lines, appId, gameName, dir, c);
    var collected := conv.collected;
    assert conv.text == SfdText(appId, collected, c);
    SfdRoundTrip(appId, collected, c, "");
    assert SfdText(appId, collected, c) + "" == SfdText(appId, collected, c);
  }
}
