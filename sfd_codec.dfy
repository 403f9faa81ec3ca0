// The `.sfd` queue file: the app id on the first line, then one four-line
// record per depot (depot id, manifest id, key as lowercase hex, manifest
// payload as a Python bytes literal), then the `EndOfFile` sentinel.
module SfdCodec {
  import opened Base
  import opened TextCodec

  /** One queued depot, as `_write_sfd_file` writes it and `_load_sfd_from_path` reads it. */
  datatype DepotRecord = DepotRecord(depotId: int, manifestId: int, depotKey: Bytes, manifestContent: Bytes)

  /**
   * Python's `repr` of a bytes value and `ast.literal_eval` restricted to
   * results of type bytes (`None` for a syntax error or a value of another
   * type). Both are outside the model; only their round trip is assumed.
   */
  datatype PayloadCodec = PayloadCodec(repr: Bytes -> string, literalEval: string -> Option<Bytes>)

  /** `repr` yields one line without surrounding whitespace, and `literal_eval` inverts it. */
  ghost predicate RoundTrips(c: PayloadCodec)
  {
    forall p :: LineSafe(c.repr(p)) && c.literalEval(c.repr(p)) == Some(p)
  }

  const Sentinel: string := "EndOfFile"

  // ---------------------------------------------------------------------
  // Writing
  // ---------------------------------------------------------------------

  function RecordText(d: DepotRecord, c: PayloadCodec): string
  {
    IntToString(d.depotId) + "\n" + IntToString(d.manifestId) + "\n"
    + Hex(d.depotKey) + "\n" + c.repr(d.manifestContent) + "\n"
  }

  function RecordsText(ds: seq<DepotRecord>, c: PayloadCodec): string
  {
    if ds == [] then "" else RecordText(ds[0], c) + RecordsText(ds[1..], c)
  }

  /** The whole file `_write_sfd_file` produces. */
  function SfdText(appId: int, ds: seq<DepotRecord>, c: PayloadCodec): string
  {
    IntToString(appId) + "\n" + RecordsText(ds, c) + Sentinel + "\n"
  }

  lemma {:induction false} RecordsTextAppend(ds: seq<DepotRecord>, d: DepotRecord, c: PayloadCodec)
    ensures RecordsText(ds + [d], c) == RecordsText(ds, c) + RecordText(d, c)
  {
    if ds == [] {
      assert [d][1..] == [];
    } else {
      assert (ds + [d])[1..] == ds[1..] + [d];
      RecordsTextAppend(ds[1..], d, c);
    }
  }

  lemma RecordAppended(t: string, d: DepotRecord, c: PayloadCodec)
    ensures t + IntToString(d.depotId) + "\n" + IntToString(d.manifestId) + "\n"
      + Hex(d.depotKey) + "\n" + c.repr(d.manifestContent) + "\n" == t + RecordText(d, c)
  {
  }

  /** `_write_sfd_file`: writes the app id, each record in queue order, then the sentinel. */
  method WriteSfdFile(appId: int, collected: seq<DepotRecord>, c: PayloadCodec) returns (text: string)
    ensures text == SfdText(appId, collected, c)
  {
    text := IntToString(appId) + "\n";
    ghost var head := text;
    for i := 0 to |collected|
      invariant text == head + RecordsText(collected[..i], c)
    {
      var d := collected[i];
      ghost var before := text;
      text := text + IntToString(d.depotId) + "\n";
      text := text + IntToString(d.manifestId) + "\n";
      text := text + Hex(d.depotKey) + "\n";
      text := text + c.repr(d.manifestContent) + "\n";
      RecordAppended(before, d, c);
      TakeSnoc(collected, i);
      RecordsTextAppend(collected[..i], d, c);
      AppendAssoc(head, RecordsText(collected[..i], c), RecordText(d, c));
    }
    TakeAll(collected);
    text := text + Sentinel + "\n";
  }

  // ---------------------------------------------------------------------
  // Reading
  // ---------------------------------------------------------------------

  /** Outcome of `_load_sfd_from_path`: the loaded queue, or an exception. */
  datatype SfdLoad = Loaded(appId: int, depots: seq<DepotRecord>) | LoadError

  /** The conversions of lines 378-381; any of them failing raises. */
  function ParseRecord(l1: string, l2: string, l3: string, l4: string, c: PayloadCodec): Option<DepotRecord>
  {
    var depotId := ParseInt(Strip(l1));
    var manifestId := ParseInt(Strip(l2));
    var key := FromHex(Strip(l3));
    var content := c.literalEval(Strip(l4));
    if depotId.Some? && manifestId.Some? && key.Some? && content.Some? then
      Some(DepotRecord(depotId.value, manifestId.value, key.value, content.value))
    else None
  }

  /** What one turn of the record loop (lines 371-381) makes of the unread text. */
  datatype RecordRead =
    | EndOfRecords
    | BadRecord
    | NextRecord(record: DepotRecord, rest: string)

  /**
   * One turn of the record loop on the unread text `s`: the end of the
   * stream or a sentinel line ends it, so does a record with fewer than four
   * lines, and a record whose conversions fail raises.
   */
  function ReadRecord(s: string, c: PayloadCodec): (r: RecordRead)
    ensures r.NextRecord? ==> |r.rest| < |s|
  {
    var (l1, r1) := ReadLine(s);
    if l1 == "" || Strip(l1) == Sentinel then EndOfRecords
    else
      var (l2, r2) := ReadLine(r1);
      var (l3, r3) := ReadLine(r2);
      var (l4, r4) := ReadLine(r3);
      if l2 == "" || l3 == "" || l4 == "" then EndOfRecords
      else match ParseRecord(l1, l2, l3, l4, c)
        case None => BadRecord
        case Some(d) => NextRecord(d, r4)
  }

  /**
   * The record loop on the unread text `s`: the records up to the end of
   * the stream or the sentinel, a final record with fewer than four lines
   * dropped (the ones before it kept), and `None` for a malformed record.
   */
  function ParseRecords(s: string, c: PayloadCodec): Option<seq<DepotRecord>>
    decreases |s|
  {
    match ReadRecord(s, c)
    case EndOfRecords => Some([])
    case BadRecord => None
    case NextRecord(d, rest) => Prepend([d], ParseRecords(rest, c))
  }

  /** The whole load: the app id line, then the records. */
  function ParseSfd(text: string, c: PayloadCodec): SfdLoad
  {
    var (first, rest) := ReadLine(text);
    var appId := ParseInt(Strip(first));
    var ds := ParseRecords(rest, c);
    if appId.Some? && ds.Some? then Loaded(appId.value, ds.value) else LoadError
  }

  // ---------------------------------------------------------------------
  // Properties
  // ---------------------------------------------------------------------

  /** Four lines followed by any text, regrouped so that each line can be read off the front. */
  lemma Regroup(a: string, b: string, k: string, p: string, rest: string)
    ensures a + "\n" + b + "\n" + k + "\n" + p + "\n" + rest == a + "\n" + (b + "\n" + (k + "\n" + (p + "\n" + rest)))
  {
  }

  /** Four `readline` calls on four newline-free lines give those lines back and leave what follows. */
  lemma ReadFourLines(a: string, b: string, k: string, p: string, rest: string)
    requires '\n' !in a && '\n' !in b && '\n' !in k && '\n' !in p
    ensures
      var (l1, r1) := ReadLine(a + "\n" + (b + "\n" + (k + "\n" + (p + "\n" + rest))));
      var (l2, r2) := ReadLine(r1);
      var (l3, r3) := ReadLine(r2);
      var (l4, r4) := ReadLine(r3);
      l1 == a + "\n" && l2 == b + "\n" && l3 == k + "\n" && l4 == p + "\n" && r4 == rest
  {
    ReadLineOf(a, b + "\n" + (k + "\n" + (p + "\n" + rest)));
    ReadLineOf(b, k + "\n" + (p + "\n" + rest));
    ReadLineOf(k, p + "\n" + rest);
    ReadLineOf(p, rest);
  }

  lemma RecordLines(d: DepotRecord, c: PayloadCodec, rest: string)
    requires RoundTrips(c)
    ensures
      var (l1, r1) := ReadLine(RecordText(d, c) + rest);
      var (l2, r2) := ReadLine(r1);
      var (l3, r3) := ReadLine(r2);
      var (l4, r4) := ReadLine(r3);
      && l1 == IntToString(d.depotId) + "\n"
      && l2 == IntToString(d.manifestId) + "\n"
      && l3 == Hex(d.depotKey) + "\n"
      && l4 == c.repr(d.manifestContent) + "\n"
      && r4 == rest
  {
    var a, b, k, p := IntToString(d.depotId), IntToString(d.manifestId), Hex(d.depotKey), c.repr(d.manifestContent);
    HexLineSafe(d.depotKey);
    assert LineSafe(p);
    Regroup(a, b, k, p, rest);
    ReadFourLines(a, b, k, p, rest);
  }

  lemma IntLine(n: int)
    ensures ParseInt(Strip(IntToString(n) + "\n")) == Some(n)
  {
    IntLineSafe(n);
    StripOfLine(IntToString(n));
    IntRoundTrip(n);
  }

  lemma HexLine(b: Bytes)
    ensures FromHex(Strip(Hex(b) + "\n")) == Some(b)
  {
    HexLineSafe(b);
    StripOfLine(Hex(b));
    HexRoundTrip(b);
  }

  lemma PayloadLine(c: PayloadCodec, p: Bytes)
    requires RoundTrips(c)
    ensures c.literalEval(Strip(c.repr(p) + "\n")) == Some(p)
  {
    StripOfLine(c.repr(p));
  }

  lemma ParseRecordOfLines(d: DepotRecord, c: PayloadCodec)
    requires RoundTrips(c)
    ensures ParseRecord(IntToString(d.depotId) + "\n", IntToString(d.manifestId) + "\n",
                        Hex(d.depotKey) + "\n", c.repr(d.manifestContent) + "\n", c) == Some(d)
  {
    IntLine(d.depotId);
    IntLine(d.manifestId);
    HexLine(d.depotKey);
    PayloadLine(c, d.manifestContent);
  }

  /** A written depot id line is never taken for the sentinel. */
  lemma IdLineNotSentinel(id: int)
    ensures Strip(IntToString(id) + "\n") != Sentinel
  {
    var a := IntToString(id);
    IntLineSafe(id);
    StripOfLine(a);
    assert a[0] == '-' || IsDigit(a[0]);
    assert Sentinel[0] == 'E';
  }

  lemma OneRecord(d: DepotRecord, c: PayloadCodec, rest: string)
    requires RoundTrips(c)
    ensures ParseRecords(RecordText(d, c) + rest, c) == Prepend([d], ParseRecords(rest, c))
  {
    RecordLines(d, c, rest);
    ParseRecordOfLines(d, c);
    IdLineNotSentinel(d.depotId);
  }

  /**
   * Records written in front of any text are read back in order before it:
   * the parse of the rest decides only what follows them, and a failure
   * there fails the whole load.
   */
  lemma {:induction false} ParseAfterRecords(ds: seq<DepotRecord>, c: PayloadCodec, rest: string)
    requires RoundTrips(c)
    ensures ParseRecords(RecordsText(ds, c) + rest, c) == Prepend(ds, ParseRecords(rest, c))
  {
    if ds == [] {
      assert RecordsText(ds, c) + rest == rest;
      PrependNil(ParseRecords(rest, c));
    } else {
      var x := RecordsText(ds[1..], c) + rest;
      var t := RecordsText(ds, c) + rest;
      assert RecordsText(ds, c) == RecordText(ds[0], c) + RecordsText(ds[1..], c);
      AppendAssoc(RecordText(ds[0], c), RecordsText(ds[1..], c), rest);
      assert t == RecordText(ds[0], c) + x;
      OneRecord(ds[0], c, x);
      assert ParseRecords(t, c) == Prepend([ds[0]], ParseRecords(x, c));
      ParseAfterRecords(ds[1..], c, rest);
      PrependTwice(ds[0], ds[1..], ParseRecords(rest, c));
      ConsTail(ds);
    }
  }

  /** Puts records in front of a parse result; a failure stays a failure. */
  function Prepend(ds: seq<DepotRecord>, r: Option<seq<DepotRecord>>): Option<seq<DepotRecord>>
  {
    match r
    case None => None
    case Some(tail) => Some(ds + tail)
  }

  lemma PrependNil(r: Option<seq<DepotRecord>>)
    ensures Prepend([], r) == r
  {
    if r.Some? {
      assert [] + r.value == r.value;
    }
  }

  lemma PrependTwice(d: DepotRecord, ds: seq<DepotRecord>, r: Option<seq<DepotRecord>>)
    ensures Prepend([d], Prepend(ds, r)) == Prepend([d] + ds, r)
  {
    if r.Some? {
      AppendAssoc([d], ds, r.value);
    }
  }

  /**
   * Loading what `_write_sfd_file` wrote gives back the app id and the same
   * records in the same order; nothing after the sentinel is read.
   */
  lemma SfdRoundTrip(appId: int, ds: seq<DepotRecord>, c: PayloadCodec, trailing: string)
    requires RoundTrips(c)
    ensures ParseSfd(SfdText(appId, ds, c) + trailing, c) == Loaded(appId, ds)
  {
    var a := IntToString(appId);
    var tail := Sentinel + "\n" + trailing;
    var body := RecordsText(ds, c) + tail;
    RecordsFollowedBySentinel(ds, c, trailing);
    SfdTextSplit(appId, ds, c, trailing);
    ReadLineOf(a, body);
    IntLine(appId);
  }

  lemma RecordsFollowedBySentinel(ds: seq<DepotRecord>, c: PayloadCodec, trailing: string)
    requires RoundTrips(c)
    ensures ParseRecords(RecordsText(ds, c) + (Sentinel + "\n" + trailing), c) == Some(ds)
  {
    SentinelStops(c, trailing);
    ParseAfterRecords(ds, c, Sentinel + "\n" + trailing);
    assert ds + [] == ds;
  }

  lemma SfdTextSplit(appId: int, ds: seq<DepotRecord>, c: PayloadCodec, trailing: string)
    ensures SfdText(appId, ds, c) + trailing
         == IntToString(appId) + "\n" + (RecordsText(ds, c) + (Sentinel + "\n" + trailing))
  {
    var a, r := IntToString(appId), RecordsText(ds, c);
    AppendAssoc(a + "\n", r, Sentinel + "\n");
    AppendAssoc(a + "\n", r + (Sentinel + "\n"), trailing);
    AppendAssoc(r, Sentinel + "\n", trailing);
    AppendAssoc(Sentinel, "\n", trailing);
  }

  /** The sentinel line ends the record loop, whatever follows it. */
  lemma SentinelStops(c: PayloadCodec, trailing: string)
    ensures ParseRecords(Sentinel + "\n" + trailing, c) == Some([])
  {
    ReadLineOf(Sentinel, trailing);
    NotSpace(Sentinel[0]);
    NotSpace(Sentinel[|Sentinel| - 1]);
    StripOfLine(Sentinel);
  }

  /**
   * A final record cut short after one to three lines, the last of them
   * possibly cut before its newline, is dropped and the records before it
   * are kept.
   */
  lemma TruncatedRecordDropped(ds: seq<DepotRecord>, c: PayloadCodec, partial: seq<string>, last: string)
    requires RoundTrips(c)
    requires forall i :: 0 <= i < |partial| ==> '\n' !in partial[i]
    requires '\n' !in last
    requires 1 <= |partial| + (if last == "" then 0 else 1) <= 3
    ensures ParseRecords(RecordsText(ds, c) + (Lines(partial) + last), c) == Some(ds)
  {
    ParseAfterRecords(ds, c, Lines(partial) + last);
    LinesRead(partial, last, c);
    assert ds + [] == ds;
  }

  /** Each string followed by a newline. */
  function Lines(ls: seq<string>): string
  {
    if ls == [] then "" else ls[0] + "\n" + Lines(ls[1..])
  }

  /** `readline` on whole lines followed by an unterminated one. */
  lemma ReadLineOfLines(ps: seq<string>, last: string)
    requires forall i :: 0 <= i < |ps| ==> '\n' !in ps[i]
    requires '\n' !in last
    ensures ps == [] ==> ReadLine(Lines(ps) + last) == (last, "")
    ensures ps != [] ==> ReadLine(Lines(ps) + last) == (ps[0] + "\n", Lines(ps[1..]) + last)
  {
    if ps == [] {
      assert Lines(ps) + last == last;
      ReadLineUnterminated(last);
    } else {
      AppendAssoc(ps[0] + "\n", Lines(ps[1..]), last);
      ReadLineOf(ps[0], Lines(ps[1..]) + last);
    }
  }

  /** `readline` on text without a newline returns all of it. */
  lemma {:induction false} ReadLineUnterminated(line: string)
    requires '\n' !in line
    ensures ReadLine(line) == (line, "")
  {
    if line != [] {
      assert line[0] in line;
      ReadLineUnterminated(line[1..]);
      assert [line[0]] + line[1..] == line;
    }
  }

  /** One to three lines, the last possibly unterminated, end the record loop with no record. */
  lemma LinesRead(partial: seq<string>, last: string, c: PayloadCodec)
    requires forall i :: 0 <= i < |partial| ==> '\n' !in partial[i]
    requires '\n' !in last
    requires 1 <= |partial| + (if last == "" then 0 else 1) <= 3
    ensures ParseRecords(Lines(partial) + last, c) == Some([])
  {
    ReadLineOfLines(partial, last);
    if |partial| >= 1 {
      ReadLineOfLines(partial[1..], last);
    }
    if |partial| >= 2 {
      assert partial[1..][1..] == partial[2..];
      ReadLineOfLines(partial[2..], last);
    }
    if |partial| >= 3 {
      assert partial[2..][1..] == partial[3..];
      ReadLineOfLines(partial[3..], last);
    }
    assert ReadLine("") == ("", "");
    assert ReadRecord(Lines(partial) + last, c) == EndOfRecords;
  }

}
