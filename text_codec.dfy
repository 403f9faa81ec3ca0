// The text primitives the queue file relies on: `readline`, `str.strip`,
// `int(...)` / `str(int)`, and `bytes.hex()` / `bytes.fromhex` (lowercase
// base16, section 8 of RFC 4648).
module TextCodec {
  import opened Base

  // ---------------------------------------------------------------------
  // Whitespace, `strip` and `readline`
  // ---------------------------------------------------------------------

  /** The code points `str.isspace` accepts, as inclusive ranges in ascending order. */
  const SpaceRanges: seq<(int, int)> :=
    [ (0x09, 0x0D), (0x1C, 0x20), (0x85, 0x85), (0xA0, 0xA0), (0x1680, 0x1680),
      (0x2000, 0x200A), (0x2028, 0x2029), (0x202F, 0x202F), (0x205F, 0x205F), (0x3000, 0x3000) ]

  predicate InRanges(n: int, rs: seq<(int, int)>)
  {
    rs != [] && ((rs[0].0 <= n <= rs[0].1) || InRanges(n, rs[1..]))
  }

  /** `str.isspace` for one character. */
  predicate IsSpace(c: char)
  {
    InRanges(c as int, SpaceRanges)
  }

  lemma {:induction false} BelowRanges(n: int, rs: seq<(int, int)>)
    requires forall k :: 0 <= k < |rs| ==> n < rs[k].0
    ensures !InRanges(n, rs)
  {
    if rs != [] {
      BelowRanges(n, rs[1..]);
    }
  }

  /** The printable ASCII characters other than the blank are not whitespace. */
  lemma NotSpace(c: char)
    requires '!' <= c <= '~'
    ensures !IsSpace(c)
  {
    var n, rs := c as int, SpaceRanges;
    BelowRanges(n, rs[2..]);
    assert rs[1..][1..] == rs[2..];
    assert !InRanges(n, rs[1..]);
  }

  /** The ASCII whitespace that `bytes.fromhex` skips. */
  predicate IsAsciiSpace(c: char)
  {
    var n := c as int;
    n == 0x20 || (0x09 <= n <= 0x0D)
  }

  /** `str.strip()`: drops whitespace at both ends. */
  function Strip(s: string): string
    decreases |s|
  {
    if s != [] && IsSpace(s[0]) then Strip(s[1..])
    else if s != [] && IsSpace(s[|s| - 1]) then Strip(s[..|s| - 1])
    else s
  }

  /** Neither end is whitespace, so `strip` leaves the string alone. */
  predicate NoEdgeSpace(s: string)
  {
    s == [] || (!IsSpace(s[0]) && !IsSpace(s[|s| - 1]))
  }

  /** A string that can be written as one line and read back by `readline().strip()`. */
  predicate LineSafe(s: string)
  {
    '\n' !in s && NoEdgeSpace(s)
  }

  /**
   * `f.readline()` on a text stream whose unread part is `s`: the line up to
   * and including the first newline (or all of `s` when it has none, or ""
   * at the end of the stream), and what remains unread.
   */
  function ReadLine(s: string): (r: (string, string))
    ensures r.0 + r.1 == s
    ensures s != [] ==> r.0 != []
  {
    if s == [] then ("", "")
    else if s[0] == '\n' then ("\n", s[1..])
    else
      var (line, rest) := ReadLine(s[1..]);
      ([s[0]] + line, rest)
  }

  lemma {:induction false} ReadLineOf(line: string, rest: string)
    requires '\n' !in line
    ensures ReadLine(line + "\n" + rest) == (line + "\n", rest)
  {
    if line != [] {
      var s := line + "\n" + rest;
      assert line[0] in line;
      assert s[0] == line[0] && s[1..] == line[1..] + "\n" + rest;
      ReadLineOf(line[1..], rest);
      assert [line[0]] + (line[1..] + "\n") == line + "\n";
    }
  }

  lemma StripOfLine(line: string)
    requires NoEdgeSpace(line)
    ensures Strip(line + "\n") == line
  {
    if line == [] {
      assert Strip("\n") == Strip([]);
    } else {
      assert (line + "\n")[..|line|] == line;
    }
  }

  // ---------------------------------------------------------------------
  // Decimal integers: `str(n)` and `int(s)`
  // ---------------------------------------------------------------------

  predicate IsDigit(c: char)
  {
    '0' <= c <= '9'
  }

  function DigitChar(d: nat): (c: char)
    requires d < 10
    ensures IsDigit(c) && (c as int) - ('0' as int) == d
  {
    (('0' as int) + d) as char
  }

  /** `str(n)` for `n >= 0`. */
  function NatToString(n: nat): (s: string)
    ensures s != [] && forall i :: 0 <= i < |s| ==> IsDigit(s[i])
    decreases n
  {
    if n < 10 then [DigitChar(n)] else NatToString(n / 10) + [DigitChar(n % 10)]
  }

  /** `str(n)`. */
  function IntToString(n: int): (s: string)
    ensures s != [] && (s[0] == '-' || IsDigit(s[0]))
  {
    if n < 0 then "-" + NatToString(-n) else NatToString(n)
  }

  /** `str(n)` can be written as one line and read back by `readline().strip()`. */
  lemma IntLineSafe(n: int)
    ensures LineSafe(IntToString(n))
  {
    var s := IntToString(n);
    NotSpace(s[0]);
    NotSpace(s[|s| - 1]);
    assert '\n' !in s by {
      if n < 0 {
        assert s == "-" + NatToString(-n);
      }
    }
  }

  /** Value of a non-empty run of decimal digits. */
  function DigitsValue(s: string): nat
    requires s != [] && forall i :: 0 <= i < |s| ==> IsDigit(s[i])
  {
    assert IsDigit(s[|s| - 1]);
    var d := (s[|s| - 1] as int) - ('0' as int);
    if |s| == 1 then d else DigitsValue(s[..|s| - 1]) * 10 + d
  }

  /** The digits of `s` read as a decimal number; `None` unless `s` is a non-empty run of digits. */
  function ParseDigits(s: string): (r: Option<nat>)
    decreases |s|
  {
    if s == [] || !IsDigit(s[|s| - 1]) then None
    else
      var d := (s[|s| - 1] as int) - ('0' as int);
      if |s| == 1 then Some(d)
      else
        match ParseDigits(s[..|s| - 1])
        case None => None
        case Some(v) => Some(v * 10 + d)
  }

  /**
   * `int(s)` on an already stripped string, for an optional sign and at least
   * one ASCII decimal digit; `None` stands for `ValueError`. Python also
   * accepts single underscores between digits and non-ASCII decimal digits;
   * this model returns `None` for those.
   */
  function ParseInt(s: string): (r: Option<int>)
    ensures r.Some? ==> s != []
  {
    if s == [] then None
    else
      var signed := s[0] == '-' || s[0] == '+';
      match ParseDigits(if signed then s[1..] else s)
      case None => None
      case Some(v) =>
        var n: int := v;
        Some(if s[0] == '-' then -n else n)
  }

  /** A run of digits parses to its value, and only a run of digits parses. */
  lemma {:induction false} ParseDigitsMeaning(s: string)
    ensures ParseDigits(s).Some? <==> s != [] && forall i :: 0 <= i < |s| ==> IsDigit(s[i])
    ensures ParseDigits(s).Some? ==> ParseDigits(s).value == DigitsValue(s)
    decreases |s|
  {
    if s != [] && IsDigit(s[|s| - 1]) && |s| > 1 {
      var pre := s[..|s| - 1];
      ParseDigitsMeaning(pre);
      assert forall i :: 0 <= i < |pre| ==> pre[i] == s[i];
    }
  }

  lemma {:induction false} DigitsOfNat(n: nat)
    ensures ParseDigits(NatToString(n)) == Some(n)
    decreases n
  {
    if n >= 10 {
      var s := NatToString(n);
      assert s[..|s| - 1] == NatToString(n / 10);
      DigitsOfNat(n / 10);
    }
  }

  /** The digits `str(n)` writes for `n >= 0` are worth `n`. */
  lemma NatDigitsValue(n: nat)
    ensures DigitsValue(NatToString(n)) == n
  {
    DigitsOfNat(n);
    ParseDigitsMeaning(NatToString(n));
  }

  /** `int(str(n)) == n`. */
  lemma IntRoundTrip(n: int)
    ensures ParseInt(IntToString(n)) == Some(n)
  {
    if n < 0 {
      assert IntToString(n)[1..] == NatToString(-n);
      DigitsOfNat(-n);
    } else {
      DigitsOfNat(n);
    }
  }

  // ---------------------------------------------------------------------
  // Base16: `bytes.hex()` and `bytes.fromhex(s)`
  // ---------------------------------------------------------------------

  function HexDigit(v: nat): (c: char)
    requires v < 16
  {
    if v < 10 then (('0' as int) + v) as char else (('a' as int) + v - 10) as char
  }

  /** Value of a hexadecimal digit of either case, or 16 for anything else. */
  function HexValue(c: char): (v: nat)
    ensures v <= 16
  {
    if '0' <= c <= '9' then (c as int) - ('0' as int)
    else if 'a' <= c <= 'f' then (c as int) - ('a' as int) + 10
    else if 'A' <= c <= 'F' then (c as int) - ('A' as int) + 10
    else 16
  }

  lemma HexDigitValue(v: nat)
    requires v < 16
    ensures HexValue(HexDigit(v)) == v && !IsAsciiSpace(HexDigit(v)) && !IsSpace(HexDigit(v))
  {
    NotSpace(HexDigit(v));
  }

  /** `b.hex()`: two lowercase digits per byte, high nibble first. */
  function Hex(b: Bytes): (s: string)
    ensures |s| == 2 * |b|
  {
    if b == [] then "" else [HexDigit(b[0] as int / 16), HexDigit(b[0] as int % 16)] + Hex(b[1..])
  }

  /**
   * `bytes.fromhex(s)`: whitespace may stand before each two-digit pair (never
   * inside one); a non-hex character or an odd digit count raises `ValueError`.
   */
  function FromHex(s: string): (r: Option<Bytes>)
    decreases |s|
  {
    if s == [] then Some([])
    else if IsAsciiSpace(s[0]) then FromHex(s[1..])
    else if |s| < 2 || HexValue(s[0]) == 16 || HexValue(s[1]) == 16 then None
    else match FromHex(s[2..])
      case None => None
      case Some(rest) => Some([(HexValue(s[0]) * 16 + HexValue(s[1])) as byte] + rest)
  }

  lemma HexLineSafe(b: Bytes)
    ensures LineSafe(Hex(b))
  {
    var s := Hex(b);
    forall i | 0 <= i < |s| ensures !IsSpace(s[i]) && s[i] != '\n' {
      HexCharAt(b, i);
    }
  }

  lemma {:induction false} HexCharAt(b: Bytes, i: nat)
    requires i < |Hex(b)|
    ensures !IsSpace(Hex(b)[i]) && Hex(b)[i] != '\n'
  {
    HexDigitValue(b[0] as int / 16);
    HexDigitValue(b[0] as int % 16);
    if i >= 2 {
      HexCharAt(b[1..], i - 2);
    }
  }

  /** `bytes.fromhex(b.hex()) == b`. */
  lemma {:induction false} HexRoundTrip(b: Bytes)
    ensures FromHex(Hex(b)) == Some(b)
  {
    if b != [] {
      var hi, lo := b[0] as int / 16, b[0] as int % 16;
      HexDigitValue(hi);
      HexDigitValue(lo);
      var s := Hex(b);
      assert s[2..] == Hex(b[1..]);
      HexRoundTrip(b[1..]);
      assert [b[0]] + b[1..] == b;
    }
  }
}
