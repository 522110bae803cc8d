/** String helpers with the semantics of the Python built-ins the source uses:
    str.split with one delimiter, str.join, str.strip, ASCII case mapping,
    decimal conversion both ways and bytes.hex. */
module Text {
  import opened Base

  type byte = b: int | 0 <= b < 256

  // ---------------------------------------------------------------- split/join

  /** str.split(d): the pieces between occurrences of d, always at least one. */
  function Split(s: string, d: char): (r: seq<string>)
    ensures |r| >= 1
    ensures forall k :: 0 <= k < |r| ==> d !in r[k]
  {
    if s == [] then [""]
    else
      var rest := Split(s[1..], d);
      if s[0] == d then [""] + rest else [[s[0]] + rest[0]] + rest[1..]
  }

  /** str.join: the pieces with d between consecutive ones. */
  function Join(parts: seq<string>, d: char): string {
    if |parts| == 0 then ""
    else if |parts| == 1 then parts[0]
    else parts[0] + [d] + Join(parts[1..], d)
  }

  lemma {:induction false} JoinSplit(s: string, d: char)
    ensures Join(Split(s, d), d) == s
  {
    if s != [] {
      JoinSplit(s[1..], d);
      var rest := Split(s[1..], d);
      if s[0] != d {
        if |rest| > 1 {
          assert [s[0]] + rest[0] + [d] + Join(rest[1..], d) == [s[0]] + Join(rest, d);
        }
      }
    }
  }

  lemma {:induction false} SplitCons(c: char, s: string, d: char)
    requires c != d
    ensures Split([c] + s, d) == [[c] + Split(s, d)[0]] + Split(s, d)[1..]
  {
    assert ([c] + s)[1..] == s;
  }

  lemma {:induction false} SplitOfPiece(p: string, d: char)
    requires d !in p
    ensures Split(p, d) == [p]
  {
    if p != [] {
      SplitOfPiece(p[1..], d);
      SplitCons(p[0], p[1..], d);
      assert [p[0]] + p[1..] == p;
    }
  }

  /** Split(p + [d] + s) == [p] + Split(s) for a piece p free of d. */
  lemma {:induction false} SplitAfterPiece(p: string, s: string, d: char)
    requires d !in p
    ensures Split(p + [d] + s, d) == [p] + Split(s, d)
  {
    if p == [] {
      assert ([d] + s)[1..] == s;
      assert p + [d] + s == [d] + s;
    } else {
      SplitAfterPiece(p[1..], s, d);
      assert p + [d] + s == [p[0]] + (p[1..] + [d] + s);
      SplitCons(p[0], p[1..] + [d] + s, d);
      assert [p[0]] + p[1..] == p;
    }
  }

  /** Splitting a join of delimiter-free pieces gives the pieces back. */
  lemma {:induction false} SplitJoin(parts: seq<string>, d: char)
    requires |parts| >= 1
    requires forall k :: 0 <= k < |parts| ==> d !in parts[k]
    ensures Split(Join(parts, d), d) == parts
  {
    if |parts| == 1 {
      SplitOfPiece(parts[0], d);
    } else {
      SplitJoin(parts[1..], d);
      SplitAfterPiece(parts[0], Join(parts[1..], d), d);
      assert [parts[0]] + parts[1..] == parts;
    }
  }

  /** str.split(d, maxsplit = 1) when d occurs: the text before the first d
      and everything after it. */
  function SplitFirst(s: string, d: char): (r: Option<(string, string)>)
    ensures r.None? <==> d !in s
    ensures r.Some? ==> s == r.value.0 + [d] + r.value.1 && d !in r.value.0
  {
    if s == [] then None
    else if s[0] == d then Some(([], s[1..]))
    else
      match SplitFirst(s[1..], d)
      case None => None
      case Some((a, b)) => Some(([s[0]] + a, b))
  }

  /** The first delimiter splits a text made of a delimiter-free head, the delimiter and a tail. */
  lemma {:induction false} SplitFirstOf(a: string, b: string, d: char)
    requires d !in a
    ensures SplitFirst(a + [d] + b, d) == Some((a, b))
  {
    if a == [] {
      assert (a + [d] + b)[1..] == b;
    } else {
      SplitFirstOf(a[1..], b, d);
      assert (a + [d] + b)[1..] == a[1..] + [d] + b;
      assert [a[0]] + a[1..] == a;
    }
  }

  // ---------------------------------------------------------------- whitespace

  /** The ASCII characters Python counts as whitespace (str.strip and \s). */
  predicate IsSpace(c: char) {
    c == ' ' || c == '\t' || c == '\n' || c == '\r' || c == '\U{b}' || c == '\U{c}'
    || ('\U{1c}' <= c <= '\U{1f}')
  }

  function StripLeft(s: string): (r: string)
    ensures |r| <= |s| && r == s[|s| - |r|..]
    ensures r == [] || !IsSpace(r[0])
    ensures forall k :: 0 <= k < |s| - |r| ==> IsSpace(s[k])
  {
    if s != [] && IsSpace(s[0]) then StripLeft(s[1..]) else s
  }

  function StripRight(s: string): (r: string)
    ensures |r| <= |s| && r == s[..|r|]
    ensures r == [] || !IsSpace(r[|r| - 1])
    ensures forall k :: |r| <= k < |s| ==> IsSpace(s[k])
  {
    if s != [] && IsSpace(s[|s| - 1]) then StripRight(s[..|s| - 1]) else s
  }

  /** str.strip(): drop leading and trailing whitespace. */
  function Strip(s: string): string {
    StripRight(StripLeft(s))
  }

  // ---------------------------------------------------------------- case

  function UpperChar(c: char): char {
    if 'a' <= c <= 'z' then (c as int - 32) as char else c
  }

  function LowerChar(c: char): char {
    if 'A' <= c <= 'Z' then (c as int + 32) as char else c
  }

  /** str.upper() on ASCII letters. */
  function Upper(s: string): (r: string)
    ensures |r| == |s| && forall k :: 0 <= k < |s| ==> r[k] == UpperChar(s[k])
  {
    seq(|s|, k requires 0 <= k < |s| => UpperChar(s[k]))
  }

  /** str.lower() on ASCII letters. */
  function Lower(s: string): (r: string)
    ensures |r| == |s| && forall k :: 0 <= k < |s| ==> r[k] == LowerChar(s[k])
  {
    seq(|s|, k requires 0 <= k < |s| => LowerChar(s[k]))
  }

  // ---------------------------------------------------------------- numbers

  predicate IsDigit(c: char) { '0' <= c <= '9' }

  predicate AllDigits(s: string) { forall k :: 0 <= k < |s| ==> IsDigit(s[k]) }

  function DigitChar(n: nat): char
    requires n < 10
  {
    (n + '0' as int) as char
  }

  /** int() of a string of decimal digits (leading zeros allowed). */
  function DigitsValue(s: string): nat
    requires AllDigits(s)
  {
    if s == [] then 0
    else DigitsValue(s[..|s| - 1]) * 10 + (s[|s| - 1] as int - '0' as int)
  }

  /** str() of a natural number: decimal, no leading zeros. */
  function NatToString(n: nat): (r: string)
    ensures |r| >= 1 && AllDigits(r)
    ensures |r| > 1 ==> r[0] != '0'
  {
    if n < 10 then [DigitChar(n)] else NatToString(n / 10) + [DigitChar(n % 10)]
  }

  /** "%d" of an integer: a minus sign before the digits of a negative one. */
  function IntToString(i: int): (r: string) {
    if i < 0 then "-" + NatToString(-i) else NatToString(i)
  }

  lemma {:induction false} DigitsOfNat(n: nat)
    ensures DigitsValue(NatToString(n)) == n
  {
    if n >= 10 {
      DigitsOfNat(n / 10);
      var s := NatToString(n);
      assert s[..|s| - 1] == NatToString(n / 10);
    }
  }

  /** int() of an optional sign followed by decimal digits; None where
      Python's int() would raise. */
  function ParseInt(s: string): (r: Option<int>)
    ensures r.Some? <==> (|s| >= 1 && (AllDigits(s) || ((s[0] == '+' || s[0] == '-') && |s| >= 2 && AllDigits(s[1..]))))
  {
    if |s| >= 2 && s[0] == '+' && AllDigits(s[1..]) then Some(DigitsValue(s[1..]))
    else if |s| >= 2 && s[0] == '-' && AllDigits(s[1..]) then Some(0 - DigitsValue(s[1..]) as int)
    else if |s| >= 1 && AllDigits(s) then Some(DigitsValue(s))
    else None
  }

  lemma ParseIntOfString(i: int)
    ensures ParseInt(IntToString(i)) == Some(i)
  {
    DigitsOfNat(if i < 0 then -i else i);
    if i < 0 {
      assert IntToString(i)[1..] == NatToString(-i);
    }
  }

  // ---------------------------------------------------------------- hex

  function HexDigit(n: nat): (c: char)
    requires n < 16
  {
    if n < 10 then (n + '0' as int) as char else (n - 10 + 'a' as int) as char
  }

  function HexDigitValue(c: char): (n: nat)
    ensures n < 16
  {
    if '0' <= c <= '9' then c as int - '0' as int
    else if 'a' <= c <= 'f' then c as int - 'a' as int + 10
    else 0
  }

  lemma HexDigitValueOf(n: nat)
    requires n < 16
    ensures HexDigitValue(HexDigit(n)) == n
  {
  }

  /** bytes.hex(): two lower-case hex digits per byte. */
  function Hex(bs: seq<byte>): (r: string)
    ensures |r| == 2 * |bs|
  {
    if bs == [] then [] else [HexDigit(bs[0] / 16), HexDigit(bs[0] % 16)] + Hex(bs[1..])
  }

  function Unhex(s: string): seq<byte>
    requires |s| % 2 == 0
  {
    if s == [] then []
    else
      var hi := HexDigitValue(s[0]);
      var lo := HexDigitValue(s[1]);
      [if hi < 16 && lo < 16 then hi * 16 + lo else 0] + Unhex(s[2..])
  }

  lemma {:induction false} UnhexHex(bs: seq<byte>)
    ensures Unhex(Hex(bs)) == bs
  {
    if bs != [] {
      UnhexHex(bs[1..]);
      var h := Hex(bs);
      assert h[2..] == Hex(bs[1..]);
    }
  }
}
