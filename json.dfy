/** The loaded policy document as JSON values, and the two Python renderings
    the compiler applies to them: str() (used for `comment` and `msg`) and
    repr() (the default comment of a rule is the str() of its entry, which
    renders nested values with repr()). */
module Json {
  import opened Base
  import opened Text

  datatype Value =
    | Null
    | Bool(b: bool)
    | Num(n: int)
    | Str(s: string)
    | List(items: seq<Value>)
    | Obj(fields: seq<(string, Value)>)

  /** d.get(key): the value stored under key, the first one if several. */
  function Lookup(fields: seq<(string, Value)>, key: string): (r: Option<Value>)
    ensures r.Some? <==> exists k :: 0 <= k < |fields| && fields[k].0 == key
    ensures r.Some? ==> exists k :: 0 <= k < |fields| && fields[k] == (key, r.value)
  {
    if fields == [] then None
    else if fields[0].0 == key then Some(fields[0].1)
    else
      assert forall k :: 0 <= k < |fields| - 1 ==> fields[1..][k] == fields[k + 1];
      Lookup(fields[1..], key)
  }

  /** An entry appended under another key does not change a lookup. */
  lemma {:induction false} LookupAppend(fields: seq<(string, Value)>, key: string, other: string, v: Value)
    requires other != key
    ensures Lookup(fields + [(other, v)], key) == Lookup(fields, key)
  {
    if fields != [] {
      assert (fields + [(other, v)])[1..] == fields[1..] + [(other, v)];
      LookupAppend(fields[1..], key, other, v);
    }
  }

  /** Each key at most once, as in every dict json.load returns (a key
      repeated in the document keeps only its last value). */
  ghost predicate DistinctKeys(fields: seq<(string, Value)>) {
    forall i, j :: 0 <= i < j < |fields| ==> fields[i].0 != fields[j].0
  }

  /** A value as json.load delivers it: every dict in it, at any depth,
      holds each key once. */
  ghost predicate Loaded(v: Value) {
    match v
    case List(items) => forall k :: 0 <= k < |items| ==> Loaded(items[k])
    case Obj(fields) => DistinctKeys(fields) && forall k :: 0 <= k < |fields| ==> Loaded(fields[k].1)
    case _ => true
  }

  /** With each key once, the lookup finds the one entry of each key. */
  lemma {:induction false} DistinctLookup(fields: seq<(string, Value)>, i: nat)
    requires DistinctKeys(fields) && i < |fields|
    ensures Lookup(fields, fields[i].0) == Some(fields[i].1)
  {
    if i > 0 {
      assert fields[0].0 != fields[i].0;
      assert fields[1..][i - 1] == fields[i];
      DistinctLookup(fields[1..], i - 1);
    }
  }

  /** What a lookup in a loaded dict finds is loaded. */
  lemma LoadedLookup(fields: seq<(string, Value)>, key: string)
    requires Loaded(Obj(fields)) && Lookup(fields, key).Some?
    ensures Loaded(Lookup(fields, key).value)
  {
  }

  /** What iterating a loaded value visits is loaded. */
  lemma LoadedIterated(v: Value)
    requires Loaded(v) && Iterated(v).Some?
    ensures forall k :: 0 <= k < |Iterated(v).value| ==> Loaded(Iterated(v).value[k])
  {
  }

  /** key in d. */
  predicate HasKey(fields: seq<(string, Value)>, key: string) {
    Lookup(fields, key).Some?
  }

  /** Python's `needle in text` on two str. */
  predicate IsSubstring(needle: string, text: string) {
    exists i :: 0 <= i <= |text| - |needle| && OccursAt(needle, text, i)
  }

  predicate OccursAt(needle: string, text: string, i: int)
    requires 0 <= i <= |text| - |needle|
  {
    text[i..i + |needle|] == needle
  }

  /** `key in v` for a str (a substring) or a list (an element equal to
      the str key). */
  predicate Contains(v: Value, key: string)
    requires v.Str? || v.List?
  {
    if v.Str? then IsSubstring(key, v.s) else Str(key) in v.items
  }

  /** What `for x in v` visits: a list's items, a str's one-character
      strings, a dict's keys; None when the value is not iterable
      (a TypeError). */
  function Iterated(v: Value): (r: Option<seq<Value>>)
    ensures r.Some? <==> v.List? || v.Str? || v.Obj?
    ensures v.List? ==> r == Some(v.items)
    ensures v.Str? ==> r.Some? && |r.value| == |v.s| && forall k :: 0 <= k < |v.s| ==> r.value[k] == Str([v.s[k]])
    ensures v.Obj? ==> r.Some? && |r.value| == |v.fields| && forall k :: 0 <= k < |v.fields| ==> r.value[k] == Str(v.fields[k].0)
  {
    match v
    case List(items) => Some(items)
    case Str(s) => Some(seq(|s|, k requires 0 <= k < |s| => Str([s[k]])))
    case Obj(fields) => Some(seq(|fields|, k requires 0 <= k < |fields| => Str(fields[k].0)))
    case _ => None
  }

  // ---------------------------------------------------------------- repr of a str

  /** The quote character repr() picks: double quotes only when the text
      holds a single quote and no double quote. */
  function QuoteFor(s: string): char {
    if '\'' in s && '"' !in s then '"' else '\''
  }

  /** The characters up to U+00FF that repr() does not print as they are
      and shows as `\xhh`: the C0 controls other than tab, newline and
      carriage return, DEL, the C1 controls, the no-break space and the
      soft hyphen. */
  predicate HexEscaped(c: char) {
    c as int < 0x20 || 0x7f <= c as int <= 0xa0 || c as int == 0xad
  }

  /** One character as it appears between repr()'s quotes. */
  function EscapeChar(c: char, q: char): string {
    if c == '\\' then "\\\\"
    else if c == q then ['\\', q]
    else if c == '\n' then "\\n"
    else if c == '\r' then "\\r"
    else if c == '\t' then "\\t"
    else if HexEscaped(c) then ['\\', 'x', HexDigit(c as int / 16), HexDigit(c as int % 16)]
    else [c]
  }

  function Escape(s: string, q: char): string {
    if s == [] then [] else EscapeChar(s[0], q) + Escape(s[1..], q)
  }

  /** Undo Escape: a backslash introduces `\xhh` or a two-character
      escape. */
  function Unescape(e: string): string {
    if e == [] then []
    else if e[0] == '\\' && |e| >= 4 && e[1] == 'x' then
      [(HexDigitValue(e[2]) * 16 + HexDigitValue(e[3])) as char] + Unescape(e[4..])
    else if e[0] == '\\' && |e| >= 2 then
      [if e[1] == 'n' then '\n' else if e[1] == 'r' then '\r' else if e[1] == 't' then '\t' else e[1]]
      + Unescape(e[2..])
    else [e[0]] + Unescape(e[1..])
  }

  /** repr() of a str. */
  function ReprStr(s: string): (r: string)
    ensures |r| >= 2 && r[0] == QuoteFor(s) && r[|r| - 1] == QuoteFor(s)
  {
    [QuoteFor(s)] + Escape(s, QuoteFor(s)) + [QuoteFor(s)]
  }

  lemma {:induction false} UnescapeEscape(s: string, q: char)
    requires q == '\'' || q == '"'
    ensures Unescape(Escape(s, q)) == s
  {
    if s != [] {
      UnescapeEscape(s[1..], q);
      UnescapeEscapeChar(s[0], q, Escape(s[1..], q));
      assert s == [s[0]] + s[1..];
    }
  }

  lemma UnescapeEscapeChar(c: char, q: char, t: string)
    requires q == '\'' || q == '"'
    ensures Unescape(EscapeChar(c, q) + t) == [c] + Unescape(t)
  {
    var e := EscapeChar(c, q) + t;
    if HexEscaped(c) && c != '\n' && c != '\r' && c != '\t' {
      assert e[4..] == t;
      HexDigitValueOf(c as int / 16);
      HexDigitValueOf(c as int % 16);
    } else if |EscapeChar(c, q)| == 2 {
      assert e[2..] == t;
    } else {
      assert e[1..] == t;
    }
  }

  /** The text between the quotes of a str's repr decodes back to the str. */
  lemma ReprStrInverse(s: string)
    ensures Unescape(ReprStr(s)[1..|ReprStr(s)| - 1]) == s
  {
    var r := ReprStr(s);
    assert r[1..|r| - 1] == Escape(s, QuoteFor(s));
    UnescapeEscape(s, QuoteFor(s));
  }

  /** repr() of "a" followed by U+0001 is 'a\x01'. */
  lemma ReprControlExample()
    ensures ReprStr(['a', 1 as char]) == "'a\\x01'"
  {
    var s := ['a', 1 as char];
    assert QuoteFor(s) == '\'';
    assert Escape(s, '\'') == "a" + Escape([1 as char], '\'');
    assert Escape([1 as char], '\'') == "\\x01" + Escape([], '\'');
  }

  // ---------------------------------------------------------------- repr and str of any value

  /** repr() of a value as json.load delivers it (dicts and lists rendered
      the way Python prints them). */
  function Repr(v: Value): (r: string)
    ensures |r| >= 1
    ensures v.Str? ==> |r| >= 2 && r[0] == r[|r| - 1] && r[0] in "'\"" && Unescape(r[1..|r| - 1]) == v.s
    ensures v.List? ==> r[0] == '[' && r[|r| - 1] == ']'
    ensures v.Obj? ==> r[0] == '{' && r[|r| - 1] == '}'
  {
    match v
    case Null => "None"
    case Bool(b) => if b then "True" else "False"
    case Num(n) => IntToString(n)
    case Str(s) => ReprStrInverse(s); ReprStr(s)
    case List(items) => "[" + ReprItems(items) + "]"
    case Obj(fields) => "{" + ReprFields(fields) + "}"
  }

  function ReprItems(items: seq<Value>): string {
    if items == [] then ""
    else if |items| == 1 then Repr(items[0])
    else Repr(items[0]) + ", " + ReprItems(items[1..])
  }

  function ReprFields(fields: seq<(string, Value)>): string {
    if fields == [] then ""
    else
      assert fields[0] in fields && fields[0].1 < fields[0];
      var entry := ReprStr(fields[0].0) + ": " + Repr(fields[0].1);
      if |fields| == 1 then entry else entry + ", " + ReprFields(fields[1..])
  }

  /** str() of a value: the text itself for a str, repr() otherwise. */
  function PyStr(v: Value): (r: string)
    ensures v.Str? ==> r == v.s
    ensures !v.Str? ==> r == Repr(v)
  {
    if v.Str? then v.s else Repr(v)
  }
}
