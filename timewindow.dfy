/** Time windows: a comma-separated list of `[!]H[:MM[:SS]] - H[:MM[:SS]]`
    ranges of the day, each turned into a pair of second offsets, and the
    test whether an instant's time of day lies in one of them. */
module TimeWindows {
  import opened Base
  import opened Text

  // ---------------------------------------------------------------- the range grammar

  /** One endpoint as written: one or two hour digits, then optionally two
      minute digits, then optionally two second digits. */
  datatype Clock = Clock(hour: string, minute: Option<string>, second: Option<string>)

  predicate TwoDigits(s: string) {
    |s| == 2 && AllDigits(s)
  }

  predicate ClockWellFormed(c: Clock) {
    && 1 <= |c.hour| <= 2 && AllDigits(c.hour)
    && (c.minute.Some? ==> TwoDigits(c.minute.value))
    && (c.second.Some? ==> c.minute.Some? && TwoDigits(c.second.value))
  }

  function RenderClock(c: Clock): string {
    c.hour + match c.minute
      case None => ""
      case Some(m) => ":" + m + match c.second
        case None => ""
        case Some(s) => ":" + s
  }

  predicate AllSpace(s: string) {
    forall k :: 0 <= k < |s| ==> IsSpace(s[k])
  }

  /** One range as written, with the whitespace the pattern allows around
      the `!` and the `-`. */
  datatype RangeText = RangeText(inverted: bool, ws0: string, from: Clock, ws1: string, ws2: string, to: Clock)

  predicate RangeWellFormed(r: RangeText) {
    && AllSpace(r.ws0) && AllSpace(r.ws1) && AllSpace(r.ws2)
    && ClockWellFormed(r.from) && ClockWellFormed(r.to)
  }

  /** The text of a range; the pattern of TimeWindow.py matches in full
      exactly the renderings of the well-formed ranges. */
  function Render(r: RangeText): string {
    var body := RenderBody(r.ws0, r.from, r.ws1, r.ws2, r.to);
    if r.inverted then "!" + body else body
  }

  /** The text after the optional `!`. */
  function RenderBody(ws0: string, from: Clock, ws1: string, ws2: string, to: Clock): string {
    ws0 + (RenderClock(from) + (ws1 + ("-" + (ws2 + RenderClock(to)))))
  }

  // ---------------------------------------------------------------- the parser

  function TakeSpaces(s: string): (r: (string, string))
    ensures s == r.0 + r.1 && AllSpace(r.0)
    ensures r.1 == [] || !IsSpace(r.1[0])
  {
    if s != [] && IsSpace(s[0]) then
      var rest := TakeSpaces(s[1..]);
      ([s[0]] + rest.0, rest.1)
    else ([], s)
  }

  function TakeDigits(s: string): (r: (string, string))
    ensures s == r.0 + r.1 && AllDigits(r.0)
    ensures r.1 == [] || !IsDigit(r.1[0])
  {
    if s != [] && IsDigit(s[0]) then
      var rest := TakeDigits(s[1..]);
      ([s[0]] + rest.0, rest.1)
    else ([], s)
  }

  lemma {:induction false} TakeSpacesOf(ws: string, t: string)
    requires AllSpace(ws) && (t == [] || !IsSpace(t[0]))
    ensures TakeSpaces(ws + t) == (ws, t)
  {
    if ws != [] {
      assert (ws + t)[1..] == ws[1..] + t;
      TakeSpacesOf(ws[1..], t);
      assert [ws[0]] + ws[1..] == ws;
    } else {
      assert ws + t == t;
    }
  }

  lemma {:induction false} TakeDigitsOf(ds: string, t: string)
    requires AllDigits(ds) && (t == [] || !IsDigit(t[0]))
    ensures TakeDigits(ds + t) == (ds, t)
  {
    if ds != [] {
      assert (ds + t)[1..] == ds[1..] + t;
      TakeDigitsOf(ds[1..], t);
      assert [ds[0]] + ds[1..] == ds;
    } else {
      assert ds + t == t;
    }
  }

  /** The text of an optional `:DD` group. */
  function RenderGroup(g: Option<string>): string {
    match g
    case None => ""
    case Some(d) => ":" + d
  }

  lemma RenderClockGroups(c: Clock)
    requires c.second.Some? ==> c.minute.Some?
    ensures RenderClock(c) == c.hour + RenderGroup(c.minute) + RenderGroup(c.second)
  {
  }

  /** Read an optional `:DD` group from the front of s; None when a colon is
      not followed by exactly two digits. */
  function ParseGroup(s: string): (r: Option<(Option<string>, string)>)
    ensures r.Some? ==> s == RenderGroup(r.value.0) + r.value.1
    ensures r.Some? && r.value.0.Some? ==> TwoDigits(r.value.0.value)
    ensures r.Some? && r.value.0.None? ==> r.value.1 == s
  {
    if s == [] || s[0] != ':' then Some((None, s))
    else
      var d := TakeDigits(s[1..]);
      if |d.0| != 2 then None
      else
        assert s == ":" + s[1..];
        Some((Some(d.0), d.1))
  }

  lemma ParseGroupOf(g: Option<string>, t: string)
    requires g.Some? ==> TwoDigits(g.value)
    requires t == [] || (!IsDigit(t[0]) && t[0] != ':')
    ensures ParseGroup(RenderGroup(g) + t) == Some((g, t))
  {
    if g.Some? {
      var s := RenderGroup(g) + t;
      assert s == [':'] + (g.value + t);
      assert s[0] == ':' && s[1..] == g.value + t;
      TakeDigitsOf(g.value, t);
    } else {
      assert RenderGroup(g) + t == t;
    }
  }

  lemma ParseGroupThenGroup(g: Option<string>, h: Option<string>, t: string)
    requires g.Some? ==> TwoDigits(g.value)
    requires h.Some? ==> TwoDigits(h.value) && g.Some?
    requires t == [] || (!IsDigit(t[0]) && t[0] != ':')
    ensures ParseGroup(RenderGroup(g) + (RenderGroup(h) + t)) == Some((g, RenderGroup(h) + t))
  {
    var u := RenderGroup(h) + t;
    assert u == [] || (!IsDigit(u[0]) && u[0] != ':') || g.Some?;
    if g.Some? {
      var s := RenderGroup(g) + u;
      assert s == [':'] + (g.value + u);
      assert s[0] == ':' && s[1..] == g.value + u;
      TakeDigitsOf(g.value, u);
    } else {
      assert RenderGroup(g) + u == u;
    }
  }

  /** Read one endpoint from the front of s; the rest of s is returned. */
  function ParseClock(s: string): (r: Option<(Clock, string)>)
    ensures r.Some? ==> ClockWellFormed(r.value.0) && s == RenderClock(r.value.0) + r.value.1
  {
    var h := TakeDigits(s);
    if |h.0| < 1 || |h.0| > 2 then None
    else
      match ParseGroup(h.1)
      case None => None
      case Some((m, r2)) =>
        if m.None? then Some((Clock(h.0, None, None), r2))
        else
          match ParseGroup(r2)
          case None => None
          case Some((sec, r3)) =>
            var c := Clock(h.0, m, sec);
            RenderClockGroups(c);
            Some((c, r3))
  }

  /** An endpoint is read back from its own text, whatever follows it, as
      long as that does not continue the endpoint. */
  lemma ParseClockOf(c: Clock, t: string)
    requires ClockWellFormed(c)
    requires t == [] || (!IsDigit(t[0]) && t[0] != ':')
    ensures ParseClock(RenderClock(c) + t) == Some((c, t))
  {
    RenderClockGroups(c);
    var tail := RenderGroup(c.second) + t;
    var rest := RenderGroup(c.minute) + tail;
    var s := RenderClock(c) + t;
    assert s == c.hour + rest;
    assert rest == [] || !IsDigit(rest[0]);
    TakeDigitsOf(c.hour, rest);
    assert TakeDigits(s) == (c.hour, rest);
    ParseGroupThenGroup(c.minute, c.second, t);
    assert ParseGroup(rest) == Some((c.minute, tail));
    if c.minute.Some? {
      ParseGroupOf(c.second, t);
      assert ParseGroup(tail) == Some((c.second, t));
    } else {
      assert c == Clock(c.hour, None, None) && tail == t;
    }
  }

  /** Read `\s*-\s*` from the front of s. */
  function ParseDash(s: string): (r: Option<(string, string, string)>)
    ensures r.Some? ==> AllSpace(r.value.0) && AllSpace(r.value.1)
    ensures r.Some? ==> s == r.value.0 + ("-" + (r.value.1 + r.value.2))
    ensures r.Some? ==> r.value.2 == [] || !IsSpace(r.value.2[0])
  {
    var a := TakeSpaces(s);
    if a.1 == [] || a.1[0] != '-' then None
    else
      var b := TakeSpaces(a.1[1..]);
      assert a.1 == "-" + a.1[1..];
      Some((a.0, b.0, b.1))
  }

  lemma ParseDashOf(ws1: string, ws2: string, t: string)
    requires AllSpace(ws1) && AllSpace(ws2) && (t == [] || !IsSpace(t[0]))
    ensures ParseDash(ws1 + ("-" + (ws2 + t))) == Some((ws1, ws2, t))
  {
    TakeSpacesOf(ws1, "-" + (ws2 + t));
    assert ("-" + (ws2 + t))[1..] == ws2 + t;
    TakeSpacesOf(ws2, t);
  }

  /** Everything after the `!`: `\s*` clock `\s*-\s*` clock, to the end. */
  function ParseBody(s: string): (r: Option<(string, Clock, string, string, Clock)>)
    ensures r.Some? ==> AllSpace(r.value.0) && AllSpace(r.value.2) && AllSpace(r.value.3)
    ensures r.Some? ==> ClockWellFormed(r.value.1) && ClockWellFormed(r.value.4)
    ensures r.Some? ==> s == RenderBody(r.value.0, r.value.1, r.value.2, r.value.3, r.value.4)
  {
    var a := TakeSpaces(s);
    var c1 := ParseClock(a.1);
    if c1.None? then None
    else
      var d := ParseDash(c1.value.1);
      if d.None? then None
      else
        var c2 := ParseClock(d.value.2);
        if c2.None? || c2.value.1 != [] then None
        else
          assert d.value.2 == RenderClock(c2.value.0) by {
            assert RenderClock(c2.value.0) + c2.value.1 == RenderClock(c2.value.0);
          }
          Some((a.0, c1.value.0, d.value.0, d.value.1, c2.value.0))
  }

  /** re.fullmatch of the range pattern on one stripped comma part. */
  function ParseRange(s: string): (r: Option<RangeText>)
    ensures r.Some? ==> RangeWellFormed(r.value) && s == Render(r.value)
  {
    if s != [] && s[0] == '!' then
      var b := ParseBody(s[1..]);
      if b.None? then None
      else
        var rt := RangeText(true, b.value.0, b.value.1, b.value.2, b.value.3, b.value.4);
        assert Render(rt) == "!" + s[1..] == s;
        Some(rt)
    else
      var b := ParseBody(s);
      if b.None? then None
      else Some(RangeText(false, b.value.0, b.value.1, b.value.2, b.value.3, b.value.4))
  }

  lemma ParseBodyOf(ws0: string, from: Clock, ws1: string, ws2: string, to: Clock)
    requires AllSpace(ws0) && AllSpace(ws1) && AllSpace(ws2) && ClockWellFormed(from) && ClockWellFormed(to)
    ensures ParseBody(RenderBody(ws0, from, ws1, ws2, to)) == Some((ws0, from, ws1, ws2, to))
  {
    var fromText := RenderClock(from);
    var toText := RenderClock(to);
    var tail := ws1 + ("-" + (ws2 + toText));
    var s := RenderBody(ws0, from, ws1, ws2, to);
    assert s == ws0 + (fromText + tail);
    StartsWithHourDigit(from);
    StartsWithHourDigit(to);
    TakeSpacesOf(ws0, fromText + tail);
    var a := TakeSpaces(s);
    assert a.1 == fromText + tail;
    DashTailStart(ws1, ws2 + toText);
    ParseClockOf(from, tail);
    var c1 := ParseClock(a.1);
    assert c1 == Some((from, tail));
    ParseDashOf(ws1, ws2, toText);
    var d := ParseDash(tail);
    assert d == Some((ws1, ws2, toText));
    ParseClockOf(to, []);
    assert toText + [] == toText;
    var c2 := ParseClock(toText);
    assert c2 == Some((to, []));
  }

  lemma StartsWithHourDigit(c: Clock)
    requires ClockWellFormed(c)
    ensures |RenderClock(c)| > 0 && IsDigit(RenderClock(c)[0]) && !IsSpace(RenderClock(c)[0])
  {
    assert RenderClock(c)[0] == c.hour[0];
  }

  lemma DashTailStart(ws1: string, u: string)
    requires AllSpace(ws1)
    ensures var tail := ws1 + ("-" + u); tail != [] && !IsDigit(tail[0]) && tail[0] != ':'
  {
    var tail := ws1 + ("-" + u);
    if ws1 != [] { assert tail[0] == ws1[0]; } else { assert tail[0] == '-'; }
  }

  /** Every text the pattern matches is parsed back into the range it renders. */
  lemma ParseRender(r: RangeText)
    requires RangeWellFormed(r)
    ensures ParseRange(Render(r)) == Some(r)
  {
    var body := RenderBody(r.ws0, r.from, r.ws1, r.ws2, r.to);
    ParseBodyOf(r.ws0, r.from, r.ws1, r.ws2, r.to);
    if r.inverted {
      assert Render(r)[1..] == body;
    } else {
      assert RenderClock(r.from)[0] == r.from.hour[0];
      assert body[0] != '!' by {
        if r.ws0 != [] { assert body[0] == r.ws0[0]; } else { assert body[0] == RenderClock(r.from)[0]; }
      }
    }
  }

  // ---------------------------------------------------------------- second offsets

  /** int() of a group, "0" when the group is absent. */
  function GroupValue(g: Option<string>): nat
    requires g.Some? ==> AllDigits(g.value)
  {
    match g
    case None => 0
    case Some(d) => DigitsValue(d)
  }

  /** hour * 3600 + minute * 60 + second, minute and second defaulting to 0. */
  function ClockSeconds(c: Clock): (r: nat)
    requires ClockWellFormed(c)
  {
    DigitsValue(c.hour) * 3600 + GroupValue(c.minute) * 60 + GroupValue(c.second)
  }

  /** The (from, to) pair of a parsed range: `!` swaps the two bounds. */
  function Bounds(r: RangeText): (b: (int, int))
    requires RangeWellFormed(r)
  {
    var f := ClockSeconds(r.from);
    var t := ClockSeconds(r.to);
    if r.inverted then (t, f) else (f, t)
  }

  /** `!` only swaps the pair: toggling it on a range swaps its bounds, and
      the range without `!` runs from its first clock to its second. */
  lemma NegationSwaps(r: RangeText)
    requires RangeWellFormed(r)
    ensures RangeWellFormed(r.(inverted := !r.inverted))
    ensures Bounds(r.(inverted := !r.inverted)) == (Bounds(r).1, Bounds(r).0)
    ensures !r.inverted ==> Bounds(r) == (ClockSeconds(r.from), ClockSeconds(r.to))
  {
  }

  // ---------------------------------------------------------------- parsing a window

  /** A parsed window: its ranges in textual order. */
  datatype TimeWindow = TimeWindow(ranges: seq<(int, int)>)

  /** One comma part: strip it, then match it in full. The failure check of
      the source tests the stripped text, never None, instead of the match,
      so a part that does not match ends in an attribute error on None. */
  function ParsePart(part: string): (r: Result<(int, int)>)
    ensures r.Err? <==> ParseRange(Strip(part)).None?
    ensures r.Err? ==> r.error == NoneHasNoAttribute
  {
    match ParseRange(Strip(part))
    case None => Err(NoneHasNoAttribute)
    case Some(rt) => Ok(Bounds(rt))
  }

  /** The results in order: all values when every one is Ok, otherwise the
      first error. */
  function Collect(rs: seq<Result<(int, int)>>): (r: Result<seq<(int, int)>>)
    ensures r.Ok? ==> |r.value| == |rs|
    ensures r.Err? ==> exists k :: 0 <= k < |rs| && rs[k] == Err(r.error)
  {
    if rs == [] then Ok([])
    else
      match Collect(rs[..|rs| - 1])
      case Err(e) =>
        assert forall k :: 0 <= k < |rs| - 1 ==> rs[..|rs| - 1][k] == rs[k];
        Err(e)
      case Ok(vs) =>
        match rs[|rs| - 1]
        case Err(e) => Err(e)
        case Ok(b) => Ok(vs + [b])
  }

  lemma CollectStep(rs: seq<Result<(int, int)>>, i: nat)
    requires i < |rs|
    ensures Collect(rs[..i + 1]) ==
      match Collect(rs[..i])
      case Err(e) => Err(e)
      case Ok(vs) =>
        match rs[i]
        case Err(e) => Err(e)
        case Ok(b) => Ok(vs + [b])
  {
    assert rs[..i + 1][..i] == rs[..i];
  }

  /** A single failed result is the error of the whole. */
  lemma CollectOneErr(rs: seq<Result<(int, int)>>)
    requires |rs| == 1 && rs[0].Err?
    ensures Collect(rs) == Err(rs[0].error)
  {
    assert rs[..0] == [];
  }

  /** One more Ok result extends the collected values. */
  lemma CollectNext(rs: seq<Result<(int, int)>>, i: nat)
    requires i < |rs| && Collect(rs[..i]).Ok? && rs[i].Ok?
    ensures Collect(rs[..i + 1]) == Ok(Collect(rs[..i]).value + [rs[i].value])
  {
    CollectStep(rs, i);
  }

  /** The first failed result after Ok ones is the error of the whole. */
  lemma CollectFails(rs: seq<Result<(int, int)>>, i: nat)
    requires i < |rs| && Collect(rs[..i]).Ok? && rs[i].Err?
    ensures Collect(rs) == Err(rs[i].error)
  {
    CollectStep(rs, i);
    CollectFailAfter(rs, i + 1);
  }

  /** Once a prefix fails, every longer prefix fails with the same error. */
  lemma {:induction false} CollectFailAfter(rs: seq<Result<(int, int)>>, n: nat)
    requires n <= |rs| && Collect(rs[..n]).Err?
    ensures Collect(rs) == Collect(rs[..n])
    decreases |rs| - n
  {
    if n < |rs| {
      CollectStep(rs, n);
      CollectFailAfter(rs, n + 1);
    } else {
      assert rs[..n] == rs;
    }
  }

  /** Collecting succeeds exactly when every result is Ok. */
  lemma {:induction false} CollectOk(rs: seq<Result<(int, int)>>)
    ensures Collect(rs).Ok? <==> forall k :: 0 <= k < |rs| ==> rs[k].Ok?
  {
    if rs != [] {
      var n := |rs| - 1;
      CollectOk(rs[..n]);
      if Collect(rs).Ok? {
        assert Collect(rs[..n]).Ok? && rs[n].Ok?;
        forall k | 0 <= k < |rs| ensures rs[k].Ok? {
          if k < n { assert rs[..n][k] == rs[k]; }
        }
      }
    }
  }

  /** The k-th collected value is the value of the k-th result. */
  lemma {:induction false} CollectInOrder(rs: seq<Result<(int, int)>>, k: nat)
    requires Collect(rs).Ok? && k < |rs|
    ensures rs[k].Ok? && Collect(rs).value[k] == rs[k].value
  {
    var n := |rs| - 1;
    assert Collect(rs[..n]).Ok? && rs[n].Ok?;
    if k < n {
      CollectInOrder(rs[..n], k);
      assert rs[..n][k] == rs[k];
    }
  }

  /** The result of each comma part, in order. */
  function PartResults(parts: seq<string>): (r: seq<Result<(int, int)>>)
    ensures |r| == |parts| && forall k :: 0 <= k < |parts| ==> r[k] == ParsePart(parts[k])
  {
    seq(|parts|, k requires 0 <= k < |parts| => ParsePart(parts[k]))
  }

  /** The parts in order, stopping at the first that fails. */
  function ParseParts(parts: seq<string>): (r: Result<seq<(int, int)>>)
    ensures r.Ok? ==> |r.value| == |parts|
    ensures r.Err? ==> r.error == NoneHasNoAttribute
  {
    Collect(PartResults(parts))
  }

  /** TimeWindow.parse as specified by its parts: it succeeds exactly when
      every comma part matches, and then holds one range per part, in
      textual order. */
  function ParseWindow(text: string): (r: Result<TimeWindow>)
    ensures var parts := Split(text, ',');
      && (r.Ok? <==> forall k :: 0 <= k < |parts| ==> ParsePart(parts[k]).Ok?)
      && (r.Ok? ==> |r.value.ranges| == |parts| && forall k :: 0 <= k < |parts| ==> r.value.ranges[k] == ParsePart(parts[k]).value)
      && (r.Err? ==> r.error == NoneHasNoAttribute)
  {
    var parts := Split(text, ',');
    PartsFacts(parts);
    match ParseParts(parts)
    case Err(e) => Err(e)
    case Ok(rs) => Ok(TimeWindow(rs))
  }

  /** What ParseParts yields, part by part. */
  lemma PartsFacts(parts: seq<string>)
    ensures ParseParts(parts).Ok? <==> forall k :: 0 <= k < |parts| ==> ParsePart(parts[k]).Ok?
    ensures ParseParts(parts).Ok? ==> forall k :: 0 <= k < |parts| ==> ParseParts(parts).value[k] == ParsePart(parts[k]).value
  {
    ParsePartsOk(parts);
    if ParseParts(parts).Ok? {
      forall k | 0 <= k < |parts| ensures ParseParts(parts).value[k] == ParsePart(parts[k]).value {
        ParsePartsInOrder(parts, k);
      }
    }
  }

  /** TimeWindow.parse: the loop over the comma parts, appending each range. */
  method Parse(text: string) returns (r: Result<TimeWindow>)
    ensures r == ParseWindow(text)
  {
    var parts := Split(text, ',');
    ghost var rs := PartResults(parts);
    var ranges: seq<(int, int)> := [];
    var i := 0;
    while i < |parts|
      invariant 0 <= i <= |parts|
      invariant Collect(rs[..i]) == Ok(ranges)
    {
      var rangeText := Strip(parts[i]);
      var result := ParseRange(rangeText);
      assert rs[i] == ParsePart(parts[i]);
      if result.None? {
        CollectFails(rs, i);
        return Err(NoneHasNoAttribute);
      }
      CollectNext(rs, i);
      ranges := ranges + [Bounds(result.value)];
      i := i + 1;
    }
    assert rs[..i] == rs;
    return Ok(TimeWindow(ranges));
  }

  /** A window parses exactly when every comma part matches. */
  lemma ParsePartsOk(parts: seq<string>)
    ensures ParseParts(parts).Ok? <==> forall k :: 0 <= k < |parts| ==> ParsePart(parts[k]).Ok?
  {
    CollectOk(PartResults(parts));
  }

  /** The k-th range of a parsed window is the bounds of the k-th comma
      part, so ranges keep their textual order. */
  lemma ParsePartsInOrder(parts: seq<string>, k: nat)
    requires ParseParts(parts).Ok? && k < |parts|
    ensures ParsePart(parts[k]).Ok? && ParseParts(parts).value[k] == ParsePart(parts[k]).value
  {
    CollectInOrder(PartResults(parts), k);
  }

  /** A failed parse is not a policy error, so the lenient compilation mode
      does not absorb it. */
  lemma ParseFailureEscapes(text: string)
    requires ParseWindow(text).Err?
    ensures !IsPolicyError(ParseWindow(text).error)
  {
  }

  /** A lone hour on its own is not a range: "8" fails with the attribute
      error rather than the time-window error. */
  lemma LoneHourFails()
    ensures ParseWindow("8") == Err(NoneHasNoAttribute)
  {
    assert "8"[1..] == [] && ['8'] + [] == "8";
    assert Split("8", ',') == ["8"];
    LoneHourNoRange();
    var rs := PartResults(["8"]);
    assert rs[0] == ParsePart("8") == Err(NoneHasNoAttribute);
    CollectOneErr(rs);
    assert ParseParts(Split("8", ',')) == Err(NoneHasNoAttribute);
  }

  /** "8" is no range, so its part fails. */
  lemma LoneHourNoRange()
    ensures ParsePart("8").Err?
  {
    assert Strip("8") == "8";
    assert TakeSpaces("8") == ([], "8");
    assert TakeDigits("8") == ("8", []);
    assert ParseGroup([]) == Some((None, []));
    assert ParseClock("8") == Some((Clock("8", None, None), []));
    assert TakeSpaces([]) == ([], []);
    assert ParseDash([]) == None;
    assert ParseBody("8") == None;
    assert ParseRange("8") == None;
  }

  // ---------------------------------------------------------------- satisfaction

  /** One range at second-of-day sec: inclusive when from <= to, and
      outside the closed interval [to, from] when from > to. */
  predicate RangeHolds(b: (int, int), sec: int) {
    if b.0 <= b.1 then b.0 <= sec <= b.1 else !(b.1 <= sec <= b.0)
  }

  /** The window holds when at least one of its ranges does. */
  predicate WindowHolds(w: TimeWindow, sec: int): (b: bool)
    ensures b <==> exists r :: r in w.ranges && RangeHolds(r, sec)
    ensures w.ranges == [] ==> !b
  {
    exists k :: 0 <= k < |w.ranges| && RangeHolds(w.ranges[k], sec)
  }

  /** _second_satisfied: the first range that holds ends the search. */
  method SecondSatisfied(w: TimeWindow, sec: int) returns (b: bool)
    ensures b <==> WindowHolds(w, sec)
  {
    for i := 0 to |w.ranges|
      invariant forall k :: 0 <= k < i ==> !RangeHolds(w.ranges[k], sec)
    {
      var (fromSec, toSec) := w.ranges[i];
      if fromSec <= toSec {
        if fromSec <= sec <= toSec {
          return true;
        }
      } else {
        if !(toSec <= sec <= fromSec) {
          return true;
        }
      }
    }
    return false;
  }

  /** A swapped pair holds strictly before its upper bound or strictly after
      its lower bound. */
  lemma InvertedRange(b: (int, int), sec: int)
    requires b.0 > b.1
    ensures RangeHolds(b, sec) <==> sec < b.1 || sec > b.0
  {
  }

  /** `!` complements a range whose endpoints differ: "!8-13" holds exactly
      where "8-13" does not. */
  lemma NegationComplements(r: RangeText, sec: int)
    requires RangeWellFormed(r) && ClockSeconds(r.from) < ClockSeconds(r.to)
    ensures RangeHolds(Bounds(r.(inverted := !r.inverted)), sec) <==> !RangeHolds(Bounds(r), sec)
  {
  }

  /** With equal endpoints `!` changes nothing: the pair is read as the
      non-inverted one-second range. */
  lemma EqualBoundsIgnoreNegation(r: RangeText, sec: int)
    requires RangeWellFormed(r) && ClockSeconds(r.from) == ClockSeconds(r.to)
    ensures RangeHolds(Bounds(r.(inverted := true)), sec) <==> sec == ClockSeconds(r.from)
    ensures RangeHolds(Bounds(r.(inverted := false)), sec) <==> sec == ClockSeconds(r.from)
  {
  }

  /** A window with no ranges never holds. */
  lemma EmptyWindowNeverHolds(sec: int)
    ensures !WindowHolds(TimeWindow([]), sec)
  {
  }

  /** The instant the compiler is given (datetime.now()). */
  datatype DateTime = DateTime(year: int, month: int, day: int, hour: int, minute: int, second: int, microsecond: int)

  predicate ValidTimeOfDay(t: DateTime) {
    0 <= t.hour < 24 && 0 <= t.minute < 60 && 0 <= t.second < 60
  }

  /** The second of the day of an instant; the date is not consulted. */
  function SecondOfDay(t: DateTime): (sec: int)
    ensures ValidTimeOfDay(t) ==> 0 <= sec <= 86399
  {
    t.hour * 3600 + t.minute * 60 + t.second
  }

  /** TimeWindow.satisfied: the window judged at the instant's second of
      the day. A window without ranges never holds; one that spans the
      whole day holds at every valid instant. */
  predicate Satisfied(w: TimeWindow, t: DateTime): (b: bool)
    ensures w.ranges == [] ==> !b
    ensures (0, 86399) in w.ranges && ValidTimeOfDay(t) ==> b
  {
    WindowHolds(w, SecondOfDay(t))
  }

  /** Two instants with the same time of day are judged alike, whatever
      their dates and sub-second parts. */
  lemma SatisfiedIgnoresDate(w: TimeWindow, t: DateTime, u: DateTime)
    requires t.hour == u.hour && t.minute == u.minute && t.second == u.second
    ensures Satisfied(w, t) <==> Satisfied(w, u)
  {
  }
}
