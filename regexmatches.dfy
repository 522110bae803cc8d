/** Port-forward targets: a hostname, then optionally a colon and a port
    that may carry a sign; a sign makes the port an offset from the
    incoming port. The whole text must match. */
module RegexMatches {
  import opened Base
  import opened Text

  predicate IsLetter(c: char) { ('a' <= c <= 'z') || ('A' <= c <= 'Z') }

  predicate IsHostChar(c: char) { IsLetter(c) || IsDigit(c) || c == '.' }

  /** The pieces the pattern captures: the hostname and, when present, the
      sign and the digits of the port. */
  datatype TargetText = TargetText(hostname: string, port: Option<(Option<char>, string)>)

  predicate IsHostname(h: string) {
    |h| >= 1 && IsLetter(h[0]) && forall k :: 0 <= k < |h| ==> IsHostChar(h[k])
  }

  predicate IsPortText(sign: Option<char>, digits: string) {
    (sign.None? || sign.value == '+' || sign.value == '-') && |digits| >= 1 && AllDigits(digits)
  }

  predicate WellFormed(t: TargetText) {
    IsHostname(t.hostname) && (t.port.Some? ==> IsPortText(t.port.value.0, t.port.value.1))
  }

  function SignText(sign: Option<char>): string {
    if sign.Some? then [sign.value] else ""
  }

  /** The text a match covers. */
  function RenderText(t: TargetText): string {
    match t.port
    case None => t.hostname
    case Some(p) => t.hostname + [':'] + SignText(p.0) + p.1
  }

  /** The port after the colon: an optional sign, then one or more digits. */
  function MatchPort(s: string): (r: Option<(Option<char>, string)>)
    ensures r.Some? ==> IsPortText(r.value.0, r.value.1) && SignText(r.value.0) + r.value.1 == s
  {
    if |s| >= 1 && (s[0] == '+' || s[0] == '-') then
      if |s| >= 2 && AllDigits(s[1..]) then
        assert [s[0]] + s[1..] == s;
        Some((Some(s[0]), s[1..]))
      else None
    else if |s| >= 1 && AllDigits(s) then Some((None, s))
    else None
  }

  /** A target with a port renders as the hostname, a colon and the port text. */
  lemma RenderPort(h: string, p: (Option<char>, string))
    ensures RenderText(TargetText(h, Some(p))) == h + [':'] + (SignText(p.0) + p.1)
  {
    assert h + [':'] + SignText(p.0) + p.1 == h + [':'] + (SignText(p.0) + p.1);
  }

  /** fullmatch of the target pattern. No host character is a colon, so the
      hostname is everything before the first colon. */
  function MatchTarget(s: string): (r: Option<TargetText>)
    ensures r.Some? ==> WellFormed(r.value) && RenderText(r.value) == s
  {
    match SplitFirst(s, ':')
    case None => if IsHostname(s) then Some(TargetText(s, None)) else None
    case Some(parts) =>
      if IsHostname(parts.0) then
        match MatchPort(parts.1)
        case None => None
        case Some(p) =>
          RenderPort(parts.0, p);
          Some(TargetText(parts.0, Some(p)))
      else None
  }

  /** Every well-formed target text matches, with the same captures. */
  lemma MatchRender(t: TargetText)
    requires WellFormed(t)
    ensures MatchTarget(RenderText(t)) == Some(t)
  {
    assert forall k :: 0 <= k < |t.hostname| ==> t.hostname[k] != ':';
    match t.port
    case None =>
    case Some(p) =>
      var rest := SignText(p.0) + p.1;
      assert RenderText(t) == t.hostname + [':'] + rest;
      SplitFirstOf(t.hostname, rest, ':');
      if p.0.Some? {
        assert rest[0] == p.0.value && rest[1..] == p.1;
      } else {
        assert rest == p.1 && IsDigit(rest[0]);
      }
  }

  /** The converted captures: the port as an int with its sign applied,
      and the sign itself, which marks the port as relative. */
  datatype ForwardTarget = ForwardTarget(hostname: string, port: Option<int>, relative: Option<char>)

  /** PortforwardTarget(text); a text that does not match raises the
      unknown-type error. */
  function ParseTarget(s: string): (r: Result<ForwardTarget>)
    ensures r.Err? <==> MatchTarget(s).None?
    ensures r.Err? ==> r.error == UnknownType("PortforwardTarget")
    ensures r.Ok? ==> r.value.hostname == MatchTarget(s).value.hostname
    ensures r.Ok? ==> (r.value.port.Some? <==> MatchTarget(s).value.port.Some?)
    ensures r.Ok? ==> r.value.relative == (match MatchTarget(s).value.port case None => None case Some(p) => p.0)
  {
    match MatchTarget(s)
    case None => Err(UnknownType("PortforwardTarget"))
    case Some(t) =>
      match t.port
      case None => Ok(ForwardTarget(t.hostname, None, None))
      case Some(p) => Ok(ForwardTarget(t.hostname, Some(PortValue(p.0, p.1)), p.0))
  }

  /** int() of the port text, sign included: the digits' value, negated
      after a minus. */
  function PortValue(sign: Option<char>, digits: string): (n: int)
    requires IsPortText(sign, digits)
    ensures ParseInt(SignText(sign) + digits) == Some(n)
  {
    var s := SignText(sign) + digits;
    if sign.Some? then
      assert s[0] == sign.value && s[1..] == digits;
      if sign == Some('-') then 0 - DigitsValue(digits) else DigitsValue(digits)
    else
      assert s == digits && IsDigit(s[0]);
      DigitsValue(digits)
  }

  /** Parsing a rendered target gives back its hostname, its sign as the
      relative marker and the signed value of its port. */
  lemma ParseRendered(t: TargetText)
    requires WellFormed(t)
    ensures ParseTarget(RenderText(t)).Ok?
    ensures ParseTarget(RenderText(t)).value.hostname == t.hostname
    ensures ParseTarget(RenderText(t)).value.relative == (if t.port.Some? then t.port.value.0 else None)
    ensures t.port.None? ==> ParseTarget(RenderText(t)).value.port == None
    ensures t.port.Some? ==> ParseTarget(RenderText(t)).value.port == ParseInt(SignText(t.port.value.0) + t.port.value.1)
  {
    MatchRender(t);
  }

  /** "fw:+5" is relative with offset 5. */
  lemma RelativeExample()
    ensures ParseTarget("fw:+5") == Ok(ForwardTarget("fw", Some(5), Some('+')))
  {
    var t := TargetText("fw", Some((Some('+'), "5")));
    assert RenderText(t) == "fw:+5";
    ParseRendered(t);
    assert SignText(Some('+')) + "5" == ['+', '5'];
    DigitExample('+', '5', 5);
    var r := ParseTarget(RenderText(t));
    assert r.value.port == Some(5) && r.value.hostname == "fw" && r.value.relative == Some('+');
  }

  /** A sign and one digit read as that digit's value with the sign. */
  lemma DigitExample(sign: char, d: char, n: nat)
    requires IsDigit(d) && n == d as int - '0' as int && (sign == '+' || sign == '-')
    ensures ParseInt([sign, d]) == Some(if sign == '-' then 0 - n else n)
  {
    var s := [sign, d];
    assert s[0] == sign && s[1..] == [d];
    assert [d][..0] == [];
    assert AllDigits([d]) && DigitsValue([d]) == n;
  }

  /** "fw:-3" is relative with offset -3. */
  lemma NegativeExample()
    ensures ParseTarget("fw:-3") == Ok(ForwardTarget("fw", Some(-3), Some('-')))
  {
    var t := TargetText("fw", Some((Some('-'), "3")));
    assert RenderText(t) == "fw:-3";
    ParseRendered(t);
    assert SignText(Some('-')) + "3" == ['-', '3'];
    DigitExample('-', '3', 3);
    var r := ParseTarget(RenderText(t));
    assert r.value.port == Some(-3) && r.value.hostname == "fw" && r.value.relative == Some('-');
  }

  /** A hostname must start with a letter. */
  lemma DigitHostExample()
    ensures ParseTarget("1fw") == Err(UnknownType("PortforwardTarget"))
  {
    assert !IsLetter("1fw"[0]);
  }
}
