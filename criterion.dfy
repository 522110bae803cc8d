/** Rule criteria: the `criterion` entry of a rule. A "state" criterion
    matches established and related connections; a "dns-block" criterion
    matches DNS packets naming one of the given hosts, by the host's name in
    DNS wire format (each label preceded by its length octet, as section 3.1
    of RFC 1035 lays out domain names) searched for anywhere in the packet. */
module Criteria {
  import opened Base
  import opened Text
  import opened Json
  import opened Rules

  datatype Kind = State | DnsBlock

  /** A criterion: the dict it was built from and its type. */
  datatype Criterion = Criterion(fields: seq<(string, Value)>, kind: Kind)

  /** CriterionType(value): only the two type names are members. */
  function KindOf(v: Value): (r: Result<Kind>)
    ensures r == Ok(State) <==> v == Str("state")
    ensures r == Ok(DnsBlock) <==> v == Str("dns-block")
    ensures r.Err? ==> r.error == InvalidValue("criterion type")
  {
    if v == Str("state") then Ok(State)
    else if v == Str("dns-block") then Ok(DnsBlock)
    else Err(InvalidValue("criterion type"))
  }

  /** Criterion(value): the type looked up under "type". Only a dict can be
      indexed by a str key here. */
  function FromValue(v: Value): (r: Result<Criterion>)
    ensures r.Ok? <==> v.Obj? && HasKey(v.fields, "type") && KindOf(Lookup(v.fields, "type").value).Ok?
    ensures r.Ok? ==> r.value == Criterion(v.fields, KindOf(Lookup(v.fields, "type").value).value)
    ensures v.Obj? && !HasKey(v.fields, "type") ==> r == Err(KeyMissing("type"))
    ensures !v.Obj? ==> r == Err(WrongKind("criterion"))
  {
    if !v.Obj? then Err(WrongKind("criterion"))
    else
      match Lookup(v.fields, "type")
      case None => Err(KeyMissing("type"))
      case Some(t) =>
        match KindOf(t)
        case Err(e) => Err(e)
        case Ok(k) => Ok(Criterion(v.fields, k))
  }

  // ---------------------------------------------------------------- DNS wire format

  predicate IsAscii(s: string) {
    forall k :: 0 <= k < |s| ==> s[k] as int < 128
  }

  /** str.encode("ascii"). */
  function AsciiBytes(s: string): (r: seq<byte>)
    requires IsAscii(s)
    ensures |r| == |s| && forall k :: 0 <= k < |s| ==> r[k] == s[k] as int
  {
    seq(|s|, k requires 0 <= k < |s| => s[k] as int as byte)
  }

  /** bytes.decode("ascii"). */
  function AsciiChars(bs: seq<byte>): (r: string)
    ensures |r| == |bs| && forall k :: 0 <= k < |bs| ==> r[k] as int == bs[k]
  {
    seq(|bs|, k requires 0 <= k < |bs| => bs[k] as char)
  }

  /** One label on the wire: its length octet, then its ASCII bytes. A
      non-ASCII label fails to encode, and a length beyond one octet is
      refused by the byte array. */
  function LabelBytes(part: string): (r: Result<seq<byte>>)
    ensures r.Ok? <==> IsAscii(part) && |part| <= 255
    ensures r.Ok? ==> |r.value| == |part| + 1 && r.value[0] == |part| && AsciiChars(r.value[1..]) == part
    ensures !IsAscii(part) ==> r == Err(NotAscii(part))
    ensures IsAscii(part) && |part| > 255 ==> r == Err(InvalidValue("byte must be in range(0, 256)"))
  {
    if !IsAscii(part) then Err(NotAscii(part))
    else if |part| > 255 then Err(InvalidValue("byte must be in range(0, 256)"))
    else
      var r := [|part| as byte] + AsciiBytes(part);
      assert r[1..] == AsciiBytes(part);
      Ok(r)
  }

  /** The concatenation of byte strings. */
  function Flatten(parts: seq<seq<byte>>): seq<byte> {
    if parts == [] then [] else parts[0] + Flatten(parts[1..])
  }

  /** The wire form of a host name: its dot-separated labels one after the
      other, or the error of the first label that cannot be encoded. */
  function WireName(hostname: string): (r: Result<seq<byte>>) {
    var labels, f := Split(hostname, '.'), LabelBytes;
    match MapAll(labels, f)
    case Err(e) => Err(e)
    case Ok(parts) => Ok(Flatten(parts))
  }

  /** The encoding loop of apply: a byte array grown label by label. */
  method EncodeName(hostname: string) returns (r: Result<seq<byte>>)
    ensures r == WireName(hostname)
  {
    var labels, f := Split(hostname, '.'), LabelBytes;
    var data: seq<byte> := [];
    ghost var parts: seq<seq<byte>> := [];
    for i := 0 to |labels|
      invariant MapAll(labels[..i], f) == Ok(parts)
      invariant Flatten(parts) == data
    {
      var part := labels[i];
      if !IsAscii(part) || |part| > 255 {
        MapAllStops(labels, f, i);
        r := if !IsAscii(part) then Err(NotAscii(part)) else Err(InvalidValue("byte must be in range(0, 256)"));
        return;
      }
      var encoded := AsciiBytes(part);
      ghost var before := data;
      data := data + [|part| as byte];
      data := data + encoded;
      LabelStep(labels, i, parts, before);
      parts := parts + [[|part| as byte] + encoded];
    }
    assert labels[..|labels|] == labels;
    return Ok(data);
  }

  /** One more label that encodes extends both the parts and the bytes. */
  lemma LabelStep(labels: seq<string>, i: nat, parts: seq<seq<byte>>, data: seq<byte>)
    requires i < |labels| && IsAscii(labels[i]) && |labels[i]| <= 255
    requires MapAll(labels[..i], LabelBytes) == Ok(parts) && Flatten(parts) == data
    ensures MapAll(labels[..i + 1], LabelBytes) == Ok(parts + [[|labels[i]| as byte] + AsciiBytes(labels[i])])
    ensures Flatten(parts + [[|labels[i]| as byte] + AsciiBytes(labels[i])]) == data + [|labels[i]| as byte] + AsciiBytes(labels[i])
  {
    var p := [|labels[i]| as byte] + AsciiBytes(labels[i]);
    assert LabelBytes(labels[i]) == Ok(p);
    MapAllSnoc(labels, LabelBytes, i);
    FlattenSnoc(parts, p);
    assert data + p == data + [|labels[i]| as byte] + AsciiBytes(labels[i]);
  }

  lemma {:induction false} FlattenSnoc(parts: seq<seq<byte>>, p: seq<byte>)
    ensures Flatten(parts + [p]) == Flatten(parts) + p
  {
    if parts != [] {
      assert (parts + [p])[1..] == parts[1..] + [p];
      FlattenSnoc(parts[1..], p);
    }
  }

  /** Read labels back off the wire: a length octet, then that many bytes. */
  function Decode(wire: seq<byte>): Option<seq<string>>
    decreases |wire|
  {
    if wire == [] then Some([])
    else
      var n := wire[0] as int;
      if |wire| < 1 + n then None
      else
        match Decode(wire[1 + n..])
        case None => None
        case Some(rest) => Some([AsciiChars(wire[1..1 + n])] + rest)
  }

  lemma {:induction false} DecodeFlatten(labels: seq<string>, parts: seq<seq<byte>>)
    requires |parts| == |labels|
    requires forall k :: 0 <= k < |labels| ==> LabelBytes(labels[k]) == Ok(parts[k])
    ensures Decode(Flatten(parts)) == Some(labels)
    ensures labels != [] ==> |Flatten(parts)| == |Join(labels, '.')| + 1
  {
    if labels != [] {
      DecodeFlatten(labels[1..], parts[1..]);
      var w := Flatten(parts);
      assert LabelBytes(labels[0]) == Ok(parts[0]);
      assert w == parts[0] + Flatten(parts[1..]);
      assert w[0] == |labels[0]|;
      assert w[1 + w[0]..] == Flatten(parts[1..]);
      assert w[1..1 + w[0]] == parts[0][1..];
      assert |parts[0]| == |labels[0]| + 1;
      assert labels == [labels[0]] + labels[1..];
      assert Decode(w) == Some([labels[0]] + labels[1..]);
      if |labels| == 1 {
        assert labels[1..] == [] && parts[1..] == [];
        assert w == parts[0];
      } else {
        assert Join(labels, '.') == labels[0] + ['.'] + Join(labels[1..], '.');
        assert labels[1..] != [];
        assert |Flatten(parts[1..])| == |Join(labels[1..], '.')| + 1;
      }
    }
  }

  /** The wire form decodes back to the labels, and joining them with dots
      gives the host name again. */
  lemma WireNameDecodes(hostname: string)
    requires WireName(hostname).Ok?
    ensures Decode(WireName(hostname).value) == Some(Split(hostname, '.'))
    ensures Join(Split(hostname, '.'), '.') == hostname
  {
    var labels, f := Split(hostname, '.'), LabelBytes;
    assert forall k :: 0 <= k < |labels| ==> f(labels[k]) == LabelBytes(labels[k]);
    var parts := MapAll(labels, f).value;
    DecodeFlatten(labels, parts);
    JoinSplit(hostname, '.');
  }

  /** The wire form is one byte longer than the host name: every dot
      becomes the next part's length octet, and the first part adds one. */
  lemma WireNameLength(hostname: string)
    requires WireName(hostname).Ok?
    ensures |WireName(hostname).value| == |hostname| + 1
  {
    var labels, f := Split(hostname, '.'), LabelBytes;
    assert forall k :: 0 <= k < |labels| ==> f(labels[k]) == LabelBytes(labels[k]);
    var parts := MapAll(labels, f).value;
    DecodeFlatten(labels, parts);
    JoinSplit(hostname, '.');
  }

  // ---------------------------------------------------------------- apply

  const StateFragment: Fragment := ["--match", "state", "--state", "ESTABLISHED,RELATED"]

  const DnsGroup := "layer7 DNS blocking"

  /** The string match for the given packet bytes, hex-encoded between bars. */
  function StringMatch(w: seq<byte>): (r: Fragment)
    ensures |r| == 7 && r[3] == "|" + Hex(w) + "|"
  {
    ["--match", "string", "--hex-string", "|" + Hex(w) + "|", "--algo", "bm", "--icase"]
  }

  /** The string match of one blocked host name. */
  function DnsFragment(hostname: string): (r: Result<Fragment>)
    ensures r.Ok? <==> WireName(hostname).Ok?
    ensures r.Err? ==> r.error == WireName(hostname).error
    ensures r.Ok? ==> r.value == StringMatch(WireName(hostname).value)
  {
    match WireName(hostname)
    case Err(e) => Err(e)
    case Ok(w) => Ok(StringMatch(w))
  }

  /** The components apply appends to a rule, or the error it raises. */
  function Components(c: Criterion): (r: Result<seq<Axis>>) {
    match c.kind
    case State =>
      (match Lookup(c.fields, "state")
       case None => Err(KeyMissing("state"))
       case Some(v) =>
         if v == Str("established/related") then Ok(FixedAxes([StateFragment]))
         else Err(NotImplemented(PyStr(v))))
    case DnsBlock =>
      (match Lookup(c.fields, "dns-name")
       case None => Err(KeyMissing("dns-name"))
       case Some(Str(names)) =>
         var hosts, f := Split(names, ','), DnsFragment;
         (match MapAll(hosts, f)
          case Err(e) => Err(e)
          case Ok(fs) => Ok([Axis(Some(DnsGroup), fs)]))
       case Some(_) => Err(WrongKind("dns-name")))
  }

  /** A state criterion contributes one fixed component, a dns-block
      criterion one group of alternatives named after it. */
  lemma ComponentsShape(c: Criterion)
    requires Components(c).Ok?
    ensures c.kind == State ==> Components(c).value == FixedAxes([StateFragment])
    ensures c.kind == DnsBlock ==> |Components(c).value| == 1 && Components(c).value[0].name == Some(DnsGroup)
  {
    match c.kind
    case State =>
    case DnsBlock =>
      match Lookup(c.fields, "dns-name")
      case Some(Str(names)) =>
  }

  /** apply: the components are appended to the rule. A failure can leave
      a partly filled group behind; the rule is then discarded. */
  method Apply(c: Criterion, rule: Rule) returns (o: Outcome)
    requires rule.Valid()
    modifies rule
    ensures rule.Valid()
    ensures o.Pass? <==> Components(c).Ok?
    ensures o.Fail? ==> o.error == Components(c).error
    ensures o.Pass? ==> rule.Axes() == old(rule.Axes()) + Components(c).value
  {
    match c.kind
    case State =>
      o := ApplyState(c.fields, rule);
    case DnsBlock =>
      o := ApplyDns(c.fields, rule);
  }

  /** The state branch of apply. */
  method ApplyState(fields: seq<(string, Value)>, rule: Rule) returns (o: Outcome)
    requires rule.Valid()
    modifies rule
    ensures rule.Valid()
    ensures o.Pass? <==> Components(Criterion(fields, State)).Ok?
    ensures o.Fail? ==> o.error == Components(Criterion(fields, State)).error
    ensures o.Pass? ==> rule.Axes() == old(rule.Axes()) + Components(Criterion(fields, State)).value
  {
    var state := Lookup(fields, "state");
    if state.None? {
      o := Fail(KeyMissing("state"));
    } else if state.value == Str("established/related") {
      rule.AddFixed([StateFragment]);
      o := Pass;
    } else {
      o := Fail(NotImplemented(PyStr(state.value)));
    }
  }

  /** The dns-block branch of apply up to the host names. */
  method ApplyDns(fields: seq<(string, Value)>, rule: Rule) returns (o: Outcome)
    requires rule.Valid()
    modifies rule
    ensures rule.Valid()
    ensures o.Pass? <==> Components(Criterion(fields, DnsBlock)).Ok?
    ensures o.Fail? ==> o.error == Components(Criterion(fields, DnsBlock)).error
    ensures o.Pass? ==> rule.Axes() == old(rule.Axes()) + Components(Criterion(fields, DnsBlock)).value
  {
    var name := Lookup(fields, "dns-name");
    if name.None? {
      o := Fail(KeyMissing("dns-name"));
    } else if !name.value.Str? {
      o := Fail(WrongKind("dns-name"));
    } else {
      ghost var m := MapAll(Split(name.value.s, ','), DnsFragment);
      assert Components(Criterion(fields, DnsBlock)) == if m.Err? then Err(m.error) else Ok([Axis(Some(DnsGroup), m.value)]);
      o := BlockNames(name.value.s, rule);
    }
  }

  /** The dns-block branch of apply: one group, grown by one string match
      per comma-separated host name. */
  method BlockNames(names: string, rule: Rule) returns (o: Outcome)
    requires rule.Valid()
    modifies rule
    ensures rule.Valid()
    ensures o.Pass? <==> MapAll(Split(names, ','), DnsFragment).Ok?
    ensures o.Fail? ==> o.error == MapAll(Split(names, ','), DnsFragment).error
    ensures o.Pass? ==> rule.Axes() == old(rule.Axes()) + [Axis(Some(DnsGroup), MapAll(Split(names, ','), DnsFragment).value)]
  {
    ghost var before := rule.Axes();
    var group := rule.AddGroup(DnsGroup, []);
    o := AddBlockedNames(rule, group, Split(names, ','), DnsFragment, before, Some(DnsGroup));
    if o.Pass? {
      ghost var v := MapAll(Split(names, ','), DnsFragment).value;
      assert [] + v == v;
    }
  }

  /** The host names' fragments appended one by one to the group just
      added, which is the rule's last component, named `name` after the
      components `prefix`; the first name whose fragment cannot be built
      stops the loop. */
  method AddBlockedNames(rule: Rule, group: Group, hosts: seq<string>, f: string -> Result<Fragment>, ghost prefix: seq<Axis>, ghost name: Option<string>) returns (o: Outcome)
    requires rule.Valid() && |rule.groups| > 0 && group == rule.groups[|rule.groups| - 1]
    requires rule.Axes() == prefix + [Axis(name, group.members)]
    modifies rule, group
    ensures rule.Valid()
    ensures o.Pass? <==> MapAll(hosts, f).Ok?
    ensures o.Fail? ==> o.error == MapAll(hosts, f).error
    ensures o.Pass? ==> rule.Axes() == prefix + [Axis(name, old(group.members) + MapAll(hosts, f).value)]
  {
    ghost var start := group.members;
    ghost var frags: seq<Fragment> := [];
    for i := 0 to |hosts|
      invariant rule.Valid() && rule.groups == old(rule.groups)
      invariant group.members == start + frags
      invariant MapAll(hosts[..i], f) == Ok(frags)
      invariant rule.Axes() == prefix + [Axis(name, group.members)]
    {
      var r := f(hosts[i]);
      if r.Err? {
        MapAllStops(hosts, f, i);
        return Fail(r.error);
      }
      GrowLast(rule, group, r.value, prefix, name);
      MapAllSnoc(hosts, f, i);
      assert start + (frags + [r.value]) == start + frags + [r.value];
      frags := frags + [r.value];
    }
    assert hosts[..|hosts|] == hosts;
    return Pass;
  }

  /** The last component, after the components `prefix`, grown by one
      alternative. */
  method GrowLast(rule: Rule, group: Group, f: Fragment, ghost prefix: seq<Axis>, ghost name: Option<string>)
    requires rule.Valid() && |rule.groups| > 0 && group == rule.groups[|rule.groups| - 1]
    requires rule.Axes() == prefix + [Axis(name, group.members)]
    modifies rule, group
    ensures rule.Valid() && rule.groups == old(rule.groups)
    ensures group.members == old(group.members) + [f]
    ensures rule.Axes() == prefix + [Axis(name, group.members)]
  {
    ghost var k := |rule.groups| - 1;
    assert rule.Axes()[k] == Axis(rule.names[k], group.members);
    assert rule.Axes()[..k] == prefix;
    rule.AppendLast(group, f);
  }

  /** A state criterion adds the one fixed component. */
  lemma StateAddsOneFixed(fields: seq<(string, Value)>)
    requires Lookup(fields, "state") == Some(Str("established/related"))
    ensures Components(Criterion(fields, State)) == Ok([Axis(None, [["--match", "state", "--state", "ESTABLISHED,RELATED"]])])
  {
    assert FixedAxes([StateFragment]) == [Axis(None, [StateFragment])];
  }

  /** A dns-block criterion adds one group with one alternative per
      comma-separated host name, in the order given. */
  lemma DnsAddsOneGroup(fields: seq<(string, Value)>, names: string)
    requires Lookup(fields, "dns-name") == Some(Str(names))
    requires Components(Criterion(fields, DnsBlock)).Ok?
    ensures |Components(Criterion(fields, DnsBlock)).value| == 1
    ensures Components(Criterion(fields, DnsBlock)).value[0].name == Some(DnsGroup)
    ensures |Components(Criterion(fields, DnsBlock)).value[0].alts| == |Split(names, ',')|
    ensures forall k :: 0 <= k < |Split(names, ',')| ==>
      DnsFragment(Split(names, ',')[k]) == Ok(Components(Criterion(fields, DnsBlock)).value[0].alts[k])
  {
    var hosts, f := Split(names, ','), DnsFragment;
    assert forall k :: 0 <= k < |hosts| ==> f(hosts[k]) == DnsFragment(hosts[k]);
  }

  /** "a.bc" splits at its dot into the labels "a" and "bc". */
  lemma SplitExample()
    ensures Split("a.bc", '.') == ["a", "bc"]
  {
    assert "a.bc"[1..] == ".bc" && ".bc"[1..] == "bc" && "bc"[1..] == "c" && "c"[1..] == "";
    assert ['c'] + "" == "c" && ['b'] + "c" == "bc" && ['a'] + "" == "a";
    assert Split("", '.') == [""];
    assert Split("c", '.') == ["c"];
    assert Split("bc", '.') == ["bc"];
    assert Split(".bc", '.') == ["", "bc"];
  }

  lemma LabelExample()
    ensures LabelBytes("a") == Ok([1, 0x61])
    ensures LabelBytes("bc") == Ok([2, 0x62, 0x63])
  {
    assert IsAscii("a") && IsAscii("bc");
    assert AsciiBytes("a") == [0x61];
    assert AsciiBytes("bc") == [0x62, 0x63];
    assert [1 as byte] + [0x61 as byte] == [1, 0x61];
    assert [2 as byte] + [0x62 as byte, 0x63] == [2, 0x62, 0x63];
  }

  lemma WireExample()
    ensures WireName("a.bc") == Ok([1, 0x61, 2, 0x62, 0x63])
  {
    SplitExample();
    LabelExample();
    var a: seq<byte>, b: seq<byte> := [1, 0x61], [2, 0x62, 0x63];
    var hs, f := ["a", "bc"], LabelBytes;
    MapAllValues(hs, f, [a, b]);
    assert [a, b][1..] == [b] && [b][1..] == [];
    assert Flatten([b]) == b;
    assert Flatten([a, b]) == a + b;
    assert a + b == [1, 0x61, 2, 0x62, 0x63];
  }

  /** The string match for "a.bc" searches for the hex bytes 0161026263. */
  lemma HexExample()
    ensures Hex([1, 0x61, 2, 0x62, 0x63]) == "0161026263"
  {
    var w: seq<byte> := [1, 0x61, 2, 0x62, 0x63];
    assert w[1..] == [0x61, 2, 0x62, 0x63];
    assert Hex([0x63]) == "63";
    assert Hex([0x62, 0x63]) == "6263";
    assert Hex([2, 0x62, 0x63]) == "026263";
    assert Hex([0x61, 2, 0x62, 0x63]) == "61026263";
  }

  lemma FragmentExample()
    ensures DnsFragment("a.bc") == Ok(["--match", "string", "--hex-string", "|0161026263|", "--algo", "bm", "--icase"])
  {
    WireExample();
    HexExample();
    assert "|" + "0161026263" + "|" == "|0161026263|";
  }
}
