/** The rule compiler. Each entry of a chain's "rules" list is a dict whose
    fields are handed to their parsers (a table of simple parsers, which
    see only the value, and a table of parsers that also consult the
    configuration); the parsed entry is checked for contradictory or
    missing options, and inserting it builds one rule whose components
    come in a fixed order. Before any entry is compiled every chain is
    flushed and given its default policy; the lenient mode logs and skips
    an entry that raises one of the compiler's own errors. */
module Firewalls {
  import opened Base
  import opened Text
  import opened Sorting
  import opened Json
  import opened Rules
  import Chains
  import Protocols
  import MultiEnums
  import Conditions
  import RegexMatches
  import Criteria
  import Interfaces
  import Hostnames
  import Services
  import TimeWindows

  // ---------------------------------------------------------------- actions

  datatype RuleType = Accept | Reject | Drop | Log | Masquerade | PortForward

  /** The enum value of each member. */
  function ActionValue(a: RuleType): string {
    match a
    case Accept => "accept"
    case Reject => "reject"
    case Drop => "drop"
    case Log => "log"
    case Masquerade => "masquerade"
    case PortForward => "port-forward"
  }

  /** RuleType(value): the member with that value; anything else, of any
      kind, raises ValueError. */
  function ParseAction(v: Value): (r: Result<RuleType>)
    ensures r.Ok? ==> v == Str(ActionValue(r.value))
    ensures r.Err? ==> r.error == InvalidValue("RuleType") && forall a :: v != Str(ActionValue(a))
  {
    if v == Str("accept") then Ok(Accept)
    else if v == Str("reject") then Ok(Reject)
    else if v == Str("drop") then Ok(Drop)
    else if v == Str("log") then Ok(Log)
    else if v == Str("masquerade") then Ok(Masquerade)
    else if v == Str("port-forward") then Ok(PortForward)
    else Err(InvalidValue("RuleType"))
  }

  /** Every member is parsed back from its value. */
  lemma ParseActionValue(a: RuleType)
    ensures ParseAction(Str(ActionValue(a))) == Ok(a)
  {
  }

  // ---------------------------------------------------------------- the configuration and the outside world

  /** The parts of the loaded document the parsers consult: the device to
      logical-name table, its inversion, and the host aliases. */
  datatype Config = Config(interfaces: Interfaces.Table, interfacesRev: map<string, string>, hosts: map<string, Hostnames.HostEntry>)

  /** The configuration of a loaded document: "interfaces-rev" is the
      "interfaces" table turned round. */
  function ConfigOf(interfaces: Interfaces.Table, hosts: map<string, Hostnames.HostEntry>): (c: Config)
    ensures forall l :: l in c.interfacesRev <==> exists k :: 0 <= k < |interfaces| && interfaces[k].1 == l
  {
    Config(interfaces, Interfaces.Reversed(interfaces), hosts)
  }

  /** What the compiler learns from outside the document: the services
      catalog, the host-name resolver and the interface-address query. */
  datatype World = World(catalog: Services.Catalog, resolve: Hostnames.Resolver, query: Interfaces.Query)

  // ---------------------------------------------------------------- parsed fields

  /** A parsed field value, one kind per parser class. `comment` and `msg`
      are texts; the three interface keys keep the selected devices, whose
      addresses are only queried when the rule is inserted. */
  datatype Attr =
    | ActionAttr(action: RuleType)
    | ProtoAttr(protos: seq<string>)
    | CriterionAttr(criterion: Criteria.Criterion)
    | TextAttr(text: string)
    | ServiceAttr(views: seq<Services.PortView>)
    | IcmpAttr(types: seq<MultiEnums.IcmpType>)
    | CondAttr(cond: Conditions.Condition)
    | TargetAttr(target: RegexMatches.ForwardTarget)
    | HostAttr(host: Hostnames.Hostname)
    | DevicesAttr(devices: seq<string>)

  /** Keys starting with an underscore are comments of the document. */
  predicate IsPrivate(key: string) {
    |key| > 0 && key[0] == '_'
  }

  predicate IsServiceKey(key: string) {
    key == "dest-service" || key == "src-service"
  }

  predicate IsHostKey(key: string) {
    key == "dest-host" || key == "src-host"
  }

  predicate IsDevicesKey(key: string) {
    key == "dest-net" || key == "src-net" || key == "dest-ifaddr" || key == "src-ifaddr" || key == "dest-if" || key == "src-if"
  }

  /** The keys of the table of parsers that see only the value. */
  predicate IsSimpleKey(key: string) {
    key == "action" || key == "proto" || key == "criterion" || key == "comment" || IsServiceKey(key)
    || key == "icmp-type" || key == "cond" || key == "forward-to" || key == "msg"
  }

  /** The keys of the table of parsers that also consult the configuration. */
  predicate IsComplexKey(key: string) {
    IsHostKey(key) || IsDevicesKey(key)
  }

  /** The kind of value each key's parser produces. */
  predicate Fits(key: string, a: Attr) {
    && (key == "action" ==> a.ActionAttr?)
    && (key == "proto" ==> a.ProtoAttr?)
    && (key == "criterion" ==> a.CriterionAttr?)
    && (key == "comment" || key == "msg" ==> a.TextAttr?)
    && (IsServiceKey(key) ==> a.ServiceAttr?)
    && (key == "icmp-type" ==> a.IcmpAttr?)
    && (key == "cond" ==> a.CondAttr?)
    && (key == "forward-to" ==> a.TargetAttr?)
    && (IsHostKey(key) ==> a.HostAttr?)
    && (IsDevicesKey(key) ==> a.DevicesAttr?)
  }

  predicate WellTyped(p: map<string, Attr>) {
    forall key :: key in p ==> Fits(key, p[key])
  }

  /** The str a splitting parser needs. */
  function StrValue(key: string, v: Value): (r: Result<string>)
    ensures r.Ok? <==> v.Str?
    ensures r.Ok? ==> r.value == v.s
    ensures r.Err? ==> r.error == WrongKind(key)
  {
    if v.Str? then Ok(v.s) else Err(WrongKind(key))
  }

  /** The parsers that work on the value alone; a key in neither table
      raises the unknown-type error. */
  function PlainConverted(key: string, v: Value): (r: Result<Attr>)
    requires !IsServiceKey(key) && !IsComplexKey(key)
    ensures r.Ok? ==> IsSimpleKey(key) && Fits(key, r.value)
    ensures !IsSimpleKey(key) ==> r == Err(UnknownType(key))
  {
    if key == "action" then
      var a :- ParseAction(v);
      Ok(ActionAttr(a))
    else if key == "proto" then
      var s :- StrValue(key, v);
      var ps :- Protocols.Parse(s);
      Ok(ProtoAttr(ps))
    else if key == "criterion" then
      var c :- Criteria.FromValue(v);
      Ok(CriterionAttr(c))
    else if key == "comment" || key == "msg" then
      Ok(TextAttr(PyStr(v)))
    else if key == "icmp-type" then
      var s :- StrValue(key, v);
      var ts :- MultiEnums.Parse(s);
      Ok(IcmpAttr(ts))
    else if key == "cond" then
      var c :- Conditions.FromValue(v);
      Ok(CondAttr(c))
    else if key == "forward-to" then
      var s :- StrValue(key, v);
      var t :- RegexMatches.ParseTarget(s);
      Ok(TargetAttr(t))
    else
      Err(UnknownType(key))
  }

  /** Hostname(text, config): the sorted addresses of the text. */
  ghost function Host(text: string, config: Config, resolve: Hostnames.Resolver): (h: Hostnames.Hostname)
    ensures forall a :: a in h.addresses <==> a in Hostnames.Addresses(text, config.hosts, resolve)
  {
    Hostnames.Hostname(SortedSetStr(Hostnames.Addresses(text, config.hosts, resolve)))
  }

  /** One field through its parser. A service is read at once: its port
      maps are frozen and each protocol's view taken. */
  ghost function Converted(key: string, v: Value, config: Config, world: World): (r: Result<Attr>)
    ensures r.Ok? ==> (IsSimpleKey(key) || IsComplexKey(key)) && Fits(key, r.value)
    ensures !IsSimpleKey(key) && !IsComplexKey(key) ==> r == Err(UnknownType(key))
  {
    if IsServiceKey(key) then
      var s :- StrValue(key, v);
      var c :- Services.Collected(Split(s, ','), world.catalog);
      Ok(ServiceAttr(Services.Views(c)))
    else if IsHostKey(key) then
      var s :- StrValue(key, v);
      Ok(HostAttr(Host(s, config, world.resolve)))
    else if IsDevicesKey(key) then
      var s :- StrValue(key, v);
      var d :- Interfaces.Selected(Split(s, ','), config.interfaces, config.interfacesRev);
      Ok(DevicesAttr(SortedSetStr(d)))
    else
      PlainConverted(key, v)
  }

  /** A key with what its parser gave for it. */
  type Conversion = (string, Result<Attr>)

  /** Every parser result fits its key. */
  predicate FitEntries(entries: seq<Conversion>) {
    forall k :: 0 <= k < |entries| && entries[k].1.Ok? ==>
      (IsSimpleKey(entries[k].0) || IsComplexKey(entries[k].0)) && Fits(entries[k].0, entries[k].1.value)
  }

  /** The dispatch loop over the parser results, in order: private keys
      skipped, every other one stored, the first failure raised. */
  function Stored(entries: seq<Conversion>): (r: Result<map<string, Attr>>)
    ensures r.Ok? && FitEntries(entries) ==> WellTyped(r.value)
    ensures r.Ok? && FitEntries(entries) ==> forall key :: key in r.value ==> IsSimpleKey(key) || IsComplexKey(key)
    decreases |entries|
  {
    if entries == [] then Ok(map[])
    else
      var n := |entries| - 1;
      assert FitEntries(entries) ==> FitEntries(entries[..n]);
      var m :- Stored(entries[..n]);
      if IsPrivate(entries[n].0) then Ok(m)
      else
        var a :- entries[n].1;
        Ok(m[entries[n].0 := a])
  }

  /** Each field through its parser. */
  ghost function Conversions(fields: seq<(string, Value)>, config: Config, world: World): (r: seq<Conversion>)
    ensures |r| == |fields|
    ensures forall k :: 0 <= k < |fields| ==> r[k] == (fields[k].0, Converted(fields[k].0, fields[k].1, config, world))
    ensures FitEntries(r)
  {
    seq(|fields|, k requires 0 <= k < |fields| => (fields[k].0, Converted(fields[k].0, fields[k].1, config, world)))
  }

  /** The parsed fields of an entry, or the first parser error. */
  ghost function ParsedFields(fields: seq<(string, Value)>, config: Config, world: World): (r: Result<map<string, Attr>>)
    ensures r.Ok? ==> WellTyped(r.value)
    ensures r.Ok? ==> forall key :: key in r.value ==> IsSimpleKey(key) || IsComplexKey(key)
  {
    Stored(Conversions(fields, config, world))
  }

  /** A field the dispatch loop looks at. */
  predicate Mentioned(fields: seq<(string, Value)>, key: string) {
    !IsPrivate(key) && exists i :: 0 <= i < |fields| && fields[i].0 == key
  }

  // ---------------------------------------------------------------- the sanity check

  /** The span count of one protocol's port map. */
  function SpanCount(v: Services.PortView): nat {
    |v.single| + |v.ranges|
  }

  /** The port-forward checks that need the forward target: an absolute
      port cannot serve several spans, and the target host must resolve to
      exactly one address. */
  function ForwardCheck(views: seq<Services.PortView>, t: RegexMatches.ForwardTarget, config: Config, resolve: Hostnames.Resolver): (o: Outcome)
    ensures o.Pass? ==> |Hostnames.Addresses(t.hostname, config.hosts, resolve)| == 1
    ensures o.Pass? && t.relative.None? && t.port.Some? ==> forall k :: 0 <= k < |views| ==> SpanCount(views[k]) <= 1
  {
    if t.relative.None? && t.port.Some? && exists k :: 0 <= k < |views| && SpanCount(views[k]) > 1 then
      Fail(IncompatibleOptions(AbsolutePortWithSeveralSpans))
    else
      var found := |Hostnames.Addresses(t.hostname, config.hosts, resolve)|;
      if found != 1 then Fail(IncompatibleOptions(ForwardHostNotUnique(found))) else Pass
  }

  /** _sanity_check: the first violated constraint, in the source's order.
      The service/proto exclusion tests the key "service", which no parser
      stores. */
  function SanityCheck(p: map<string, Attr>, config: Config, resolve: Hostnames.Resolver): (o: Outcome)
    requires WellTyped(p)
    ensures o.Fail? ==> o.error.IncompatibleOptions?
  {
    if "action" !in p then Fail(IncompatibleOptions(MissingAction))
    else if "service" in p && "proto" in p then Fail(IncompatibleOptions(ServiceWithProto))
    else if "icmp-type" in p && "proto" in p then Fail(IncompatibleOptions(IcmpTypeWithProto))
    else if p["action"].action != PortForward then Pass
    else ForwardRequirements(p, config, resolve)
  }

  /** The checks of a port forward: the options it needs, then the
      checks that need the forward target. */
  function ForwardRequirements(p: map<string, Attr>, config: Config, resolve: Hostnames.Resolver): (o: Outcome)
    requires WellTyped(p)
    ensures o.Fail? ==> o.error.IncompatibleOptions?
  {
    if "dest-ifaddr" !in p then Fail(IncompatibleOptions(ForwardWithoutDestIfaddr))
    else if "dest-service" !in p then Fail(IncompatibleOptions(ForwardWithoutDestService))
    else if "forward-to" !in p then Fail(IncompatibleOptions(ForwardWithoutForwardTo))
    else ForwardCheck(p["dest-service"].views, p["forward-to"].target, config, resolve)
  }

  /** What insertion relies on: well-typed values, an action, and the
      service and target of a port forward. */
  predicate Compilable(p: map<string, Attr>) {
    && WellTyped(p)
    && "action" in p
    && (p["action"].action == PortForward ==> "dest-service" in p && "forward-to" in p)
  }

  /** HighlevelRule(rulesrc, config): the entry must be a dict; its fields
      are parsed, then checked. */
  ghost function ParsedRule(src: Value, config: Config, world: World): (r: Result<map<string, Attr>>)
    ensures r.Ok? ==> Compilable(r.value)
  {
    if !src.Obj? then Err(WrongKind("rule"))
    else
      var p :- ParsedFields(src.fields, config, world);
      match SanityCheck(p, config, world.resolve)
      case Fail(e) => Err(e)
      case Pass => Ok(p)
  }

  // ---------------------------------------------------------------- components

  datatype Side = Src | Dest

  function IfKey(side: Side): string { if side == Src then "src-if" else "dest-if" }
  function NetKey(side: Side): string { if side == Src then "src-net" else "dest-net" }
  function ServiceKey(side: Side): string { if side == Src then "src-service" else "dest-service" }
  function IfaddrKey(side: Side): string { if side == Src then "src-ifaddr" else "dest-ifaddr" }
  function HostKey(side: Side): string { if side == Src then "src-host" else "dest-host" }

  /** The interface option (`-i` incoming, `-o` outgoing). */
  function IfOption(side: Side): string { if side == Src then "-i" else "-o" }
  /** The address option (`-s` source, `-d` destination). */
  function AddrOption(side: Side): string { if side == Src then "-s" else "-d" }
  function PortFlag(side: Side): string { if side == Src then "--sport" else "--dport" }
  function PortsFlag(side: Side): string { if side == Src then "--sports" else "--dports" }

  /** One alternative `option value` per value. */
  function OptionAlts(option: string, values: seq<string>): (r: seq<Fragment>)
    ensures |r| == |values| && forall k :: 0 <= k < |values| ==> r[k] == [option, values[k]]
  {
    seq(|values|, k requires 0 <= k < |values| => [option, values[k]])
  }

  function IcmpMatch(name: string): Fragment {
    ["-p", "icmp", "--icmp-type", name]
  }

  function IcmpAlts(names: seq<string>): (r: seq<Fragment>)
    ensures |r| == |names| && forall k :: 0 <= k < |names| ==> r[k] == IcmpMatch(names[k])
  {
    seq(|names|, k requires 0 <= k < |names| => IcmpMatch(names[k]))
  }

  /** A named component, present when its key was parsed. */
  function GroupIf(present: bool, key: string, alts: seq<Fragment>): seq<Axis> {
    if present then [Axis(Some(key), alts)] else []
  }

  function ChainAxes(chainName: string): seq<Axis> {
    FixedAxes([Chains.Append(Chains.Parse(chainName))])
  }

  function ProtoAxes(p: map<string, Attr>): seq<Axis>
    requires WellTyped(p)
  {
    GroupIf("proto" in p, "proto", if "proto" in p then OptionAlts("-p", p["proto"].protos) else [])
  }

  function IcmpAxes(p: map<string, Attr>): seq<Axis>
    requires WellTyped(p)
  {
    GroupIf("icmp-type" in p, "icmp-type", if "icmp-type" in p then IcmpAlts(MultiEnums.Iterate(p["icmp-type"].types)) else [])
  }

  /** The chain append, then the protocol and ICMP-type groups. */
  function HeadAxes(p: map<string, Attr>, chainName: string): seq<Axis>
    requires WellTyped(p)
  {
    ChainAxes(chainName) + ProtoAxes(p) + IcmpAxes(p)
  }

  // ---- services outside port forwarding

  function PortMatch(proto: string, flag: string, port: string): Fragment {
    ["-p", proto, flag, port]
  }

  function Multiport(proto: string, flag: string, list: string): Fragment {
    ["-p", proto, "--match", "multiport", flag, list]
  }

  function PortTexts(ports: seq<int>): (r: seq<string>)
    ensures |r| == |ports| && forall k :: 0 <= k < |ports| ==> r[k] == IntToString(ports[k])
  {
    seq(|ports|, k requires 0 <= k < |ports| => IntToString(ports[k]))
  }

  /** "%d:%d" of a range. */
  function SpanText(lo: int, hi: int): string {
    IntToString(lo) + ":" + IntToString(hi)
  }

  function RangeAlts(proto: string, ranges: seq<(int, int)>, flag: string): (r: seq<Fragment>)
    ensures |r| == |ranges| && forall k :: 0 <= k < |ranges| ==> r[k] == Multiport(proto, flag, SpanText(ranges[k].0, ranges[k].1))
  {
    seq(|ranges|, k requires 0 <= k < |ranges| => Multiport(proto, flag, SpanText(ranges[k].0, ranges[k].1)))
  }

  /** One protocol's alternatives: a map of one port gives `--Xport p`
      (p = pm[0]); otherwise the singles form one multiport list only when
      there are at least two of them, and each range has its own. */
  function PlainViewAlts(v: Services.PortView, side: Side): (r: Result<seq<Fragment>>)
    ensures r.Err? <==> v.portCount == 1 && v.first.None?
    ensures r.Ok? && v.portCount != 1 ==> |r.value| == (if |v.single| > 1 then 1 else 0) + |v.ranges|
    ensures r.Ok? ==> forall k :: 0 <= k < |r.value| ==> |r.value[k]| >= 2 && r.value[k][..2] == ["-p", v.proto]
  {
    if v.portCount == 1 then
      (match v.first
       case None => Err(IndexOutOfRange)
       case Some(x) => Ok([PortMatch(v.proto, PortFlag(side), IntToString(x))]))
    else
      Ok((if |v.single| > 1 then [Multiport(v.proto, PortsFlag(side), Join(PortTexts(v.single), ','))] else [])
         + RangeAlts(v.proto, v.ranges, PortsFlag(side)))
  }

  /** Every alternative opens with `-p`, as iptables requires of a port match. */
  predicate ProtocolFirst(alts: seq<Fragment>) {
    forall k :: 0 <= k < |alts| ==> |alts[k]| >= 2 && alts[k][0] == "-p"
  }

  /** The alternatives of every protocol, in the service's order. */
  function PlainAlts(views: seq<Services.PortView>, side: Side): (r: Result<seq<Fragment>>)
    ensures r.Ok? ==> ProtocolFirst(r.value)
    decreases |views|
  {
    if views == [] then Ok([])
    else
      var n := |views| - 1;
      var init :- PlainAlts(views[..n], side);
      var last :- PlainViewAlts(views[n], side);
      Ok(init + last)
  }

  // ---- services under port forwarding

  /** One DNAT match: the protocol, the `--dport` text, and the incoming
      port the relative offset is added to. */
  datatype Incoming = Incoming(proto: string, dport: string, port: int)

  /** The singles with their own port, then the ranges with their start. */
  function ViewIncoming(v: Services.PortView): (r: seq<Incoming>)
    ensures |r| == |v.single| + |v.ranges|
    ensures forall k :: 0 <= k < |v.single| ==> r[k] == Incoming(v.proto, IntToString(v.single[k]), v.single[k])
    ensures forall k :: 0 <= k < |v.ranges| ==>
      r[|v.single| + k] == Incoming(v.proto, SpanText(v.ranges[k].0, v.ranges[k].1), v.ranges[k].0)
  {
    seq(|v.single|, k requires 0 <= k < |v.single| => Incoming(v.proto, IntToString(v.single[k]), v.single[k]))
    + seq(|v.ranges|, k requires 0 <= k < |v.ranges| => Incoming(v.proto, SpanText(v.ranges[k].0, v.ranges[k].1), v.ranges[k].0))
  }

  function DnatIncoming(views: seq<Services.PortView>): seq<Incoming>
    decreases |views|
  {
    if views == [] then [] else DnatIncoming(views[..|views| - 1]) + ViewIncoming(views[|views| - 1])
  }

  /** The port the target names: incoming plus the offset when relative,
      the explicit port otherwise. */
  function TargetPort(incoming: int, t: RegexMatches.ForwardTarget): int
    requires t.port.Some?
  {
    if t.relative.Some? then incoming + t.port.value else t.port.value
  }

  /** dnat_target's `--to` argument: the host alone without a port, else
      "host:port". */
  function TargetText(host: string, incoming: int, t: RegexMatches.ForwardTarget): string {
    if t.port.None? then host else host + ":" + IntToString(TargetPort(incoming, t))
  }

  function DnatJump(to: string): Fragment {
    ["-j", "DNAT", "--to", to]
  }

  function DnatMatch(i: Incoming, t: RegexMatches.ForwardTarget, host: string): Fragment {
    PortMatch(i.proto, "--dport", i.dport) + DnatJump(TargetText(host, i.port, t))
  }

  function DnatFragments(ins: seq<Incoming>, t: RegexMatches.ForwardTarget, host: string): (r: seq<Fragment>)
    ensures |r| == |ins| && forall k :: 0 <= k < |ins| ==> r[k] == DnatMatch(ins[k], t, host)
  {
    seq(|ins|, k requires 0 <= k < |ins| => DnatMatch(ins[k], t, host))
  }

  /** The DNAT alternatives; every target is the first address of the
      target host, and asking for it when there is none raises IndexError. */
  function DnatAlts(views: seq<Services.PortView>, t: RegexMatches.ForwardTarget, h: Hostnames.Hostname): (r: Result<seq<Fragment>>)
    ensures r.Err? <==> DnatIncoming(views) != [] && h.addresses == []
    ensures r.Ok? ==> |r.value| == |DnatIncoming(views)|
    ensures r.Ok? && DnatIncoming(views) != [] ==>
      forall k :: 0 <= k < |r.value| ==> r.value[k] == DnatMatch(DnatIncoming(views)[k], t, h.addresses[0])
  {
    var ins := DnatIncoming(views);
    if ins == [] then Ok([])
    else
      var host :- Hostnames.GetItem(h, 0);
      Ok(DnatFragments(ins, t, host))
  }

  /** Every DNAT alternative is a protocol match followed by its jump. */
  lemma DnatShape(views: seq<Services.PortView>, t: RegexMatches.ForwardTarget, h: Hostnames.Hostname)
    ensures var r := DnatAlts(views, t, h);
      r.Ok? ==> ProtocolFirst(r.value) && forall k :: 0 <= k < |r.value| ==> |r.value[k]| == 8 && r.value[k][4..7] == ["-j", "DNAT", "--to"]
  {
    var r := DnatAlts(views, t, h);
    if r.Ok? && DnatIncoming(views) != [] {
      forall k | 0 <= k < |r.value|
        ensures |r.value[k]| == 8 && r.value[k][0] == "-p" && r.value[k][4..7] == ["-j", "DNAT", "--to"]
      {
        var m := r.value[k];
        assert m == PortMatch(DnatIncoming(views)[k].proto, "--dport", DnatIncoming(views)[k].dport) + DnatJump(TargetText(h.addresses[0], DnatIncoming(views)[k].port, t));
      }
    }
  }

  /** The destination service of a port forward takes the DNAT form. */
  predicate Forwarding(p: map<string, Attr>, side: Side)
    requires Compilable(p)
  {
    side == Dest && p["action"].action == PortForward
  }

  ghost function ServiceAlts(p: map<string, Attr>, side: Side, config: Config, world: World): (r: Result<seq<Fragment>>)
    requires Compilable(p) && ServiceKey(side) in p
    ensures r.Ok? ==> ProtocolFirst(r.value)
    ensures r.Ok? && Forwarding(p, side) ==>
      forall k :: 0 <= k < |r.value| ==> |r.value[k]| == 8 && r.value[k][4..7] == ["-j", "DNAT", "--to"]
  {
    if Forwarding(p, side) then
      var t := p["forward-to"].target;
      var h := Host(t.hostname, config, world.resolve);
      DnatShape(p[ServiceKey(side)].views, t, h);
      DnatAlts(p[ServiceKey(side)].views, t, h)
    else
      PlainAlts(p[ServiceKey(side)].views, side)
  }

  // ---- one side of the rule

  function IfAxes(p: map<string, Attr>, side: Side): (r: seq<Axis>)
    requires WellTyped(p)
    ensures Named(r) && OptionalGroup(r, IfKey(side) in p, IfKey(side))
  {
    GroupIf(IfKey(side) in p, IfKey(side),
      if IfKey(side) in p then OptionAlts(IfOption(side), Interfaces.Names(p[IfKey(side)].devices)) else [])
  }

  function NetAxes(p: map<string, Attr>, side: Side, query: Interfaces.Query): (r: Result<seq<Axis>>)
    requires WellTyped(p)
    ensures r.Ok? ==> Named(r.value) && OptionalGroup(r.value, NetKey(side) in p, NetKey(side))
  {
    if NetKey(side) !in p then Ok([])
    else
      var networks :- Interfaces.Networks(p[NetKey(side)].devices, query);
      Ok([Axis(Some(NetKey(side)), OptionAlts(AddrOption(side), networks))])
  }

  ghost function ServiceAxes(p: map<string, Attr>, side: Side, config: Config, world: World): (r: Result<seq<Axis>>)
    requires Compilable(p)
    ensures r.Ok? ==> OptionalGroup(r.value, ServiceKey(side) in p, ServiceKey(side))
  {
    if ServiceKey(side) !in p then Ok([])
    else
      var alts :- ServiceAlts(p, side, config, world);
      Ok([Axis(Some(ServiceKey(side)), alts)])
  }

  function IfaddrAxes(p: map<string, Attr>, side: Side, query: Interfaces.Query): (r: Result<seq<Axis>>)
    requires WellTyped(p)
    ensures r.Ok? ==> Named(r.value) && OptionalGroup(r.value, IfaddrKey(side) in p, IfaddrKey(side))
  {
    if IfaddrKey(side) !in p then Ok([])
    else
      var addresses :- Interfaces.Addresses(p[IfaddrKey(side)].devices, query);
      Ok([Axis(Some(IfaddrKey(side)), OptionAlts(AddrOption(side), addresses))])
  }

  function HostAxes(p: map<string, Attr>, side: Side): (r: seq<Axis>)
    requires WellTyped(p)
    ensures Named(r) && OptionalGroup(r, HostKey(side) in p, HostKey(side))
  {
    GroupIf(HostKey(side) in p, HostKey(side),
      if HostKey(side) in p then OptionAlts(AddrOption(side), Hostnames.Iterate(p[HostKey(side)].host)) else [])
  }

  /** One side's groups: interface, network, service, interface address, host. */
  ghost function SideAxes(p: map<string, Attr>, side: Side, config: Config, world: World): (r: Result<seq<Axis>>)
    requires Compilable(p)
    ensures r.Err? ==> NetAxes(p, side, world.query).Err? || ServiceAxes(p, side, config, world).Err? || IfaddrAxes(p, side, world.query).Err?
  {
    var net :- NetAxes(p, side, world.query);
    var service :- ServiceAxes(p, side, config, world);
    var ifaddr :- IfaddrAxes(p, side, world.query);
    Ok(IfAxes(p, side) + net + service + ifaddr + HostAxes(p, side))
  }

  // ---- criterion, action, log prefix, comment

  function CriterionAxes(p: map<string, Attr>): Result<seq<Axis>>
    requires WellTyped(p)
  {
    if "criterion" in p then Criteria.Components(p["criterion"].criterion) else Ok([])
  }

  function Jump(target: string): Fragment {
    ["-j", target]
  }

  function LogPrefix(msg: string): Fragment {
    ["--log-prefix", msg + ": "]
  }

  function CommentMatch(comment: string): Fragment {
    ["-m", "comment", "--comment", comment]
  }

  /** `-j ACTION`, except for a port forward, whose DNAT jump sits in its
      service group. */
  function JumpAxes(p: map<string, Attr>): seq<Axis>
    requires Compilable(p)
  {
    if p["action"].action != PortForward then FixedAxes([Jump(Upper(ActionValue(p["action"].action)))]) else []
  }

  /** The log prefix of a logging rule with a message. */
  function LogAxes(p: map<string, Attr>): seq<Axis>
    requires Compilable(p)
  {
    if p["action"].action == Log && "msg" in p then FixedAxes([LogPrefix(p["msg"].text)]) else []
  }

  /** The comment match. */
  function CommentAxes(p: map<string, Attr>): seq<Axis>
    requires WellTyped(p)
  {
    if "comment" in p then FixedAxes([CommentMatch(p["comment"].text)]) else []
  }

  /** The jump, the log prefix and the comment. */
  function TailAxes(p: map<string, Attr>): seq<Axis>
    requires Compilable(p)
  {
    JumpAxes(p) + LogAxes(p) + CommentAxes(p)
  }

  /** How the three stages of building a rule make up its components. */
  lemma RuleAxesCases(p: map<string, Attr>, chainName: string, config: Config, world: World)
    requires Compilable(p)
    ensures SidesAxes(p, config, world).Err? ==> RuleAxes(p, chainName, config, world) == Err(SidesAxes(p, config, world).error)
    ensures SidesAxes(p, config, world).Ok? && RestAxes(p).Err? ==> RuleAxes(p, chainName, config, world) == Err(RestAxes(p).error)
    ensures SidesAxes(p, config, world).Ok? && RestAxes(p).Ok? ==>
      RuleAxes(p, chainName, config, world) == Ok(HeadAxes(p, chainName) + SidesAxes(p, config, world).value + RestAxes(p).value)
  {
  }

  /** The source side's groups, then the destination side's. */
  ghost function SidesAxes(p: map<string, Attr>, config: Config, world: World): Result<seq<Axis>>
    requires Compilable(p)
  {
    var src :- SideAxes(p, Src, config, world);
    var dest :- SideAxes(p, Dest, config, world);
    Ok(src + dest)
  }

  lemma SidesAxesCases(p: map<string, Attr>, config: Config, world: World)
    requires Compilable(p)
    ensures SideAxes(p, Src, config, world).Err? ==> SidesAxes(p, config, world) == Err(SideAxes(p, Src, config, world).error)
    ensures SideAxes(p, Src, config, world).Ok? && SideAxes(p, Dest, config, world).Err? ==>
      SidesAxes(p, config, world) == Err(SideAxes(p, Dest, config, world).error)
    ensures SideAxes(p, Src, config, world).Ok? && SideAxes(p, Dest, config, world).Ok? ==>
      SidesAxes(p, config, world) == Ok(SideAxes(p, Src, config, world).value + SideAxes(p, Dest, config, world).value)
  {
  }

  /** The criterion's components, then the jump, log prefix and comment. */
  function RestAxes(p: map<string, Attr>): Result<seq<Axis>>
    requires Compilable(p)
  {
    var criterion :- CriterionAxes(p);
    Ok(criterion + TailAxes(p))
  }

  lemma RestAxesCases(p: map<string, Attr>)
    requires Compilable(p)
    ensures CriterionAxes(p).Err? ==> RestAxes(p) == Err(CriterionAxes(p).error)
    ensures CriterionAxes(p).Ok? ==> RestAxes(p) == Ok(CriterionAxes(p).value + TailAxes(p))
  {
  }

  /** The components insert builds, or the first error it raises. */
  ghost function RuleAxes(p: map<string, Attr>, chainName: string, config: Config, world: World): (r: Result<seq<Axis>>)
    requires Compilable(p)
    ensures r.Err? ==> SidesAxes(p, config, world).Err? || CriterionAxes(p).Err?
    ensures r.Ok? ==> |r.value| >= 1 && r.value[0] == Axis(None, [Chains.Append(Chains.Parse(chainName))])
  {
    var sides :- SidesAxes(p, config, world);
    var rest :- RestAxes(p);
    Ok(HeadAxes(p, chainName) + sides + rest)
  }

  /** The bundle name: the comment, or the entry rendered with str(). */
  function CommentOf(p: map<string, Attr>, source: seq<(string, Value)>): (c: string)
    requires WellTyped(p)
    ensures "comment" in p ==> c == p["comment"].text
    ensures "comment" !in p ==> c == Repr(Obj(source)) && c[0] == '{' && c[|c| - 1] == '}'
  {
    if "comment" in p then p["comment"].text else PyStr(Obj(source))
  }

  /** Whether the entry's condition holds at the compilation instant. */
  predicate Applies(p: map<string, Attr>, now: TimeWindows.DateTime)
    requires WellTyped(p)
  {
    "cond" in p ==> Conditions.Satisfied(p["cond"].cond, now)
  }

  /** insert: nothing when the condition fails, else one bundle of one rule. */
  ghost function Inserted(p: map<string, Attr>, source: seq<(string, Value)>, chainName: string, config: Config, world: World, now: TimeWindows.DateTime): (r: Result<Option<Bundle>>)
    requires Compilable(p)
    ensures !Applies(p, now) ==> r == Ok(None)
    ensures r.Err? ==> Applies(p, now) && RuleAxes(p, chainName, config, world).Err?
    ensures r.Ok? && r.value.Some? ==> r.value.value.name == CommentOf(p, source) && |r.value.value.rules| == 1
  {
    if !Applies(p, now) then Ok(None)
    else
      var axes :- RuleAxes(p, chainName, config, world);
      Ok(Some(Bundle(CommentOf(p, source), [axes])))
  }

  /** The three outcomes of insert. */
  lemma InsertedCases(p: map<string, Attr>, source: seq<(string, Value)>, chainName: string, config: Config, world: World, now: TimeWindows.DateTime)
    requires Compilable(p)
    ensures !Applies(p, now) ==> Inserted(p, source, chainName, config, world, now) == Ok(None)
    ensures Applies(p, now) && RuleAxes(p, chainName, config, world).Err? ==>
      Inserted(p, source, chainName, config, world, now) == Err(RuleAxes(p, chainName, config, world).error)
    ensures Applies(p, now) && RuleAxes(p, chainName, config, world).Ok? ==>
      Inserted(p, source, chainName, config, world, now) == Ok(Some(Bundle(CommentOf(p, source), [RuleAxes(p, chainName, config, world).value])))
  {
  }

  /** The bundles a successful insert adds. */
  function Added(b: Option<Bundle>): seq<Bundle> {
    if b.Some? then [b.value] else []
  }

  // ---------------------------------------------------------------- the compiler objects

  /** A group filled alternative by alternative: add_group, then appends
      on the list it returns. */
  method FillGroup(rule: Rule, name: string, alts: seq<Fragment>)
    requires rule.Valid()
    modifies rule
    ensures rule.Valid() && rule.Axes() == old(rule.Axes()) + [Axis(Some(name), alts)]
  {
    ghost var before := rule.Axes();
    var g := rule.AddGroup(name, []);
    for i := 0 to |alts|
      invariant rule.Valid() && |rule.groups| == |before| + 1 && g == rule.groups[|rule.groups| - 1]
      invariant g.members == alts[..i]
      invariant rule.Axes() == before + [Axis(Some(name), alts[..i])]
    {
      assert rule.Axes()[..|before|] == before;
      AppendStep(alts, i);
      rule.AppendLast(g, alts[i]);
    }
    assert alts[..|alts|] == alts;
  }

  lemma AppendStep(alts: seq<Fragment>, i: nat)
    requires i < |alts|
    ensures alts[..i + 1] == alts[..i] + [alts[i]]
  {
  }

  lemma SeqAssoc<T>(a: seq<T>, b: seq<T>, c: seq<T>)
    ensures a + b + c == a + (b + c)
  {
  }

  lemma SeqAssoc3(a: seq<Axis>, b: seq<Axis>, c: seq<Axis>, d: seq<Axis>)
    ensures a + b + c + d == a + (b + c + d)
  {
  }

  lemma SeqAssoc5(a: seq<Axis>, b: seq<Axis>, c: seq<Axis>, d: seq<Axis>, e: seq<Axis>, f: seq<Axis>)
    ensures a + b + c + d + e + f == a + (b + (c + (d + (e + f))))
  {
  }

  /** Every axis of the list is a named group. */
  predicate Named(axes: seq<Axis>) {
    forall k :: 0 <= k < |axes| ==> axes[k].name.Some?
  }

  /** A component that is one group named `key` when its key is given,
      and nothing otherwise. */
  predicate OptionalGroup(axes: seq<Axis>, present: bool, key: string) {
    if present then |axes| == 1 && axes[0].name == Some(key) else axes == []
  }

  lemma NamedCat(a: seq<Axis>, b: seq<Axis>, c: seq<Axis>, d: seq<Axis>, e: seq<Axis>)
    requires Named(a) && Named(b) && Named(c) && Named(d) && Named(e)
    ensures Named(a + b + c + d + e)
  {
  }

  /** A component that may have failed to build: on success each of its
      groups is added and filled; on failure nothing is added. */
  method AddComponent(rule: Rule, c: Result<seq<Axis>>) returns (o: Outcome)
    requires rule.Valid() && (c.Ok? ==> Named(c.value))
    modifies rule
    ensures rule.Valid()
    ensures o.Pass? <==> c.Ok?
    ensures o.Fail? ==> o.error == c.error
    ensures o.Pass? ==> rule.Axes() == old(rule.Axes()) + c.value
  {
    if c.Err? {
      return Fail(c.error);
    }
    ghost var before := rule.Axes();
    var axes := c.value;
    for i := 0 to |axes|
      invariant rule.Valid() && rule.Axes() == before + axes[..i]
    {
      FillGroup(rule, axes[i].name.value, axes[i].alts);
      assert axes[..i + 1] == axes[..i] + [axes[i]];
    }
    assert axes[..|axes|] == axes;
    o := Pass;
  }

  /** A parsed policy entry. */
  class HighlevelRule {
    /** The entry as written. */
    const source: seq<(string, Value)>
    const config: Config
    /** The parsed fields by key. */
    const parsed: map<string, Attr>

    ghost predicate Valid() {
      Compilable(parsed)
    }

    constructor (source: seq<(string, Value)>, config: Config, parsed: map<string, Attr>)
      requires Compilable(parsed)
      ensures this.source == source && this.config == config && this.parsed == parsed && Valid()
    {
      this.source := source;
      this.config := config;
      this.parsed := parsed;
    }

    /** The service group's alternatives; a port forward re-resolves its
        target host. */
    method ServiceAlternatives(side: Side, world: World) returns (r: Result<seq<Fragment>>)
      requires Valid() && ServiceKey(side) in parsed
      ensures r == ServiceAlts(parsed, side, config, world)
    {
      var views := parsed[ServiceKey(side)].views;
      if side == Dest && parsed["action"].action == PortForward {
        var t := parsed["forward-to"].target;
        var h, _ := Hostnames.Resolve(t.hostname, config.hosts, world.resolve);
        r := DnatAlts(views, t, h);
      } else {
        r := PlainAlts(views, side);
      }
    }

    /** The service component of one side, or the error building it raises. */
    method ServiceComponent(side: Side, world: World) returns (r: Result<seq<Axis>>)
      requires Valid()
      ensures r == ServiceAxes(parsed, side, config, world)
      ensures r.Ok? ==> Named(r.value)
    {
      if ServiceKey(side) !in parsed {
        return Ok([]);
      }
      var alts := ServiceAlternatives(side, world);
      if alts.Err? {
        return Err(alts.error);
      }
      r := Ok([Axis(Some(ServiceKey(side)), alts.value)]);
    }

    /** The groups of one side, in order. */
    method AddSide(rule: Rule, side: Side, world: World) returns (o: Outcome)
      requires Valid() && rule.Valid()
      modifies rule
      ensures rule.Valid()
      ensures o.Pass? <==> SideAxes(parsed, side, config, world).Ok?
      ensures o.Fail? ==> o.error == SideAxes(parsed, side, config, world).error
      ensures o.Pass? ==> rule.Axes() == old(rule.Axes()) + SideAxes(parsed, side, config, world).value
    {
      var net := NetAxes(parsed, side, world.query);
      if net.Err? {
        return Fail(net.error);
      }
      var service := ServiceComponent(side, world);
      if service.Err? {
        return Fail(service.error);
      }
      var ifaddr := IfaddrAxes(parsed, side, world.query);
      if ifaddr.Err? {
        return Fail(ifaddr.error);
      }
      var axes := IfAxes(parsed, side) + net.value + service.value + ifaddr.value + HostAxes(parsed, side);
      NamedCat(IfAxes(parsed, side), net.value, service.value, ifaddr.value, HostAxes(parsed, side));
      o := AddComponent(rule, Ok(axes));
    }

    /** The chain append and the protocol and ICMP-type groups. */
    method AddHead(rule: Rule, chainName: string)
      requires Valid() && rule.Valid()
      modifies rule
      ensures rule.Valid() && rule.Axes() == old(rule.Axes()) + HeadAxes(parsed, chainName)
    {
      ghost var a0 := rule.Axes();
      var chain := Chains.Parse(chainName);
      rule.AddFixed([Chains.Append(chain)]);
      ghost var a1 := rule.Axes();
      var _ := AddComponent(rule, Ok(ProtoAxes(parsed)));
      ghost var a2 := rule.Axes();
      var _ := AddComponent(rule, Ok(IcmpAxes(parsed)));
      assert rule.Axes() == a2 + IcmpAxes(parsed);
      SeqAssoc3(a0, ChainAxes(chainName), ProtoAxes(parsed), IcmpAxes(parsed));
    }

    /** The jump, the log prefix and the comment. */
    method AddTail(rule: Rule)
      requires Valid() && rule.Valid()
      modifies rule
      ensures rule.Valid() && rule.Axes() == old(rule.Axes()) + TailAxes(parsed)
    {
      ghost var a0 := rule.Axes();
      AddJump(rule);
      AddLogPrefix(rule);
      AddComment(rule);
      SeqAssoc3(a0, JumpAxes(parsed), LogAxes(parsed), CommentAxes(parsed));
    }

    /** The jump to the action's target; a port forward has none here. */
    method AddJump(rule: Rule)
      requires Valid() && rule.Valid()
      modifies rule
      ensures rule.Valid() && rule.Axes() == old(rule.Axes()) + JumpAxes(parsed)
    {
      var action := parsed["action"].action;
      if action != PortForward {
        rule.AddFixed([Jump(Upper(ActionValue(action)))]);
      }
    }

    /** The log prefix of a logging rule with a message. */
    method AddLogPrefix(rule: Rule)
      requires Valid() && rule.Valid()
      modifies rule
      ensures rule.Valid() && rule.Axes() == old(rule.Axes()) + LogAxes(parsed)
    {
      if parsed["action"].action == Log && "msg" in parsed {
        rule.AddFixed([LogPrefix(parsed["msg"].text)]);
      }
    }

    /** The comment match of a rule with a comment. */
    method AddComment(rule: Rule)
      requires Valid() && rule.Valid()
      modifies rule
      ensures rule.Valid() && rule.Axes() == old(rule.Axes()) + CommentAxes(parsed)
    {
      if "comment" in parsed {
        rule.AddFixed([CommentMatch(parsed["comment"].text)]);
      }
    }

    /** The source side's groups, then the destination side's. */
    method AddSides(rule: Rule, world: World) returns (o: Outcome)
      requires Valid() && rule.Valid()
      modifies rule
      ensures rule.Valid()
      ensures o.Pass? <==> SidesAxes(parsed, config, world).Ok?
      ensures o.Fail? ==> o.error == SidesAxes(parsed, config, world).error
      ensures o.Pass? ==> rule.Axes() == old(rule.Axes()) + SidesAxes(parsed, config, world).value
    {
      SidesAxesCases(parsed, config, world);
      ghost var a0 := rule.Axes();
      o := AddSide(rule, Src, world);
      if o.Fail? {
        return;
      }
      ghost var a1 := rule.Axes();
      ghost var src := SideAxes(parsed, Src, config, world).value;
      assert a1 == a0 + src;
      o := AddSide(rule, Dest, world);
      if o.Pass? {
        ghost var dest := SideAxes(parsed, Dest, config, world).value;
        assert rule.Axes() == a1 + dest;
        SeqAssoc(a0, src, dest);
      }
    }

    /** criterion.apply(rule), when the entry has a criterion. */
    method AddCriterion(rule: Rule) returns (o: Outcome)
      requires Valid() && rule.Valid()
      modifies rule
      ensures rule.Valid()
      ensures o.Pass? <==> CriterionAxes(parsed).Ok?
      ensures o.Fail? ==> o.error == CriterionAxes(parsed).error
      ensures o.Pass? ==> rule.Axes() == old(rule.Axes()) + CriterionAxes(parsed).value
    {
      if "criterion" in parsed {
        o := Criteria.Apply(parsed["criterion"].criterion, rule);
      } else {
        o := Pass;
      }
    }

    /** The criterion's components, then the jump, log prefix and comment. */
    method AddRest(rule: Rule) returns (o: Outcome)
      requires Valid() && rule.Valid()
      modifies rule
      ensures rule.Valid()
      ensures o.Pass? <==> RestAxes(parsed).Ok?
      ensures o.Fail? ==> o.error == RestAxes(parsed).error
      ensures o.Pass? ==> rule.Axes() == old(rule.Axes()) + RestAxes(parsed).value
    {
      RestAxesCases(parsed);
      ghost var a0 := rule.Axes();
      o := AddCriterion(rule);
      if o.Pass? {
        ghost var criterion := CriterionAxes(parsed).value;
        assert rule.Axes() == a0 + criterion;
        AddTail(rule);
        SeqAssoc(a0, criterion, TailAxes(parsed));
      }
    }

    /** Every component of the rule, in the fixed order. */
    method Fill(rule: Rule, chainName: string, world: World) returns (o: Outcome)
      requires Valid() && rule.Valid()
      modifies rule
      ensures rule.Valid()
      ensures o.Pass? <==> RuleAxes(parsed, chainName, config, world).Ok?
      ensures o.Fail? ==> o.error == RuleAxes(parsed, chainName, config, world).error
      ensures o.Pass? ==> rule.Axes() == old(rule.Axes()) + RuleAxes(parsed, chainName, config, world).value
    {
      RuleAxesCases(parsed, chainName, config, world);
      ghost var a0 := rule.Axes();
      AddHead(rule, chainName);
      o := AddSides(rule, world);
      if o.Fail? {
        return;
      }
      ghost var a2 := rule.Axes();
      ghost var sides := SidesAxes(parsed, config, world).value;
      assert a2 == a0 + HeadAxes(parsed, chainName) + sides;
      o := AddRest(rule);
      if o.Pass? {
        ghost var rest := RestAxes(parsed).value;
        assert rule.Axes() == a2 + rest;
        SeqAssoc3(a0, HeadAxes(parsed, chainName), sides, rest);
      }
    }

    /** insert(chain_name, ruleset): skipped when the condition fails;
        otherwise one bundle named by the comment, holding one rule, is
        added, unless building the rule raises, which leaves the ruleset
        as it was. */
    method Insert(chainName: string, ruleset: Ruleset, world: World, now: TimeWindows.DateTime) returns (o: Outcome)
      requires Valid()
      modifies ruleset
      ensures ruleset.datapoints == old(ruleset.datapoints)
      ensures o.Pass? <==> Inserted(parsed, source, chainName, config, world, now).Ok?
      ensures o.Fail? ==> o.error == Inserted(parsed, source, chainName, config, world, now).error
      ensures o.Fail? ==> ruleset.contents == old(ruleset.contents)
      ensures o.Pass? ==> ruleset.contents == old(ruleset.contents) + Added(Inserted(parsed, source, chainName, config, world, now).value)
    {
      InsertedCases(parsed, source, chainName, config, world, now);
      if "cond" in parsed && !Conditions.Satisfied(parsed["cond"].cond, now) {
        o := Pass;
      } else {
        o := Build(chainName, ruleset, world);
      }
    }

    /** The bundle of one rule built and added; nothing is added when
        building the rule raises. */
    method Build(chainName: string, ruleset: Ruleset, world: World) returns (o: Outcome)
      requires Valid()
      modifies ruleset
      ensures ruleset.datapoints == old(ruleset.datapoints)
      ensures o.Pass? <==> RuleAxes(parsed, chainName, config, world).Ok?
      ensures o.Fail? ==> o.error == RuleAxes(parsed, chainName, config, world).error && ruleset.contents == old(ruleset.contents)
      ensures o.Pass? ==> ruleset.contents == old(ruleset.contents) + [Bundle(CommentOf(parsed, source), [RuleAxes(parsed, chainName, config, world).value])]
    {
      var rules := new Rules(CommentOf(parsed, source));
      var rule := rules.New();
      o := Fill(rule, chainName, world);
      if o.Pass? {
        assert rule.Axes() == [] + RuleAxes(parsed, chainName, config, world).value;
        Publish(ruleset, rules, rule, CommentOf(parsed, source), RuleAxes(parsed, chainName, config, world).value);
      }
    }
  }

  /** add_rules on a bundle holding exactly one rule. */
  method Publish(ruleset: Ruleset, rules: Rules, rule: Rule, ghost name: string, ghost axes: seq<Axis>)
    requires rules.rules == [rule] && rules.name == name && rule.Axes() == axes
    modifies ruleset
    ensures ruleset.datapoints == old(ruleset.datapoints)
    ensures ruleset.contents == old(ruleset.contents) + [Bundle(name, [axes])]
  {
    ghost var b := rules.Snapshot();
    assert b == Bundle(name, [axes]);
    ruleset.AddRules(rules);
  }

  // ---------------------------------------------------------------- parsing an entry

  /** One field through its parser, with the parsers' warnings dropped. */
  method Convert(key: string, v: Value, config: Config, world: World) returns (r: Result<Attr>)
    ensures r == Converted(key, v, config, world)
  {
    if IsServiceKey(key) {
      if !v.Str? {
        return Err(WrongKind(key));
      }
      var service := Services.New(v.s, world.catalog);
      if service.Err? {
        return Err(service.error);
      }
      var views := Services.View(service.value);
      r := Ok(ServiceAttr(views));
    } else if IsHostKey(key) {
      if !v.Str? {
        return Err(WrongKind(key));
      }
      var h, _ := Hostnames.Resolve(v.s, config.hosts, world.resolve);
      r := Ok(HostAttr(h));
    } else if IsDevicesKey(key) {
      if !v.Str? {
        return Err(WrongKind(key));
      }
      var devices, _ := Interfaces.Select(v.s, config.interfaces, config.interfacesRev);
      if devices.Err? {
        return Err(devices.error);
      }
      r := Ok(DevicesAttr(devices.value));
    } else {
      r := PlainConverted(key, v);
    }
  }

  /** Once a prefix of the parser results fails, the whole dispatch fails
      with the same error. */
  lemma {:induction false} StoredSticky(entries: seq<Conversion>, j: nat)
    requires j <= |entries| && Stored(entries[..j]).Err?
    ensures Stored(entries) == Stored(entries[..j])
    decreases |entries|
  {
    if j < |entries| {
      var n := |entries| - 1;
      assert entries[..n][..j] == entries[..j];
      StoredSticky(entries[..n], j);
    } else {
      assert entries[..j] == entries;
    }
  }

  /** A private key is skipped. */
  lemma StoredSkip(entries: seq<Conversion>, i: nat)
    requires i < |entries| && Stored(entries[..i]).Ok? && IsPrivate(entries[i].0)
    ensures Stored(entries[..i + 1]) == Stored(entries[..i])
  {
    assert entries[..i + 1][..i] == entries[..i];
  }

  /** Any other key is stored with its parser's value. */
  lemma StoredNext(entries: seq<Conversion>, i: nat)
    requires i < |entries| && Stored(entries[..i]).Ok? && !IsPrivate(entries[i].0) && entries[i].1.Ok?
    ensures Stored(entries[..i + 1]) == Ok(Stored(entries[..i]).value[entries[i].0 := entries[i].1.value])
  {
    assert entries[..i + 1][..i] == entries[..i];
  }

  /** The first parser failure is the error of the whole dispatch. */
  lemma StoredFails(entries: seq<Conversion>, i: nat)
    requires i < |entries| && Stored(entries[..i]).Ok? && !IsPrivate(entries[i].0) && entries[i].1.Err?
    ensures Stored(entries) == Err(entries[i].1.error)
  {
    StoredStops(entries, i);
    StoredSticky(entries, i + 1);
  }

  /** A failing parser ends the prefix it closes with its error. */
  lemma StoredStops(entries: seq<Conversion>, i: nat)
    requires i < |entries| && Stored(entries[..i]).Ok? && !IsPrivate(entries[i].0) && entries[i].1.Err?
    ensures Stored(entries[..i + 1]) == Err(entries[i].1.error)
  {
    assert entries[..i + 1][..i] == entries[..i];
  }

  /** The loop of HighlevelRule.__init__ that fills `_parsed`. */
  method Dispatch(fields: seq<(string, Value)>, config: Config, world: World) returns (r: Result<map<string, Attr>>)
    ensures r == ParsedFields(fields, config, world)
  {
    ghost var entries := Conversions(fields, config, world);
    var parsed: map<string, Attr> := map[];
    for i := 0 to |fields|
      invariant Stored(entries[..i]) == Ok(parsed)
    {
      var key := fields[i].0;
      if IsPrivate(key) {
        StoredSkip(entries, i);
        continue;
      }
      var a := Convert(key, fields[i].1, config, world);
      assert entries[i] == (key, a);
      if a.Err? {
        StoredFails(entries, i);
        return Err(a.error);
      }
      StoredNext(entries, i);
      parsed := parsed[key := a.value];
    }
    assert entries[..|fields|] == entries;
    r := Ok(parsed);
  }

  /** HighlevelRule(rulesrc, config): the entry's fields dispatched, then
      the sanity check. */
  method NewRule(src: Value, config: Config, world: World) returns (r: Result<HighlevelRule>)
    requires Loaded(src)
    ensures ParsedRule(src, config, world).Err? ==> r == Err(ParsedRule(src, config, world).error)
    ensures ParsedRule(src, config, world).Ok? ==>
      r.Ok? && fresh(r.value) && src.Obj? && r.value.source == src.fields && r.value.config == config
      && r.value.parsed == ParsedRule(src, config, world).value
  {
    if !src.Obj? {
      return Err(WrongKind("rule"));
    }
    var p := Dispatch(src.fields, config, world);
    if p.Err? {
      return Err(p.error);
    }
    var o := SanityCheck(p.value, config, world.resolve);
    if o.Fail? {
      return Err(o.error);
    }
    var h := new HighlevelRule(src.fields, config, p.value);
    r := Ok(h);
  }

  /** An entry compiled: parsed, then inserted. */
  ghost function Compiled(src: Value, chainName: string, config: Config, world: World, now: TimeWindows.DateTime): Result<Option<Bundle>> {
    match ParsedRule(src, config, world)
    case Err(e) => Err(e)
    case Ok(p) => Inserted(p, src.fields, chainName, config, world, now)
  }

  // ---------------------------------------------------------------- chains

  /** What compiling a sequence of entries leaves behind: the bundles added
      in order, and the error that stopped it, if any. */
  datatype Run = Run(added: seq<Bundle>, error: Option<Error>)

  /** The loop of _parse_chain over the entries' compilation results. An
      entry that raises one of the compiler's own errors is skipped when
      errors are ignored; any other error, or any error at all otherwise,
      ends the run. */
  function RunOf(results: seq<Result<Option<Bundle>>>, ignore: bool): (r: Run)
    ensures r.error.None? <==> forall k :: 0 <= k < |results| ==> results[k].Ok? || (ignore && IsPolicyError(results[k].error))
    ensures r.error.Some? ==> !(ignore && IsPolicyError(r.error.value))
    ensures |r.added| <= |results|
    decreases |results|
  {
    if results == [] then Run([], None)
    else
      var n := |results| - 1;
      assert forall k :: 0 <= k < n ==> results[..n][k] == results[k];
      var prior := RunOf(results[..n], ignore);
      if prior.error.Some? then prior
      else
        match results[n]
        case Ok(b) => Run(prior.added + Added(b), None)
        case Err(e) => if ignore && IsPolicyError(e) then prior else Run(prior.added, Some(e))
  }

  /** What compiling each entry on its own gives. */
  ghost function Results(chainName: string, rules: seq<Value>, config: Config, world: World, now: TimeWindows.DateTime): (r: seq<Result<Option<Bundle>>>)
    ensures |r| == |rules| && forall k :: 0 <= k < |rules| ==> r[k] == Compiled(rules[k], chainName, config, world, now)
  {
    seq(|rules|, k requires 0 <= k < |rules| => Compiled(rules[k], chainName, config, world, now))
  }

  ghost function RulesRun(chainName: string, rules: seq<Value>, ignore: bool, config: Config, world: World, now: TimeWindows.DateTime): Run {
    RunOf(Results(chainName, rules, config, world, now), ignore)
  }

  /** _parse_chain on one chain's content. `"rules" in content` is a key
      test on a dict, a substring test on a str and an element test on a
      list; a str or list that passes it cannot be indexed by "rules", and
      any other value cannot be searched (both TypeErrors). The entries are
      whatever iterating the "rules" value visits. */
  ghost function ChainRun(chainName: string, content: Value, ignore: bool, config: Config, world: World, now: TimeWindows.DateTime): Run {
    if content.Obj? then
      match Lookup(content.fields, "rules")
      case None => Run([], None)
      case Some(v) =>
        match Iterated(v)
        case Some(items) => RulesRun(chainName, items, ignore, config, world, now)
        case None => Run([], Some(WrongKind("rules")))
    else if !(content.Str? || content.List?) || Contains(content, "rules") then Run([], Some(WrongKind("chain")))
    else Run([], None)
  }

  /** Once a prefix of the entries stops with an error, the run of all of
      them is the run of that prefix. */
  lemma {:induction false} RunOfSticky(results: seq<Result<Option<Bundle>>>, j: nat, ignore: bool)
    requires j <= |results| && RunOf(results[..j], ignore).error.Some?
    ensures RunOf(results, ignore) == RunOf(results[..j], ignore)
    decreases |results|
  {
    if j < |results| {
      var n := |results| - 1;
      assert results[..n][..j] == results[..j];
      RunOfSticky(results[..n], j, ignore);
    } else {
      assert results[..j] == results;
    }
  }

  /** One more entry's result on top of the entries before it. */
  lemma RunOfNext(results: seq<Result<Option<Bundle>>>, i: nat, ignore: bool)
    requires i < |results| && RunOf(results[..i], ignore).error.None?
    ensures results[i].Ok? ==> RunOf(results[..i + 1], ignore) == Run(RunOf(results[..i], ignore).added + Added(results[i].value), None)
    ensures results[i].Err? && ignore && IsPolicyError(results[i].error) ==> RunOf(results[..i + 1], ignore) == RunOf(results[..i], ignore)
    ensures results[i].Err? && !(ignore && IsPolicyError(results[i].error)) ==> RunOf(results[..i + 1], ignore) == Run(RunOf(results[..i], ignore).added, Some(results[i].error))
  {
    assert results[..i + 1][..i] == results[..i];
  }

  /** One entry compiled into the ruleset. */
  method CompileEntry(ruleset: Ruleset, chainName: string, src: Value, config: Config, world: World, now: TimeWindows.DateTime) returns (o: Outcome)
    requires Loaded(src)
    modifies ruleset
    ensures ruleset.datapoints == old(ruleset.datapoints)
    ensures o.Pass? <==> Compiled(src, chainName, config, world, now).Ok?
    ensures o.Fail? ==> o.error == Compiled(src, chainName, config, world, now).error && ruleset.contents == old(ruleset.contents)
    ensures o.Pass? ==> ruleset.contents == old(ruleset.contents) + Added(Compiled(src, chainName, config, world, now).value)
  {
    var h := NewRule(src, config, world);
    if h.Err? {
      return Fail(h.error);
    }
    o := h.value.Insert(chainName, ruleset, world, now);
  }

  /** _parse_chain: every entry of the chain's "rules" in order. */
  method ParseChain(ruleset: Ruleset, chainName: string, content: Value, ignore: bool, config: Config, world: World, now: TimeWindows.DateTime) returns (o: Outcome)
    requires Loaded(content)
    modifies ruleset
    ensures ruleset.datapoints == old(ruleset.datapoints)
    ensures o.Pass? <==> ChainRun(chainName, content, ignore, config, world, now).error.None?
    ensures o.Fail? ==> o.error == ChainRun(chainName, content, ignore, config, world, now).error.value
    ensures ruleset.contents == old(ruleset.contents) + ChainRun(chainName, content, ignore, config, world, now).added
  {
    if !content.Obj? {
      if !(content.Str? || content.List?) || Contains(content, "rules") {
        return Fail(WrongKind("chain"));
      }
      return Pass;
    }
    var rulesValue := Lookup(content.fields, "rules");
    if rulesValue.None? {
      return Pass;
    }
    var entries := Iterated(rulesValue.value);
    if entries.None? {
      return Fail(WrongKind("rules"));
    }
    LoadedLookup(content.fields, "rules");
    LoadedIterated(rulesValue.value);
    o := RunEntries(ruleset, chainName, entries.value, ignore, config, world, now);
  }

  /** The loop of _parse_chain: each entry compiled in order, until one
      fails with an error that is not skipped. */
  method RunEntries(ruleset: Ruleset, chainName: string, rules: seq<Value>, ignore: bool, config: Config, world: World, now: TimeWindows.DateTime) returns (o: Outcome)
    requires forall k :: 0 <= k < |rules| ==> Loaded(rules[k])
    modifies ruleset
    ensures ruleset.datapoints == old(ruleset.datapoints)
    ensures o.Pass? <==> RulesRun(chainName, rules, ignore, config, world, now).error.None?
    ensures o.Fail? ==> Some(o.error) == RulesRun(chainName, rules, ignore, config, world, now).error
    ensures ruleset.contents == old(ruleset.contents) + RulesRun(chainName, rules, ignore, config, world, now).added
  {
    ghost var results := Results(chainName, rules, config, world, now);
    ghost var start := ruleset.contents;
    for i := 0 to |rules|
      invariant ruleset.datapoints == old(ruleset.datapoints)
      invariant RunOf(results[..i], ignore).error.None?
      invariant ruleset.contents == start + RunOf(results[..i], ignore).added
    {
      ghost var prior := RunOf(results[..i], ignore).added;
      var e := CompileEntry(ruleset, chainName, rules[i], config, world, now);
      assert results[i] == Compiled(rules[i], chainName, config, world, now);
      RunOfNext(results, i, ignore);
      if e.Pass? {
        SeqAssoc(start, prior, Added(results[i].value));
      }
      if e.Fail? && !(ignore && IsPolicyError(e.error)) {
        RunOfSticky(results, i + 1, ignore);
        return e;
      }
    }
    assert results[..|rules|] == results;
    o := Pass;
  }

  // ---------------------------------------------------------------- chain initialisation

  const InitName := "initializing all chains"

  /** The rules _initialize_chains gives one chain: its policy, when the
      chain sets a default, then its flush. `"default" in content` is
      tested as in _parse_chain: a str or list content without the word
      gets only its flush. */
  function ChainInit(chainName: string, content: Value): (r: Result<seq<seq<Axis>>>)
    ensures r.Ok? <==>
      (content.Obj? && (Lookup(content.fields, "default").None? || Lookup(content.fields, "default").value.Str?))
      || ((content.Str? || content.List?) && !Contains(content, "default"))
    ensures r.Ok? ==> 1 <= |r.value| <= 2 && r.value[|r.value| - 1] == FixedAxes([Chains.Flush(Chains.Parse(chainName))])
  {
    var chain := Chains.Parse(chainName);
    var flush := [FixedAxes([Chains.Flush(chain)])];
    if content.Obj? then
      match Lookup(content.fields, "default")
      case None => Ok(flush)
      case Some(Str(d)) => Ok([FixedAxes([Chains.Policy(chain), [Upper(d)]])] + flush)
      case Some(_) => Err(WrongKind("default"))
    else if !(content.Str? || content.List?) || Contains(content, "default") then Err(WrongKind("chain"))
    else Ok(flush)
  }

  /** The rules of every chain in order, or the first chain's error. */
  function Gathered(inits: seq<Result<seq<seq<Axis>>>>): Result<seq<seq<Axis>>>
    decreases |inits|
  {
    if inits == [] then Ok([])
    else
      var n := |inits| - 1;
      var init :- Gathered(inits[..n]);
      var last :- inits[n];
      Ok(init + last)
  }

  /** What initialising each chain on its own gives. */
  function ChainInits(chains: seq<(string, Value)>): (r: seq<Result<seq<seq<Axis>>>>)
    ensures |r| == |chains| && forall k :: 0 <= k < |chains| ==> r[k] == ChainInit(chains[k].0, chains[k].1)
  {
    seq(|chains|, k requires 0 <= k < |chains| => ChainInit(chains[k].0, chains[k].1))
  }

  /** The initialising bundle's rules over every chain, in order. */
  function InitRules(chains: seq<(string, Value)>): Result<seq<seq<Axis>>> {
    Gathered(ChainInits(chains))
  }

  /** A new rule of fixed components in the bundle. */
  method NewFixedRule(rules: Rules, parts: seq<Fragment>)
    modifies rules
    ensures rules.Snapshot().rules == old(rules.Snapshot().rules) + [FixedAxes(parts)]
  {
    ghost var olds := rules.rules;
    ghost var before := AxesOfRules(olds);
    assert rules.Snapshot().rules == before;
    var rule := rules.New();
    rule.AddFixed(parts);
    assert rule.Axes() == [] + FixedAxes(parts) == FixedAxes(parts);
    assert rules.rules == olds + [rule];
    assert AxesOfRules(olds) == before;
    AxesOfRulesSnoc(olds, rule);
  }

  /** The rules of one chain added to the initialising bundle. */
  method InitChain(rules: Rules, chainName: string, content: Value) returns (o: Outcome)
    modifies rules
    ensures o.Pass? <==> ChainInit(chainName, content).Ok?
    ensures o.Fail? ==> o.error == ChainInit(chainName, content).error
    ensures o.Pass? ==> rules.Snapshot().rules == old(rules.Snapshot().rules) + ChainInit(chainName, content).value
  {
    var chain := Chains.Parse(chainName);
    if !content.Obj? {
      if !(content.Str? || content.List?) || Contains(content, "default") {
        return Fail(WrongKind("chain"));
      }
      NewFixedRule(rules, [Chains.Flush(chain)]);
      return Pass;
    }
    var default := Lookup(content.fields, "default");
    ghost var before := rules.Snapshot().rules;
    if default.Some? {
      if !default.value.Str? {
        return Fail(WrongKind("default"));
      }
      NewFixedRule(rules, [Chains.Policy(chain), [Upper(default.value.s)]]);
    }
    NewFixedRule(rules, [Chains.Flush(chain)]);
    o := Pass;
    if default.Some? {
      assert rules.Snapshot().rules == before + ([FixedAxes([Chains.Policy(chain), [Upper(default.value.s)]])] + [FixedAxes([Chains.Flush(chain)])]);
    }
  }

  /** _initialize_chains: one bundle holding the policy and flush rules of
      every chain; nothing is added when a chain's default is not text. */
  method InitializeChains(ruleset: Ruleset, chains: seq<(string, Value)>) returns (o: Outcome)
    modifies ruleset
    ensures ruleset.datapoints == old(ruleset.datapoints)
    ensures o.Pass? <==> InitRules(chains).Ok?
    ensures o.Fail? ==> o.error == InitRules(chains).error && ruleset.contents == old(ruleset.contents)
    ensures o.Pass? ==> ruleset.contents == old(ruleset.contents) + [Bundle(InitName, InitRules(chains).value)]
  {
    var rules := new Rules(InitName);
    ghost var inits := ChainInits(chains);
    for i := 0 to |chains|
      modifies rules
      invariant fresh(rules) && rules.name == InitName
      invariant Gathered(inits[..i]) == Ok(rules.Snapshot().rules)
    {
      o := InitChain(rules, chains[i].0, chains[i].1);
      assert inits[i] == ChainInit(chains[i].0, chains[i].1);
      if o.Fail? {
        GatheredFails(inits, i);
        return;
      }
      GatheredNext(inits, i);
    }
    assert inits[..|chains|] == inits;
    ghost var b := rules.Snapshot();
    assert b == Bundle(InitName, InitRules(chains).value);
    ruleset.AddRules(rules);
    o := Pass;
  }

  /** One more chain that initialises extends the gathered rules. */
  lemma GatheredNext(inits: seq<Result<seq<seq<Axis>>>>, i: nat)
    requires i < |inits| && Gathered(inits[..i]).Ok? && inits[i].Ok?
    ensures Gathered(inits[..i + 1]) == Ok(Gathered(inits[..i]).value + inits[i].value)
  {
    assert inits[..i + 1][..i] == inits[..i];
  }

  /** The first chain that fails to initialise is the error of them all. */
  lemma GatheredFails(inits: seq<Result<seq<seq<Axis>>>>, i: nat)
    requires i < |inits| && Gathered(inits[..i]).Ok? && inits[i].Err?
    ensures Gathered(inits) == Err(inits[i].error)
  {
    assert inits[..i + 1][..i] == inits[..i];
    GatheredSticky(inits, i + 1);
  }

  lemma {:induction false} GatheredSticky(inits: seq<Result<seq<seq<Axis>>>>, j: nat)
    requires j <= |inits| && Gathered(inits[..j]).Err?
    ensures Gathered(inits) == Gathered(inits[..j])
    decreases |inits|
  {
    if j < |inits| {
      var n := |inits| - 1;
      assert inits[..n][..j] == inits[..j];
      GatheredSticky(inits[..n], j);
    } else {
      assert inits[..j] == inits;
    }
  }

  // ---------------------------------------------------------------- the whole ruleset

  /** _parse_ruleset after initialisation over the chains' runs: the
      chains in order, stopping at the first one that ends with an error. */
  function ChainsOf(runs: seq<Run>): Run
    decreases |runs|
  {
    if runs == [] then Run([], None)
    else
      var n := |runs| - 1;
      var prior := ChainsOf(runs[..n]);
      if prior.error.Some? then prior else Run(prior.added + runs[n].added, runs[n].error)
  }

  /** What running each chain on its own gives. */
  ghost function ChainRuns(chains: seq<(string, Value)>, ignore: bool, config: Config, world: World, now: TimeWindows.DateTime): (r: seq<Run>)
    ensures |r| == |chains| && forall k :: 0 <= k < |chains| ==> r[k] == ChainRun(chains[k].0, chains[k].1, ignore, config, world, now)
  {
    seq(|chains|, k requires 0 <= k < |chains| => ChainRun(chains[k].0, chains[k].1, ignore, config, world, now))
  }

  ghost function ChainsRun(chains: seq<(string, Value)>, ignore: bool, config: Config, world: World, now: TimeWindows.DateTime): Run {
    ChainsOf(ChainRuns(chains, ignore, config, world, now))
  }

  /** _parse_ruleset: the initialising bundle, then every chain's entries. */
  ghost function RulesetRun(chains: seq<(string, Value)>, ignore: bool, config: Config, world: World, now: TimeWindows.DateTime): Run {
    match InitRules(chains)
    case Err(e) => Run([], Some(e))
    case Ok(init) =>
      var rest := ChainsRun(chains, ignore, config, world, now);
      Run([Bundle(InitName, init)] + rest.added, rest.error)
  }

  lemma {:induction false} ChainsOfSticky(runs: seq<Run>, j: nat)
    requires j <= |runs| && ChainsOf(runs[..j]).error.Some?
    ensures ChainsOf(runs) == ChainsOf(runs[..j])
    decreases |runs|
  {
    if j < |runs| {
      var n := |runs| - 1;
      assert runs[..n][..j] == runs[..j];
      ChainsOfSticky(runs[..n], j);
    } else {
      assert runs[..j] == runs;
    }
  }

  /** The loop of _parse_ruleset over the chains. */
  method ParseChains(ruleset: Ruleset, chains: seq<(string, Value)>, ignore: bool, config: Config, world: World, now: TimeWindows.DateTime) returns (o: Outcome)
    requires forall k :: 0 <= k < |chains| ==> Loaded(chains[k].1)
    modifies ruleset
    ensures ruleset.datapoints == old(ruleset.datapoints)
    ensures o.Pass? <==> ChainsRun(chains, ignore, config, world, now).error.None?
    ensures o.Fail? ==> o.error == ChainsRun(chains, ignore, config, world, now).error.value
    ensures ruleset.contents == old(ruleset.contents) + ChainsRun(chains, ignore, config, world, now).added
  {
    ghost var runs := ChainRuns(chains, ignore, config, world, now);
    ghost var start := ruleset.contents;
    for i := 0 to |chains|
      invariant ruleset.datapoints == old(ruleset.datapoints)
      invariant ChainsOf(runs[..i]).error.None?
      invariant ruleset.contents == start + ChainsOf(runs[..i]).added
    {
      ghost var before := ruleset.contents;
      o := ParseChain(ruleset, chains[i].0, chains[i].1, ignore, config, world, now);
      assert runs[i] == ChainRun(chains[i].0, chains[i].1, ignore, config, world, now);
      ChainsOfNext(runs, i, start, before, ruleset.contents);
      if o.Fail? {
        ChainsOfSticky(runs, i + 1);
        return;
      }
    }
    assert runs[..|chains|] == runs;
    o := Pass;
  }

  /** One more chain run on top of the chains before it. */
  lemma ChainsOfNext(runs: seq<Run>, i: nat, start: seq<Bundle>, before: seq<Bundle>, after: seq<Bundle>)
    requires i < |runs| && ChainsOf(runs[..i]).error.None?
    requires before == start + ChainsOf(runs[..i]).added && after == before + runs[i].added
    ensures ChainsOf(runs[..i + 1]) == Run(ChainsOf(runs[..i]).added + runs[i].added, runs[i].error)
    ensures after == start + ChainsOf(runs[..i + 1]).added
  {
    assert runs[..i + 1][..i] == runs[..i];
  }

  /** _parse_ruleset: the chains initialised, then each chain's entries
      compiled in order. */
  method ParseRuleset(ruleset: Ruleset, chains: seq<(string, Value)>, ignore: bool, config: Config, world: World, now: TimeWindows.DateTime) returns (o: Outcome)
    requires Loaded(Obj(chains))
    modifies ruleset
    ensures ruleset.datapoints == old(ruleset.datapoints)
    ensures o.Pass? <==> RulesetRun(chains, ignore, config, world, now).error.None?
    ensures o.Fail? ==> o.error == RulesetRun(chains, ignore, config, world, now).error.value
    ensures ruleset.contents == old(ruleset.contents) + RulesetRun(chains, ignore, config, world, now).added
  {
    o := InitializeChains(ruleset, chains);
    if o.Fail? {
      return;
    }
    o := ParseChains(ruleset, chains, ignore, config, world, now);
    SeqAssoc(old(ruleset.contents), [Bundle(InitName, InitRules(chains).value)], ChainsRun(chains, ignore, config, world, now).added);
  }
}
