/** What the rule compiler promises: which fields an entry may have and
    how they are kept, which combinations the sanity check refuses, the
    fixed order of a rule's components, the port-forward and service
    fragments, and how the strict and lenient runs over a chain differ. */
module FirewallProperties {
  import opened Base
  import opened Text
  import opened Json
  import opened Rules
  import opened Firewalls
  import Chains
  import Criteria
  import Hostnames
  import Services
  import PortMaps
  import RegexMatches
  import Sorting
  import MultiEnums

  // ---------------------------------------------------------------- dispatch

  lemma {:induction false} StoredOk(entries: seq<Conversion>)
    ensures Stored(entries).Ok? <==> forall i :: 0 <= i < |entries| && !IsPrivate(entries[i].0) ==> entries[i].1.Ok?
    decreases |entries|
  {
    if entries != [] {
      var n := |entries| - 1;
      var init := entries[..n];
      StoredOk(init);
      if Stored(entries).Ok? {
        forall i | 0 <= i < |entries| && !IsPrivate(entries[i].0)
          ensures entries[i].1.Ok?
        {
          if i < n {
            assert init[i] == entries[i];
          }
        }
      } else if Stored(init).Err? {
        var i :| 0 <= i < n && !IsPrivate(init[i].0) && init[i].1.Err?;
        assert entries[i] == init[i];
      }
    }
  }

  lemma {:induction false} StoredKeys(entries: seq<Conversion>)
    requires Stored(entries).Ok?
    ensures forall key :: key in Stored(entries).value <==> !IsPrivate(key) && exists i :: 0 <= i < |entries| && entries[i].0 == key
    decreases |entries|
  {
    if entries != [] {
      var n := |entries| - 1;
      var init := entries[..n];
      StoredKeys(init);
      var m := Stored(init).value;
      assert Stored(entries).value.Keys == if IsPrivate(entries[n].0) then m.Keys else m.Keys + {entries[n].0};
      forall key
        ensures key in Stored(entries).value <==> !IsPrivate(key) && exists i :: 0 <= i < |entries| && entries[i].0 == key
      {
        if !IsPrivate(key) && exists i :: 0 <= i < |entries| && entries[i].0 == key {
          var i :| 0 <= i < |entries| && entries[i].0 == key;
          if i < n {
            assert entries[..n][i].0 == key;
          }
        }
        if exists i :: 0 <= i < n && entries[..n][i].0 == key {
          var i :| 0 <= i < n && entries[..n][i].0 == key;
          assert entries[i].0 == key;
        }
      }
    }
  }

  lemma {:induction false} StoredLast(entries: seq<Conversion>, i: nat)
    requires Stored(entries).Ok?
    requires i < |entries| && !IsPrivate(entries[i].0)
    requires forall j :: i < j < |entries| ==> entries[j].0 != entries[i].0
    ensures entries[i].0 in Stored(entries).value
    ensures entries[i].1 == Ok(Stored(entries).value[entries[i].0])
    decreases |entries|
  {
    var n := |entries| - 1;
    var init := entries[..n];
    if i < n {
      assert init[i] == entries[i];
      assert forall j :: i < j < n ==> init[j] == entries[j];
      StoredLast(init, i);
      assert Stored(entries).value == if IsPrivate(entries[n].0) then Stored(init).value else Stored(init).value[entries[n].0 := entries[n].1.value];
    }
  }

  /** The dispatch succeeds exactly when every field that is not private
      goes through its parser. */
  lemma ParsedFieldsOk(fields: seq<(string, Value)>, config: Config, world: World)
    ensures ParsedFields(fields, config, world).Ok? <==>
      forall i :: 0 <= i < |fields| && !IsPrivate(fields[i].0) ==> Converted(fields[i].0, fields[i].1, config, world).Ok?
  {
    StoredOk(Conversions(fields, config, world));
  }

  /** The parsed keys are exactly the keys of the entry that are not
      private. */
  lemma ParsedFieldsKeys(fields: seq<(string, Value)>, config: Config, world: World)
    requires ParsedFields(fields, config, world).Ok?
    ensures forall key :: key in ParsedFields(fields, config, world).value <==> Mentioned(fields, key)
  {
    var entries := Conversions(fields, config, world);
    StoredKeys(entries);
    forall key | Mentioned(fields, key)
      ensures key in ParsedFields(fields, config, world).value
    {
      var i :| 0 <= i < |fields| && fields[i].0 == key;
      assert entries[i].0 == key;
    }
  }

  /** A field with no later field of the same key is stored with its
      parser's value. */
  lemma LastOccurrenceWins(fields: seq<(string, Value)>, config: Config, world: World, i: nat)
    requires ParsedFields(fields, config, world).Ok?
    requires i < |fields| && !IsPrivate(fields[i].0)
    requires forall j :: i < j < |fields| ==> fields[j].0 != fields[i].0
    ensures fields[i].0 in ParsedFields(fields, config, world).value
    ensures Converted(fields[i].0, fields[i].1, config, world) == Ok(ParsedFields(fields, config, world).value[fields[i].0])
  {
    var entries := Conversions(fields, config, world);
    assert forall j :: i < j < |entries| ==> entries[j].0 == fields[j].0;
    StoredLast(entries, i);
  }

  /** An entry as json.load delivers it holds each key once: the dispatch
      succeeds exactly when every non-private key's value parses, and then
      stores under each such key exactly its parsed value. */
  lemma LoadedEntryFields(fields: seq<(string, Value)>, config: Config, world: World)
    requires DistinctKeys(fields)
    ensures ParsedFields(fields, config, world).Ok? <==>
      forall key :: Mentioned(fields, key) ==> Converted(key, Lookup(fields, key).value, config, world).Ok?
    ensures ParsedFields(fields, config, world).Ok? ==>
      forall key :: key in ParsedFields(fields, config, world).value <==> Mentioned(fields, key)
    ensures ParsedFields(fields, config, world).Ok? ==>
      forall key :: Mentioned(fields, key) ==> Converted(key, Lookup(fields, key).value, config, world) == Ok(ParsedFields(fields, config, world).value[key])
  {
    ParsedFieldsOk(fields, config, world);
    forall i | 0 <= i < |fields|
      ensures Lookup(fields, fields[i].0) == Some(fields[i].1)
    {
      DistinctLookup(fields, i);
    }
    if ParsedFields(fields, config, world).Ok? {
      ParsedFieldsKeys(fields, config, world);
      forall key | Mentioned(fields, key)
        ensures Converted(key, Lookup(fields, key).value, config, world) == Ok(ParsedFields(fields, config, world).value[key])
      {
        var i :| 0 <= i < |fields| && fields[i].0 == key;
        LastOccurrenceWins(fields, config, world, i);
      }
    } else {
      var i :| 0 <= i < |fields| && !IsPrivate(fields[i].0) && Converted(fields[i].0, fields[i].1, config, world).Err?;
      assert Mentioned(fields, fields[i].0);
    }
  }

  /** The first failing parser result is the dispatch's error. */
  lemma StoredFirstError(entries: seq<Conversion>, i: nat)
    requires i < |entries| && !IsPrivate(entries[i].0) && entries[i].1.Err?
    requires forall j :: 0 <= j < i && !IsPrivate(entries[j].0) ==> entries[j].1.Ok?
    ensures Stored(entries) == Err(entries[i].1.error)
  {
    var init := entries[..i];
    forall j | 0 <= j < i && !IsPrivate(init[j].0)
      ensures init[j].1.Ok?
    {
      assert init[j] == entries[j];
    }
    StoredOk(init);
    assert entries[..i + 1][..i] == init;
    StoredSticky(entries, i + 1);
  }

  /** A key in neither parser table makes the entry fail, and the failure
      is the unknown-type error when every field before it parses. */
  lemma UnknownKeyRejected(fields: seq<(string, Value)>, config: Config, world: World, i: nat)
    requires i < |fields| && !IsPrivate(fields[i].0) && !IsSimpleKey(fields[i].0) && !IsComplexKey(fields[i].0)
    requires forall j :: 0 <= j < i && !IsPrivate(fields[j].0) ==> Converted(fields[j].0, fields[j].1, config, world).Ok?
    ensures ParsedFields(fields, config, world) == Err(UnknownType(fields[i].0))
  {
    var entries := Conversions(fields, config, world);
    forall j | 0 <= j < i && !IsPrivate(entries[j].0)
      ensures entries[j].1.Ok?
    {
    }
    StoredFirstError(entries, i);
  }

  // ---------------------------------------------------------------- the sanity check

  /** No parser stores the key "service", so the service/proto exclusion
      can never be reported. */
  lemma ServiceProtoNeverFires(fields: seq<(string, Value)>, config: Config, world: World)
    requires ParsedFields(fields, config, world).Ok?
    ensures "service" !in ParsedFields(fields, config, world).value
    ensures SanityCheck(ParsedFields(fields, config, world).value, config, world.resolve) != Fail(IncompatibleOptions(ServiceWithProto))
  {
    var p := ParsedFields(fields, config, world).value;
    assert !IsSimpleKey("service") && !IsComplexKey("service");
    assert "service" !in p;
    assert SanityCheck(p, config, world.resolve) != Fail(IncompatibleOptions(ServiceWithProto));
  }

  /** The check passes exactly when no constraint is violated. */
  lemma SanityCheckPasses(p: map<string, Attr>, config: Config, resolve: Hostnames.Resolver)
    requires WellTyped(p)
    ensures SanityCheck(p, config, resolve).Pass? <==>
      && "action" in p
      && !("service" in p && "proto" in p)
      && !("icmp-type" in p && "proto" in p)
      && (p["action"].action == PortForward ==>
            && "dest-ifaddr" in p && "dest-service" in p && "forward-to" in p
            && !(p["forward-to"].target.relative.None? && p["forward-to"].target.port.Some?
                 && exists k :: 0 <= k < |p["dest-service"].views| && SpanCount(p["dest-service"].views[k]) > 1)
            && |Hostnames.Addresses(p["forward-to"].target.hostname, config.hosts, resolve)| == 1)
  {
  }

  /** A set of one element is that element's singleton. */
  lemma SingletonOf<T>(s: set<T>, x: T)
    requires |s| == 1 && x in s
    ensures s == {x}
  {
    assert |s - {x}| == 0;
  }

  /** A port forward that passed the check has one target address, and its
      destination service becomes one DNAT fragment per incoming port, all
      pointing at that address. */
  lemma ForwardBuilds(p: map<string, Attr>, config: Config, world: World) returns (host: string)
    requires Compilable(p) && SanityCheck(p, config, world.resolve).Pass? && p["action"].action == PortForward
    ensures Hostnames.Addresses(p["forward-to"].target.hostname, config.hosts, world.resolve) == {host}
    ensures ServiceAlts(p, Dest, config, world) == Ok(DnatFragments(DnatIncoming(p["dest-service"].views), p["forward-to"].target, host))
  {
    var t := p["forward-to"].target;
    var s := Hostnames.Addresses(t.hostname, config.hosts, world.resolve);
    assert |s| == 1;
    host :| host in s;
    SingletonOf(s, host);
    var h := Host(t.hostname, config, world.resolve);
    Hostnames.LenCountsDistinct(s);
    assert h.addresses[0] in s;
    assert Hostnames.GetItem(h, 0) == Ok(host);
  }

  // ---------------------------------------------------------------- the DNAT target

  /** The `--to` text is the host alone without a port; otherwise the host,
      a colon, and a number that reads back as incoming + offset for a
      relative target and as the given port for an absolute one. */
  lemma TargetTextParses(host: string, incoming: int, t: RegexMatches.ForwardTarget)
    ensures t.port.None? ==> TargetText(host, incoming, t) == host
    ensures t.port.Some? ==>
      && |TargetText(host, incoming, t)| > |host| + 1
      && TargetText(host, incoming, t)[..|host|] == host
      && TargetText(host, incoming, t)[|host|] == ':'
      && ParseInt(TargetText(host, incoming, t)[|host| + 1..]) == Some(if t.relative.Some? then incoming + t.port.value else t.port.value)
  {
    if t.port.Some? {
      var text := TargetText(host, incoming, t);
      var n := IntToString(TargetPort(incoming, t));
      assert |n| >= 1 by {
        if TargetPort(incoming, t) < 0 {
        }
      }
      assert text[|host| + 1..] == n;
      ParseIntOfString(TargetPort(incoming, t));
    }
  }

  /** Each incoming port sits in some view's list of incoming ports. */
  lemma {:induction false} DnatIncomingFrom(views: seq<Services.PortView>, k: nat)
    requires k < |DnatIncoming(views)|
    ensures exists j, m :: 0 <= j < |views| && 0 <= m < |ViewIncoming(views[j])| && DnatIncoming(views)[k] == ViewIncoming(views[j])[m]
    decreases |views|
  {
    var n := |views| - 1;
    var init := DnatIncoming(views[..n]);
    if k < |init| {
      DnatIncomingFrom(views[..n], k);
      var j, m :| 0 <= j < n && 0 <= m < |ViewIncoming(views[..n][j])| && init[k] == ViewIncoming(views[..n][j])[m];
      assert views[..n][j] == views[j];
    } else {
      assert DnatIncoming(views)[k] == ViewIncoming(views[n])[k - |init|];
    }
  }

  /** Every incoming port of a frozen map is one of its ports: a single
      port or the start of a range. */
  lemma ViewIncomingInPorts(proto: string, ports: set<int>, m: nat)
    requires m < |ViewIncoming(Services.ViewOf(proto, ports))|
    ensures ViewIncoming(Services.ViewOf(proto, ports))[m].proto == proto
    ensures ViewIncoming(Services.ViewOf(proto, ports))[m].port in ports
  {
    var v := Services.ViewOf(proto, ports);
    PortMaps.FrozenPartition(ports);
    if m < |v.single| {
      assert v.single[m] in PortMaps.FrozenSingles(ports);
    } else {
      var r := m - |v.single|;
      assert PortMaps.InRanges(PortMaps.FrozenRanges(ports), v.ranges[r].0) by {
        assert PortMaps.FrozenRanges(ports)[r].0 < PortMaps.FrozenRanges(ports)[r].1;
      }
    }
  }

  /** DNAT matches only ports the destination service names. */
  lemma DnatIncomingInService(c: map<string, set<int>>, k: nat)
    requires k < |DnatIncoming(Services.Views(c))|
    ensures DnatIncoming(Services.Views(c))[k].proto in c
    ensures DnatIncoming(Services.Views(c))[k].port in c[DnatIncoming(Services.Views(c))[k].proto]
  {
    var views := Services.Views(c);
    DnatIncomingFrom(views, k);
    var j, m :| 0 <= j < |views| && 0 <= m < |ViewIncoming(views[j])| && DnatIncoming(views)[k] == ViewIncoming(views[j])[m];
    var keys := Sorting.SortedSetStr(c.Keys);
    Sorting.DistinctCard(keys, c.Keys);
    assert views[j] == Services.ViewOf(keys[j], c[keys[j]]);
    ViewIncomingInPorts(keys[j], c[keys[j]], m);
  }

  // ---------------------------------------------------------------- services outside port forwarding

  /** A map of one port gives the one `--sport`/`--dport` match of that
      port. */
  lemma SinglePortAlternative(proto: string, ports: set<int>, side: Side) returns (x: int)
    requires |ports| == 1
    ensures ports == {x}
    ensures PlainViewAlts(Services.ViewOf(proto, ports), side) == Ok([PortMatch(proto, PortFlag(side), IntToString(x))])
  {
    x := Services.Least(ports).value;
    SingletonOf(ports, x);
  }

  /** A frozen map with a range holds at least two ports. */
  lemma RangeMeansSeveral(ports: set<int>)
    requires PortMaps.FrozenRanges(ports) != []
    ensures |ports| >= 2
  {
    PortMaps.FrozenPartition(ports);
    var rs := PortMaps.FrozenRanges(ports);
    assert rs[0].0 < rs[0].1;
    assert PortMaps.InRanges(rs, rs[0].0) && PortMaps.InRanges(rs, rs[0].1);
    assert rs[0].1 in ports - {rs[0].0};
    assert |ports - {rs[0].0}| == |ports| - 1;
  }

  /** A single port of a frozen map is one of its ports and no range
      covers it. */
  lemma SingleOutsideRanges(ports: set<int>, s: int)
    requires s in PortMaps.FrozenSingles(ports)
    ensures s in ports && !PortMaps.InRanges(PortMaps.FrozenRanges(ports), s)
  {
    PortMaps.FrozenPartition(ports);
  }

  /** As written, a lone single port next to a range is not emitted: the
      alternatives are the ranges' only, although that port belongs to the
      service and no range covers it. */
  lemma LoneSingleDropped(proto: string, ports: set<int>, side: Side)
    requires |PortMaps.FrozenSingles(ports)| == 1 && PortMaps.FrozenRanges(ports) != []
    ensures PlainViewAlts(Services.ViewOf(proto, ports), side) == Ok(RangeAlts(proto, PortMaps.FrozenRanges(ports), PortsFlag(side)))
    ensures PortMaps.FrozenSingles(ports)[0] in ports
    ensures !PortMaps.InRanges(PortMaps.FrozenRanges(ports), PortMaps.FrozenSingles(ports)[0])
  {
    RangeMeansSeveral(ports);
    SingleOutsideRanges(ports, PortMaps.FrozenSingles(ports)[0]);
    var v := Services.ViewOf(proto, ports);
    assert v.portCount != 1 && |v.single| == 1;
    assert [] + RangeAlts(proto, v.ranges, PortsFlag(side)) == RangeAlts(proto, v.ranges, PortsFlag(side));
  }

  /** No number's text holds a character other than a digit or a sign. */
  lemma NoSeparatorInNumber(i: int, d: char)
    requires !IsDigit(d) && d != '-'
    ensures d !in IntToString(i)
  {
    var t := if i < 0 then -i else i;
    var digits := NatToString(t);
    if i < 0 {
      assert IntToString(i) == "-" + digits;
      assert forall k :: 0 <= k < |IntToString(i)| ==> IntToString(i)[k] == '-' || IntToString(i)[k] == digits[k - 1];
    }
  }

  /** The multiport list of the singles splits at its commas into texts
      that read back as the single ports, in order. */
  lemma MultiportListParses(single: seq<int>)
    requires |single| >= 1
    ensures |Split(Join(PortTexts(single), ','), ',')| == |single|
    ensures forall k :: 0 <= k < |single| ==> ParseInt(Split(Join(PortTexts(single), ','), ',')[k]) == Some(single[k])
  {
    forall k | 0 <= k < |single|
      ensures ',' !in PortTexts(single)[k] && ParseInt(PortTexts(single)[k]) == Some(single[k])
    {
      NoSeparatorInNumber(single[k], ',');
      ParseIntOfString(single[k]);
    }
    SplitJoin(PortTexts(single), ',');
  }

  /** A range's text is its two ends around a colon. */
  lemma SpanTextParses(lo: int, hi: int)
    ensures Split(SpanText(lo, hi), ':') == [IntToString(lo), IntToString(hi)]
    ensures ParseInt(IntToString(lo)) == Some(lo) && ParseInt(IntToString(hi)) == Some(hi)
  {
    NoSeparatorInNumber(lo, ':');
    NoSeparatorInNumber(hi, ':');
    assert Join([IntToString(lo), IntToString(hi)], ':') == SpanText(lo, hi);
    SplitJoin([IntToString(lo), IntToString(hi)], ':');
    ParseIntOfString(lo);
    ParseIntOfString(hi);
  }

  // ---------------------------------------------------------------- component order

  /** The names of the named components, in order. */
  function GroupNames(axes: seq<Axis>): seq<string>
    decreases |axes|
  {
    if axes == [] then []
    else
      var last := axes[|axes| - 1];
      GroupNames(axes[..|axes| - 1]) + (if last.name.Some? then [last.name.value] else [])
  }

  lemma {:induction false} GroupNamesAppend(a: seq<Axis>, b: seq<Axis>)
    ensures GroupNames(a + b) == GroupNames(a) + GroupNames(b)
    decreases |b|
  {
    if b != [] {
      var n := |b| - 1;
      assert (a + b)[..|a + b| - 1] == a + b[..n];
      GroupNamesAppend(a, b[..n]);
    } else {
      assert a + b == a;
    }
  }

  /** Fixed components carry no name. */
  lemma {:induction false} GroupNamesFixed(parts: seq<Fragment>)
    ensures GroupNames(FixedAxes(parts)) == []
    decreases |parts|
  {
    if parts != [] {
      var n := |parts| - 1;
      assert FixedAxes(parts)[..n] == FixedAxes(parts[..n]);
      GroupNamesFixed(parts[..n]);
    }
  }

  function Opt(p: map<string, Attr>, key: string): seq<string> {
    if key in p then [key] else []
  }

  /** A side's groups: interface, network, service, interface address, host. */
  function SideOrder(p: map<string, Attr>, side: Side): seq<string> {
    Opt(p, IfKey(side)) + Opt(p, NetKey(side)) + Opt(p, ServiceKey(side)) + Opt(p, IfaddrKey(side)) + Opt(p, HostKey(side))
  }

  /** A dns-block criterion contributes its one group. */
  function CriterionNames(p: map<string, Attr>): seq<string>
    requires WellTyped(p)
  {
    if "criterion" in p && p["criterion"].criterion.kind == Criteria.DnsBlock then [Criteria.DnsGroup] else []
  }

  /** The order the groups of a rule are added in. */
  function GroupOrder(p: map<string, Attr>): seq<string>
    requires WellTyped(p)
  {
    Opt(p, "proto") + Opt(p, "icmp-type") + SideOrder(p, Src) + SideOrder(p, Dest) + CriterionNames(p)
  }

  /** An optional component of one named group. */
  lemma GroupNamesOptional(axes: seq<Axis>, present: bool, key: string)
    requires OptionalGroup(axes, present, key)
    ensures GroupNames(axes) == (if present then [key] else [])
  {
    if present {
      assert axes[..0] == [];
    }
  }

  /** A side's groups come in the order interface, network, service,
      interface address, host. */
  lemma SideNames(p: map<string, Attr>, side: Side, config: Config, world: World)
    requires Compilable(p) && SideAxes(p, side, config, world).Ok?
    ensures GroupNames(SideAxes(p, side, config, world).value) == SideOrder(p, side)
  {
    var ifs := IfAxes(p, side);
    var net := NetAxes(p, side, world.query).value;
    var service := ServiceAxes(p, side, config, world).value;
    var ifaddr := IfaddrAxes(p, side, world.query).value;
    var hosts := HostAxes(p, side);
    GroupNamesOptional(ifs, IfKey(side) in p, IfKey(side));
    GroupNamesOptional(net, NetKey(side) in p, NetKey(side));
    GroupNamesOptional(service, ServiceKey(side) in p, ServiceKey(side));
    GroupNamesOptional(ifaddr, IfaddrKey(side) in p, IfaddrKey(side));
    GroupNamesOptional(hosts, HostKey(side) in p, HostKey(side));
    GroupNamesAppend(ifs, net);
    GroupNamesAppend(ifs + net, service);
    GroupNamesAppend(ifs + net + service, ifaddr);
    GroupNamesAppend(ifs + net + service + ifaddr, hosts);
  }

  /** The head holds the chain append, then the protocol and ICMP groups. */
  lemma HeadNames(p: map<string, Attr>, chainName: string)
    requires WellTyped(p)
    ensures GroupNames(HeadAxes(p, chainName)) == Opt(p, "proto") + Opt(p, "icmp-type")
  {
    GroupNamesFixed([Chains.Append(Chains.Parse(chainName))]);
    GroupNamesOptional(ProtoAxes(p), "proto" in p, "proto");
    GroupNamesOptional(IcmpAxes(p), "icmp-type" in p, "icmp-type");
    GroupNamesAppend(ChainAxes(chainName), ProtoAxes(p));
    GroupNamesAppend(ChainAxes(chainName) + ProtoAxes(p), IcmpAxes(p));
  }

  /** The tail holds fixed components only. */
  lemma TailNames(p: map<string, Attr>)
    requires Compilable(p)
    ensures GroupNames(TailAxes(p)) == []
  {
    GroupNamesFixed([Jump(Upper(ActionValue(p["action"].action)))]);
    GroupNamesFixed([]);
    if "msg" in p {
      GroupNamesFixed([LogPrefix(p["msg"].text)]);
    }
    if "comment" in p {
      GroupNamesFixed([CommentMatch(p["comment"].text)]);
    }
    GroupNamesAppend(JumpAxes(p), LogAxes(p));
    GroupNamesAppend(JumpAxes(p) + LogAxes(p), CommentAxes(p));
  }

  /** The criterion and the tail: only a dns-block criterion names a group. */
  lemma RestNames(p: map<string, Attr>)
    requires Compilable(p) && RestAxes(p).Ok?
    ensures GroupNames(RestAxes(p).value) == CriterionNames(p)
  {
    RestAxesCases(p);
    CriterionGroupNames(p);
    TailNames(p);
    GroupNamesAppend(CriterionAxes(p).value, TailAxes(p));
  }

  /** The state criterion is a fixed component and a dns-block criterion
      one named group. */
  lemma CriterionGroupNames(p: map<string, Attr>)
    requires WellTyped(p) && CriterionAxes(p).Ok?
    ensures GroupNames(CriterionAxes(p).value) == CriterionNames(p)
  {
    var criterion := CriterionAxes(p).value;
    if "criterion" in p {
      var c := p["criterion"].criterion;
      Criteria.ComponentsShape(c);
      if c.kind == Criteria.State {
        GroupNamesFixed([Criteria.StateFragment]);
      } else {
        GroupNamesOptional(criterion, true, Criteria.DnsGroup);
      }
    }
  }

  /** A rule's two sides. */
  lemma SidesNames(p: map<string, Attr>, config: Config, world: World)
    requires Compilable(p) && SidesAxes(p, config, world).Ok?
    ensures GroupNames(SidesAxes(p, config, world).value) == SideOrder(p, Src) + SideOrder(p, Dest)
  {
    SidesAxesCases(p, config, world);
    SideNames(p, Src, config, world);
    SideNames(p, Dest, config, world);
    GroupNamesAppend(SideAxes(p, Src, config, world).value, SideAxes(p, Dest, config, world).value);
  }

  lemma Suffix<T>(a: seq<T>, b: seq<T>)
    ensures (a + b)[|a + b| - |b|..] == b
  {
  }

  /** A compiled rule starts with the chain append, names its groups in
      the fixed order protocol, ICMP type, the source side, the destination
      side, the criterion, and ends with the jump, log prefix and comment. */
  lemma ComponentOrder(p: map<string, Attr>, chainName: string, config: Config, world: World)
    requires Compilable(p) && RuleAxes(p, chainName, config, world).Ok?
    ensures RuleAxes(p, chainName, config, world).value[0] == Axis(None, [Chains.Append(Chains.Parse(chainName))])
    ensures GroupNames(RuleAxes(p, chainName, config, world).value) == GroupOrder(p)
    ensures |RuleAxes(p, chainName, config, world).value| >= |TailAxes(p)|
    ensures RuleAxes(p, chainName, config, world).value[|RuleAxes(p, chainName, config, world).value| - |TailAxes(p)|..] == TailAxes(p)
  {
    RuleAxesCases(p, chainName, config, world);
    RestAxesCases(p);
    var head := HeadAxes(p, chainName);
    var sides := SidesAxes(p, config, world).value;
    var criterion := CriterionAxes(p).value;
    var rest := RestAxes(p).value;
    var axes := RuleAxes(p, chainName, config, world).value;
    assert axes == head + sides + rest;
    HeadNames(p, chainName);
    SidesNames(p, config, world);
    RestNames(p);
    GroupNamesAppend(head, sides);
    GroupNamesAppend(head + sides, rest);
    assert GroupNames(axes) == Opt(p, "proto") + Opt(p, "icmp-type") + (SideOrder(p, Src) + SideOrder(p, Dest)) + CriterionNames(p);
    SeqAssoc(Opt(p, "proto") + Opt(p, "icmp-type"), SideOrder(p, Src), SideOrder(p, Dest));
    assert |ChainAxes(chainName)| == 1;
    assert head[0] == ChainAxes(chainName)[0];
    assert axes[0] == head[0];
    assert rest == criterion + TailAxes(p);
    SeqAssoc(head + sides, criterion, TailAxes(p));
    Suffix(head + sides + criterion, TailAxes(p));
  }

  // ---------------------------------------------------------------- strict and lenient runs

  /** The bundles of the entries that compiled, in order. */
  function Bundles(results: seq<Result<Option<Bundle>>>): seq<Bundle>
    decreases |results|
  {
    if results == [] then []
    else
      var n := |results| - 1;
      Bundles(results[..n]) + (if results[n].Ok? then Added(results[n].value) else [])
  }

  /** An entry error the lenient run does not skip. */
  predicate Foreign(r: Result<Option<Bundle>>) {
    r.Err? && !IsPolicyError(r.error)
  }

  /** When every entry compiles, both runs add every bundle and end
      without error. */
  lemma {:induction false} CleanRunsAgree(results: seq<Result<Option<Bundle>>>, ignore: bool)
    requires forall k :: 0 <= k < |results| ==> results[k].Ok?
    ensures RunOf(results, ignore) == Run(Bundles(results), None)
    decreases |results|
  {
    if results != [] {
      var n := |results| - 1;
      assert forall k :: 0 <= k < n ==> results[..n][k] == results[k];
      CleanRunsAgree(results[..n], ignore);
    }
  }

  /** The strict run stops at the first error, keeping the bundles of the
      entries before it. */
  lemma StrictStopsAtFirstError(results: seq<Result<Option<Bundle>>>, i: nat)
    requires i < |results| && results[i].Err?
    requires forall k :: 0 <= k < i ==> results[k].Ok?
    ensures RunOf(results, false) == Run(Bundles(results[..i]), Some(results[i].error))
  {
    var init := results[..i];
    assert forall k :: 0 <= k < i ==> init[k] == results[k];
    CleanRunsAgree(init, false);
    assert results[..i + 1][..i] == init;
    RunOfSticky(results, i + 1, false);
  }

  /** The lenient run skips the compiler's own errors: without a foreign
      error it adds exactly the bundles of the entries that compiled. */
  lemma {:induction false} LenientSkipsPolicyErrors(results: seq<Result<Option<Bundle>>>)
    requires forall k :: 0 <= k < |results| ==> !Foreign(results[k])
    ensures RunOf(results, true) == Run(Bundles(results), None)
    decreases |results|
  {
    if results != [] {
      var n := |results| - 1;
      assert forall k :: 0 <= k < n ==> results[..n][k] == results[k];
      LenientSkipsPolicyErrors(results[..n]);
    }
  }

  /** The lenient run fails exactly when some entry raises a foreign
      error, and the first such error is the one reported. */
  lemma LenientFailsOnForeignError(results: seq<Result<Option<Bundle>>>, i: nat)
    requires i < |results| && Foreign(results[i])
    requires forall k :: 0 <= k < i ==> !Foreign(results[k])
    ensures RunOf(results, true) == Run(Bundles(results[..i]), Some(results[i].error))
  {
    var init := results[..i];
    assert forall k :: 0 <= k < i ==> init[k] == results[k];
    LenientSkipsPolicyErrors(init);
    assert results[..i + 1][..i] == init;
    RunOfSticky(results, i + 1, true);
  }

  /** Both directions for one chain's entries: the strict run ends cleanly
      exactly when every entry compiles, the lenient run exactly when no
      entry raises a foreign error. */
  lemma ChainRunClean(chainName: string, rules: seq<Value>, config: Config, world: World, now: TimeWindows.DateTime)
    ensures RulesRun(chainName, rules, false, config, world, now).error.None? <==>
      forall k :: 0 <= k < |rules| ==> Compiled(rules[k], chainName, config, world, now).Ok?
    ensures RulesRun(chainName, rules, true, config, world, now).error.None? <==>
      forall k :: 0 <= k < |rules| ==> !Foreign(Compiled(rules[k], chainName, config, world, now))
  {
    var results := Results(chainName, rules, config, world, now);
    if forall k :: 0 <= k < |results| ==> results[k].Ok? {
      CleanRunsAgree(results, false);
    } else {
      var i := FirstWhere(results, false);
      StrictStopsAtFirstError(results, i);
    }
    if forall k :: 0 <= k < |results| ==> !Foreign(results[k]) {
      LenientSkipsPolicyErrors(results);
    } else {
      var i := FirstWhere(results, true);
      LenientFailsOnForeignError(results, i);
    }
  }

  /** The first entry that stops a run. */
  lemma FirstWhere(results: seq<Result<Option<Bundle>>>, ignore: bool) returns (i: nat)
    requires exists k :: 0 <= k < |results| && (if ignore then Foreign(results[k]) else results[k].Err?)
    ensures i < |results| && (if ignore then Foreign(results[i]) else results[i].Err?)
    ensures forall k :: 0 <= k < i ==> !(if ignore then Foreign(results[k]) else results[k].Err?)
  {
    var k :| 0 <= k < |results| && (if ignore then Foreign(results[k]) else results[k].Err?);
    i := 0;
    while !(if ignore then Foreign(results[i]) else results[i].Err?)
      invariant i <= k
      invariant forall j :: 0 <= j < i ==> !(if ignore then Foreign(results[j]) else results[j].Err?)
      decreases k - i
    {
      i := i + 1;
    }
  }

  // ---------------------------------------------------------------- initialisation

  lemma {:induction false} GatheredOk(inits: seq<Result<seq<seq<Axis>>>>)
    ensures Gathered(inits).Ok? <==> forall k :: 0 <= k < |inits| ==> inits[k].Ok?
    decreases |inits|
  {
    if inits != [] {
      var n := |inits| - 1;
      var init := inits[..n];
      GatheredOk(init);
      if Gathered(inits).Ok? {
        forall k | 0 <= k < |inits|
          ensures inits[k].Ok?
        {
          if k < n {
            assert init[k] == inits[k];
          }
        }
      } else if Gathered(init).Err? {
        var k :| 0 <= k < n && init[k].Err?;
        assert init[k] == inits[k];
      }
    }
  }

  lemma {:induction false} GatheredSize(inits: seq<Result<seq<seq<Axis>>>>)
    requires Gathered(inits).Ok?
    requires forall k :: 0 <= k < |inits| && inits[k].Ok? ==> 1 <= |inits[k].value| <= 2
    ensures |inits| <= |Gathered(inits).value| <= 2 * |inits|
    decreases |inits|
  {
    if inits != [] {
      var n := |inits| - 1;
      assert forall k :: 0 <= k < n ==> inits[..n][k] == inits[k];
      GatheredSize(inits[..n]);
    }
  }

  lemma {:induction false} GatheredHolds(inits: seq<Result<seq<seq<Axis>>>>, k: nat, j: nat)
    requires Gathered(inits).Ok? && k < |inits| && inits[k].Ok? && j < |inits[k].value|
    ensures inits[k].value[j] in Gathered(inits).value
    decreases |inits|
  {
    var n := |inits| - 1;
    var init := inits[..n];
    if k < n {
      assert init[k] == inits[k];
      GatheredHolds(init, k, j);
    }
  }

  /** Initialisation succeeds exactly when every chain initialises; each
      chain gives one or two rules. */
  lemma InitRulesOk(chains: seq<(string, Value)>)
    ensures InitRules(chains).Ok? <==> forall k :: 0 <= k < |chains| ==> ChainInit(chains[k].0, chains[k].1).Ok?
    ensures InitRules(chains).Ok? ==> |chains| <= |InitRules(chains).value| <= 2 * |chains|
  {
    GatheredOk(ChainInits(chains));
    if InitRules(chains).Ok? {
      GatheredSize(ChainInits(chains));
    }
  }

  /** Every chain is flushed. */
  lemma FlushPerChain(chains: seq<(string, Value)>, k: nat)
    requires InitRules(chains).Ok? && k < |chains|
    ensures FixedAxes([Chains.Flush(Chains.Parse(chains[k].0))]) in InitRules(chains).value
  {
    var inits := ChainInits(chains);
    GatheredOk(inits);
    GatheredHolds(inits, k, |inits[k].value| - 1);
  }

  /** A chain whose content is a list without the element "default"
      (an empty list, say) is flushed and gets no policy. */
  lemma ListContentIsFlushed(chainName: string, items: seq<Value>)
    requires Str("default") !in items
    ensures InitRules([(chainName, List(items))]) == Ok([FixedAxes([Chains.Flush(Chains.Parse(chainName))])])
  {
    var chains := [(chainName, List(items))];
    var inits := ChainInits(chains);
    var flush := [FixedAxes([Chains.Flush(Chains.Parse(chainName))])];
    assert !Contains(List(items), "default");
    assert inits[0] == ChainInit(chainName, List(items)) == Ok(flush);
    assert inits[..0] == [];
    GatheredNext(inits, 0);
    assert inits[..1] == inits;
    assert [] + flush == flush;
  }

  /** A str or list chain content is searched for "rules" as a substring or
      an element: without it the chain compiles nothing and ends cleanly,
      with it indexing the content by a str fails. */
  lemma NonDictContentRuns(chainName: string, content: Value, ignore: bool, config: Config, world: World, now: TimeWindows.DateTime)
    requires content.Str? || content.List?
    ensures !Contains(content, "rules") ==> ChainRun(chainName, content, ignore, config, world, now) == Run([], None)
    ensures Contains(content, "rules") ==> ChainRun(chainName, content, ignore, config, world, now) == Run([], Some(WrongKind("chain")))
  {
  }

  /** A str or dict under "rules" is iterated: with no characters or keys
      the chain compiles nothing and ends cleanly; otherwise its first
      character or key is an entry that is not a dict, whose AttributeError
      stops both the strict and the lenient run. */
  lemma IteratedRules(chainName: string, fields: seq<(string, Value)>, v: Value, ignore: bool, config: Config, world: World, now: TimeWindows.DateTime)
    requires Lookup(fields, "rules") == Some(v) && (v.Str? || v.Obj?)
    ensures Iterated(v).value == [] ==> ChainRun(chainName, Obj(fields), ignore, config, world, now) == Run([], None)
    ensures Iterated(v).value != [] ==> ChainRun(chainName, Obj(fields), ignore, config, world, now) == Run([], Some(WrongKind("rule")))
  {
    var items := Iterated(v).value;
    var results := Results(chainName, items, config, world, now);
    assert RulesRun(chainName, items, ignore, config, world, now) == RunOf(results, ignore);
    if items != [] {
      assert !items[0].Obj?;
      assert results[0] == Err(WrongKind("rule"));
      assert results[..0] == [];
      RunOfNext(results, 0, ignore);
      RunOfSticky(results, 1, ignore);
    }
  }

  // ---------------------------------------------------------------- the whole ruleset

  /** The chains' runs end cleanly exactly when each one does, and then
      every chain's bundles are kept in order. */
  lemma {:induction false} ChainsOfClean(runs: seq<Run>)
    ensures ChainsOf(runs).error.None? <==> forall k :: 0 <= k < |runs| ==> runs[k].error.None?
    decreases |runs|
  {
    if runs != [] {
      var n := |runs| - 1;
      var init := runs[..n];
      ChainsOfClean(init);
      if ChainsOf(runs).error.None? {
        forall k | 0 <= k < |runs|
          ensures runs[k].error.None?
        {
          if k < n {
            assert init[k] == runs[k];
          }
        }
      } else if ChainsOf(init).error.Some? {
        var k :| 0 <= k < n && init[k].error.Some?;
        assert init[k] == runs[k];
      }
    }
  }

  /** A whole ruleset compiles cleanly exactly when initialisation
      succeeds and every chain's run ends without error. */
  lemma RulesetClean(chains: seq<(string, Value)>, ignore: bool, config: Config, world: World, now: TimeWindows.DateTime)
    ensures RulesetRun(chains, ignore, config, world, now).error.None? <==>
      InitRules(chains).Ok? && forall k :: 0 <= k < |chains| ==> ChainRun(chains[k].0, chains[k].1, ignore, config, world, now).error.None?
    ensures InitRules(chains).Ok? ==> RulesetRun(chains, ignore, config, world, now).added[0] == Bundle(InitName, InitRules(chains).value)
  {
    ChainsOfClean(ChainRuns(chains, ignore, config, world, now));
  }
}
