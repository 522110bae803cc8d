/** Interfaces: a comma-separated list of logical interface names, each
    either a name to include (looked up in the reversed "interfaces" table)
    or `!name`, which includes every configured device whose logical name
    is not `name`. The selected devices are deduplicated and sorted; the
    three iterators yield the device names, their IPv4 addresses, or the
    networks those addresses lie in. The address query is a parameter. */
module Interfaces {
  import opened Base
  import opened Text
  import opened Sorting

  /** The "interfaces" table in document order: (device, logical name). */
  type Table = seq<(string, string)>

  // ---------------------------------------------------------------- interfaces-rev

  /** `{ value: key for (key, value) in interfaces.items() }`: logical name
      to device, a later entry replacing an earlier one with the same name. */
  function Reversed(t: Table): (rev: map<string, string>)
    ensures forall l :: l in rev <==> exists k :: 0 <= k < |t| && t[k].1 == l
  {
    if t == [] then map[]
    else
      var n := |t| - 1;
      assert forall k :: 0 <= k < n ==> t[..n][k] == t[k];
      Reversed(t[..n])[t[n].1 := t[n].0]
  }

  /** Each logical name maps to the device of its last entry. */
  lemma {:induction false} ReversedLast(t: Table, k: nat)
    requires k < |t| && forall j :: k < j < |t| ==> t[j].1 != t[k].1
    ensures Reversed(t)[t[k].1] == t[k].0
  {
    var n := |t| - 1;
    if k < n {
      assert forall j :: k < j < n ==> t[..n][j] == t[j];
      ReversedLast(t[..n], k);
    }
  }

  /** With distinct logical names the reversed table is the exact inverse:
      every entry is found again under its logical name. */
  lemma ReversedInverts(t: Table)
    requires forall i, j :: 0 <= i < j < |t| ==> t[i].1 != t[j].1
    ensures forall k :: 0 <= k < |t| ==> t[k].1 in Reversed(t) && Reversed(t)[t[k].1] == t[k].0
  {
    forall k | 0 <= k < |t|
      ensures t[k].1 in Reversed(t) && Reversed(t)[t[k].1] == t[k].0
    {
      ReversedLast(t, k);
    }
  }

  // ---------------------------------------------------------------- selecting devices

  /** The devices `!name` adds: every configured device whose logical name
      differs. */
  function Excluding(t: Table, name: string): (r: set<string>)
    ensures forall d :: d in r <==> exists k :: 0 <= k < |t| && t[k].0 == d && t[k].1 != name
  {
    set k | 0 <= k < |t| && t[k].1 != name :: t[k].0
  }

  /** Whether some entry carries the excluded logical name. */
  predicate Mentioned(t: Table, name: string) {
    exists k :: 0 <= k < |t| && t[k].1 == name
  }

  /** The devices one comma part adds. */
  function PartDevices(part: string, t: Table, rev: map<string, string>): Result<set<string>> {
    if |part| >= 1 && part[0] == '!' then Ok(Excluding(t, part[1..]))
    else if part in rev then Ok({rev[part]})
    else Err(UnknownInterface(part))
  }

  /** The union of what the parts add, in order, up to the first unknown name. */
  function Selected(parts: seq<string>, t: Table, rev: map<string, string>): Result<set<string>> {
    if parts == [] then Ok({})
    else
      var n := |parts| - 1;
      match Selected(parts[..n], t, rev)
      case Err(e) => Err(e)
      case Ok(s) =>
        (match PartDevices(parts[n], t, rev)
         case Err(e) => Err(e)
         case Ok(x) => Ok(s + x))
  }

  /** The excluded names that matched no entry, each of which prints a warning. */
  function Unmatched(parts: seq<string>, t: Table): seq<string> {
    if parts == [] then []
    else
      var n := |parts| - 1;
      var p := parts[n];
      Unmatched(parts[..n], t) + (if |p| >= 1 && p[0] == '!' && !Mentioned(t, p[1..]) then [p[1..]] else [])
  }

  /** _add_interface_name for an exclusion: the loop over the table. */
  method AddExcluding(found: set<string>, t: Table, name: string) returns (r: set<string>, haveExcluded: bool)
    ensures r == found + Excluding(t, name)
    ensures haveExcluded <==> Mentioned(t, name)
  {
    r := found;
    haveExcluded := false;
    for i := 0 to |t|
      invariant r == found + Excluding(t[..i], name)
      invariant haveExcluded <==> Mentioned(t[..i], name)
    {
      assert forall k :: 0 <= k < i ==> t[..i + 1][k] == t[..i][k];
      var (device, logical) := t[i];
      if logical != name {
        r := r + {device};
      } else {
        haveExcluded := true;
      }
      assert t[..i + 1][i] == t[i];
    }
    assert t[..|t|] == t;
  }

  /** Interface(text, config): every comma part added to the device set,
      then the set sorted. An unknown plain name raises; an exclusion that
      matched nothing only warns. */
  method Select(text: string, t: Table, rev: map<string, string>) returns (r: Result<seq<string>>, warnings: seq<string>)
    ensures Selected(Split(text, ','), t, rev).Err? ==> r == Err(Selected(Split(text, ','), t, rev).error)
    ensures Selected(Split(text, ','), t, rev).Ok? ==>
      r == Ok(SortedSetStr(Selected(Split(text, ','), t, rev).value)) && warnings == Unmatched(Split(text, ','), t)
  {
    var parts := Split(text, ',');
    var found: set<string> := {};
    warnings := [];
    for i := 0 to |parts|
      invariant Selected(parts[..i], t, rev) == Ok(found)
      invariant warnings == Unmatched(parts[..i], t)
    {
      assert parts[..i + 1][..i] == parts[..i];
      var part := parts[i];
      if |part| >= 1 && part[0] == '!' {
        var haveExcluded;
        found, haveExcluded := AddExcluding(found, t, part[1..]);
        if !haveExcluded {
          warnings := warnings + [part[1..]];
        }
      } else {
        if part !in rev {
          UnknownStops(parts, t, rev, i + 1);
          return Err(UnknownInterface(part)), warnings;
        }
        found := found + {rev[part]};
      }
    }
    assert parts[..|parts|] == parts;
    var sorted := SortStringSet(found);
    StrictlySortedStrUnique(sorted, SortedSetStr(found));
    return Ok(sorted), warnings;
  }

  /** Once a prefix of the parts fails, so do all longer prefixes, with the
      same error. */
  lemma {:induction false} UnknownStops(parts: seq<string>, t: Table, rev: map<string, string>, i: nat)
    requires 0 < i <= |parts| && Selected(parts[..i], t, rev).Err?
    ensures Selected(parts, t, rev) == Selected(parts[..i], t, rev)
    decreases |parts| - i
  {
    if i < |parts| {
      assert parts[..i + 1][..i] == parts[..i];
      UnknownStops(parts, t, rev, i + 1);
    } else {
      assert parts[..i] == parts;
    }
  }

  /** A plain name selects exactly its device; an unknown one is an error. */
  lemma PlainName(name: string, t: Table, rev: map<string, string>)
    requires |name| == 0 || name[0] != '!'
    ensures name in rev ==> Selected([name], t, rev) == Ok({rev[name]})
    ensures name !in rev ==> Selected([name], t, rev) == Err(UnknownInterface(name))
  {
    var none: seq<string> := [];
    assert [name][..0] == none;
    assert Selected(none, t, rev) == Ok({});
    var empty: set<string> := {};
    assert name in rev ==> empty + {rev[name]} == {rev[name]};
  }

  /** Two exclusions are unioned: `!a,!b` with a != b selects every
      configured device, as each device differs from at least one of them. */
  lemma ExclusionsUnion(t: Table, a: string, b: string, rev: map<string, string>)
    requires a != b
    ensures Selected(["!" + a, "!" + b], t, rev) == Ok(set k | 0 <= k < |t| :: t[k].0)
  {
    var pa, pb := "!" + a, "!" + b;
    var none: seq<string> := [];
    assert pa[1..] == a && pb[1..] == b;
    assert [pa, pb][..1] == [pa] && [pa][..0] == none;
    assert Selected(none, t, rev) == Ok({});
    var empty: set<string> := {};
    assert empty + Excluding(t, a) == Excluding(t, a);
    assert Selected([pa], t, rev) == Ok(Excluding(t, a));
    assert Selected([pa, pb], t, rev) == Ok(Excluding(t, a) + Excluding(t, b));
    var all := set k | 0 <= k < |t| :: t[k].0;
    forall d | d in all ensures d in Excluding(t, a) + Excluding(t, b) {
      var k :| 0 <= k < |t| && t[k].0 == d;
      if t[k].1 == a {
        assert t[k].1 != b;
      }
    }
    assert Excluding(t, a) + Excluding(t, b) == all;
  }

  // ---------------------------------------------------------------- addresses and networks

  /** An IPv4 address as its four octets, most significant first. */
  datatype Quad = Quad(a: bv8, b: bv8, c: bv8, d: bv8)

  /** One address line of `ip addr show`: protocol tag, address, prefix length. */
  datatype AddrEntry = AddrEntry(proto: string, address: Quad, cidr: nat)

  /** The address query of a device; None when `ip` fails for it. */
  type Query = string -> Option<seq<AddrEntry>>

  /** int.from_bytes(..., "big") of the four octets. */
  function ToWord(q: Quad): bv32 {
    (q.a as bv32 << 24) | (q.b as bv32 << 16) | (q.c as bv32 << 8) | q.d as bv32
  }

  /** int.to_bytes(..., "big", length = 4). */
  function FromWord(w: bv32): Quad {
    Quad((w >> 24) as bv8, ((w >> 16) & 0xFF) as bv8, ((w >> 8) & 0xFF) as bv8, (w & 0xFF) as bv8)
  }

  /** The octets and the word are two views of one address. */
  lemma WordRoundTrip(q: Quad, w: bv32)
    ensures FromWord(ToWord(q)) == q
    ensures ToWord(FromWord(w)) == w
  {
  }

  /** ((1 << cidr) - 1) << (32 - cidr). For cidr <= 32 the value is below
      2^32, so evaluating it on 32-bit words gives Python's result. */
  function Mask(cidr: nat): bv32
    requires cidr <= 32
  {
    ((1 as bv32 << cidr) - 1) << (32 - cidr)
  }

  /** address AND mask. */
  function Network(address: Quad, cidr: nat): Quad
    requires cidr <= 32
  {
    FromWord(ToWord(address) & Mask(cidr))
  }

  /** A /32 network is the address itself. */
  lemma FullPrefixKeepsAddress(address: Quad)
    ensures Network(address, 32) == address
  {
    assert Mask(32) == 0xFFFF_FFFF;
    WordRoundTrip(address, 0);
  }

  /** A /0 network is 0.0.0.0. */
  lemma EmptyPrefixIsZero(address: Quad)
    ensures Network(address, 0) == Quad(0, 0, 0, 0)
  {
    assert Mask(0) == 0;
  }

  /** The network keeps the address's bits under the mask ... */
  lemma NetworkKeepsPrefix(address: Quad, cidr: nat)
    requires cidr <= 32
    ensures ToWord(Network(address, cidr)) & Mask(cidr) == ToWord(address) & Mask(cidr)
  {
    NetworkWord(address, Mask(cidr));
    MaskedWord(ToWord(address), Mask(cidr));
  }

  /** ... and clears the others ... */
  lemma NetworkClearsHost(address: Quad, cidr: nat)
    requires cidr <= 32
    ensures ToWord(Network(address, cidr)) & !Mask(cidr) == 0
  {
    NetworkWord(address, Mask(cidr));
    MaskedWord(ToWord(address), Mask(cidr));
  }

  /** ... so taking the network again changes nothing. */
  lemma NetworkIdempotent(address: Quad, cidr: nat)
    requires cidr <= 32
    ensures Network(Network(address, cidr), cidr) == Network(address, cidr)
  {
    var m := Mask(cidr);
    NetworkWord(address, m);
    MaskedWord(ToWord(address), m);
  }

  /** The word of a masked address is the masked word. */
  lemma NetworkWord(address: Quad, m: bv32)
    ensures ToWord(FromWord(ToWord(address) & m)) == ToWord(address) & m
  {
    WordRoundTrip(address, ToWord(address) & m);
  }

  lemma MaskedWord(x: bv32, m: bv32)
    ensures (x & m) & m == x & m && (x & m) & !m == 0
  {
  }

  /** 10.1.2.3/24 lies in 10.1.2.0/24. */
  lemma NetworkExample()
    ensures Network(Quad(10, 1, 2, 3), 24) == Quad(10, 1, 2, 0)
  {
    assert Mask(24) == 0xFFFF_FF00;
  }

  /** The dotted-quad text of an address. */
  function QuadText(q: Quad): string {
    NatToString(q.a as nat) + "." + NatToString(q.b as nat) + "." + NatToString(q.c as nat) + "." + NatToString(q.d as nat)
  }

  /** The IPv4 ("inet") entries of an address list; others are skipped. */
  function InetEntries(es: seq<AddrEntry>): (r: seq<AddrEntry>)
    ensures forall e :: e in r <==> e in es && e.proto == "inet"
  {
    if es == [] then []
    else (if es[0].proto == "inet" then [es[0]] else []) + InetEntries(es[1..])
  }

  /** The "network/cidr" texts of the entries; a prefix length above 32 makes
      the mask's shift count negative, which raises. */
  function EntryNetworks(es: seq<AddrEntry>): (r: Result<seq<string>>)
    ensures r.Ok? <==> forall k :: 0 <= k < |es| ==> es[k].cidr <= 32
    ensures r.Ok? ==> |r.value| == |es| && forall k :: 0 <= k < |es| ==> r.value[k] == NetworkText(es[k])
  {
    if forall k :: 0 <= k < |es| ==> es[k].cidr <= 32 then
      Ok(seq(|es|, k requires 0 <= k < |es| => NetworkText(es[k])))
    else
      Err(InvalidValue("negative shift count"))
  }

  /** The "network/cidr" text of one entry. */
  function NetworkText(e: AddrEntry): string
    requires e.cidr <= 32
  {
    QuadText(Network(e.address, e.cidr)) + "/" + NatToString(e.cidr)
  }

  /** The networks of one device, or why there are none. */
  function NetworksOf(d: string, query: Query): (r: Result<seq<string>>)
    ensures r.Ok? <==> query(d).Some? && EntryNetworks(InetEntries(query(d).value)).Ok?
  {
    match query(d)
    case None => Err(UnknownInterface(d))
    case Some(es) => EntryNetworks(InetEntries(es))
  }

  /** InterfaceNetwork iteration: device by device, the networks of its
      IPv4 addresses. A device the query fails for raises unknown-interface. */
  function Networks(devices: seq<string>, query: Query): (r: Result<seq<string>>)
    ensures r.Ok? <==> forall d :: d in devices ==> NetworksOf(d, query).Ok?
  {
    if devices == [] then Ok([])
    else
      assert devices == [devices[0]] + devices[1..];
      match NetworksOf(devices[0], query)
      case Err(e) => Err(e)
      case Ok(first) =>
        (match Networks(devices[1..], query)
         case Err(e) => Err(e)
         case Ok(rest) => Ok(first + rest))
  }

  /** When every query succeeds with valid prefixes, the networks are those
      of the first device, then those of the others. */
  lemma NetworksInDeviceOrder(d: string, rest: seq<string>, query: Query)
    requires NetworksOf(d, query).Ok? && Networks(rest, query).Ok?
    ensures Networks([d] + rest, query) == Ok(EntryNetworks(InetEntries(query(d).value)).value + Networks(rest, query).value)
  {
    assert ([d] + rest)[1..] == rest;
  }

  /** The address texts of the entries. */
  function EntryAddresses(es: seq<AddrEntry>): (r: seq<string>)
    ensures |r| == |es| && forall k :: 0 <= k < |es| ==> r[k] == QuadText(es[k].address)
  {
    seq(|es|, k requires 0 <= k < |es| => QuadText(es[k].address))
  }

  /** InterfaceAddress iteration: the IPv4 addresses of each device, in
      device order. */
  function Addresses(devices: seq<string>, query: Query): (r: Result<seq<string>>)
    ensures r.Ok? <==> forall d :: d in devices ==> query(d).Some?
    ensures r.Err? ==> exists k :: 0 <= k < |devices| && query(devices[k]).None? && r.error == UnknownInterface(devices[k])
  {
    if devices == [] then Ok([])
    else
      assert devices == [devices[0]] + devices[1..];
      match query(devices[0])
      case None => Err(UnknownInterface(devices[0]))
      case Some(es) =>
        (match Addresses(devices[1..], query)
         case Err(e) =>
           assert forall k :: 1 <= k < |devices| ==> devices[1..][k - 1] == devices[k];
           Err(e)
         case Ok(rest) => Ok(EntryAddresses(InetEntries(es)) + rest))
  }

  /** When every query succeeds, the addresses are those of the first
      device, then those of the others. */
  lemma AddressesInDeviceOrder(d: string, rest: seq<string>, query: Query)
    requires query(d).Some? && Addresses(rest, query).Ok?
    ensures Addresses([d] + rest, query) == Ok(EntryAddresses(InetEntries(query(d).value)) + Addresses(rest, query).value)
  {
    assert ([d] + rest)[1..] == rest;
  }

  /** InterfaceName iteration: the sorted devices themselves. */
  function Names(devices: seq<string>): (r: seq<string>)
    ensures forall d :: d in r <==> d in devices
    ensures StrictlySortedStr(devices) ==> StrictlySortedStr(r) && |r| == |set d | d in devices|
  {
    SortedCard(devices);
    devices
  }
}
