/** Host names: a configured alias from the document's "hosts" table, or
    else the addresses the resolver returns for each comma-separated name,
    merged, deduplicated and sorted. The resolver is a parameter. */
module Hostnames {
  import opened Base
  import opened Text
  import opened Sorting

  /** A "hosts" entry: a single address or a list of them. */
  datatype HostEntry = One(address: string) | Many(addresses: seq<string>)

  /** gethostbyname_ex: the address list of a name, or None when the name
      does not resolve. */
  type Resolver = string -> Option<set<string>>

  /** The addresses a "hosts" entry stands for. */
  function EntryAddresses(e: HostEntry): (r: set<string>)
    ensures e.One? ==> r == {e.address}
    ensures e.Many? ==> forall a :: a in r <==> a in e.addresses
  {
    match e
    case One(a) => {a}
    case Many(l) => set a | a in l
  }

  /** The union of the resolved address sets of the names; a name that does
      not resolve contributes nothing. */
  function Resolved(names: seq<string>, resolve: Resolver): set<string> {
    if names == [] then {}
    else
      var last := resolve(names[|names| - 1]);
      Resolved(names[..|names| - 1], resolve) + (if last.Some? then last.value else {})
  }

  /** An address is resolved exactly when one of the names resolves to a
      set holding it. */
  lemma {:induction false} ResolvedMembers(names: seq<string>, resolve: Resolver, a: string)
    ensures a in Resolved(names, resolve) <==>
      exists k :: 0 <= k < |names| && resolve(names[k]).Some? && a in resolve(names[k]).value
  {
    if names != [] {
      var n := |names| - 1;
      ResolvedMembers(names[..n], resolve, a);
      assert forall k :: 0 <= k < n ==> names[..n][k] == names[k];
    }
  }

  /** The address set Hostname builds before sorting. */
  function Addresses(text: string, hosts: map<string, HostEntry>, resolve: Resolver): set<string> {
    if text in hosts then EntryAddresses(hosts[text]) else Resolved(Split(text, ','), resolve)
  }

  /** The names that fail to resolve, each of which prints a warning. */
  function Unresolved(names: seq<string>, resolve: Resolver): (r: seq<string>)
    ensures forall x :: x in r <==> x in names && resolve(x).None?
  {
    if names == [] then []
    else
      var n := |names| - 1;
      Unresolved(names[..n], resolve) + (if resolve(names[n]).None? then [names[n]] else [])
  }

  /** A resolved host name: its addresses, sorted. */
  datatype Hostname = Hostname(addresses: seq<string>)

  /** Hostname(text, config): the "hosts" alias if text is one, else the
      loop over the comma-separated names, each resolution merged into the
      set; then the set sorted. Also returns the names whose resolution
      failed, in order. */
  method Resolve(text: string, hosts: map<string, HostEntry>, resolve: Resolver) returns (h: Hostname, unresolved: seq<string>)
    ensures h.addresses == SortedSetStr(Addresses(text, hosts, resolve))
    ensures text in hosts ==> unresolved == []
    ensures text !in hosts ==> unresolved == Unresolved(Split(text, ','), resolve)
  {
    var found: set<string> := {};
    unresolved := [];
    if text in hosts {
      match hosts[text]
      case Many(l) =>
        found := set a | a in l;
      case One(a) =>
        found := found + {a};
    } else {
      var names := Split(text, ',');
      for i := 0 to |names|
        invariant found == Resolved(names[..i], resolve)
        invariant unresolved == Unresolved(names[..i], resolve)
      {
        assert names[..i + 1][..i] == names[..i];
        match resolve(names[i])
        case Some(addresses) =>
          found := found + addresses;
        case None =>
          unresolved := unresolved + [names[i]];
      }
      assert names[..|names|] == names;
    }
    assert found == Addresses(text, hosts, resolve);
    var sorted := SortStringSet(found);
    StrictlySortedStrUnique(sorted, SortedSetStr(found));
    h := Hostname(sorted);
  }

  /** len(): the number of distinct addresses. */
  function Len(h: Hostname): (n: nat)
    ensures StrictlySortedStr(h.addresses) ==> n == |set a | a in h.addresses|
  {
    SortedCard(h.addresses);
    |h.addresses|
  }

  /** h[index] with Python's indexing: a negative index counts from the end. */
  function GetItem(h: Hostname, index: int): (r: Result<string>)
    ensures r.Ok? <==> -|h.addresses| <= index < |h.addresses|
    ensures r.Ok? ==> r.value in h.addresses
    ensures r.Ok? && index >= 0 ==> r.value == h.addresses[index]
    ensures r.Ok? && index < 0 ==> r.value == h.addresses[|h.addresses| + index]
  {
    if 0 <= index < |h.addresses| then Ok(h.addresses[index])
    else if -|h.addresses| <= index < 0 then Ok(h.addresses[|h.addresses| + index])
    else Err(IndexOutOfRange)
  }

  /** iteration: the addresses in sorted order, each one what indexing
      gives at its position, counted from the front or from the end. */
  function Iterate(h: Hostname): (r: seq<string>)
    ensures |r| == Len(h)
    ensures forall k :: 0 <= k < |r| ==> GetItem(h, k) == Ok(r[k]) && GetItem(h, k - |r|) == Ok(r[k])
  {
    h.addresses
  }

  /** The sorted list of a resolved name holds each address once: its
      length is the number of distinct addresses, and its members are
      exactly the resolved ones. */
  lemma ResolvedListExact(text: string, hosts: map<string, HostEntry>, resolve: Resolver, a: string)
    requires text !in hosts
    ensures a in SortedSetStr(Addresses(text, hosts, resolve)) <==>
      exists k :: 0 <= k < |Split(text, ',')| && resolve(Split(text, ',')[k]).Some? && a in resolve(Split(text, ',')[k]).value
  {
    assert Addresses(text, hosts, resolve) == Resolved(Split(text, ','), resolve);
    ResolvedMembers(Split(text, ','), resolve, a);
  }

  /** The alias branch takes the configured addresses without consulting
      the resolver. */
  lemma AliasIgnoresResolver(text: string, hosts: map<string, HostEntry>, r1: Resolver, r2: Resolver)
    requires text in hosts
    ensures SortedSetStr(Addresses(text, hosts, r1)) == SortedSetStr(Addresses(text, hosts, r2))
  {
  }

  /** Sorted and without duplicates, so len() counts distinct addresses. */
  lemma LenCountsDistinct(s: set<string>)
    ensures Len(Hostname(SortedSetStr(s))) == |s|
  {
    var r := SortedSetStr(s);
    DistinctCard(r, s);
  }
}
