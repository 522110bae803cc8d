/** The `*-service` attributes: a comma-separated list of service tokens
    (a catalog name or a port number or range, each with an optional
    protocol part), compiled into one port map per protocol. */
module Services {
  import opened Base
  import opened Text
  import opened Sorting
  import opened PortMaps

  // ---------------------------------------------------------------- the catalog

  /** The protocols of one catalog entry are those of a dict: distinct. */
  predicate DistinctProtos(es: seq<(string, int)>) {
    forall i, j :: 0 <= i < j < |es| ==> es[i].0 != es[j].0
  }

  /** The (protocol, port) items of one service name, in dict order. */
  type Entries = es: seq<(string, int)> | DistinctProtos(es) witness []

  /** The services database: service name to its protocol/port items. */
  type Catalog = map<string, Entries>

  /** The two service names rewritten before the catalog lookup. */
  function Alias(name: string): (r: string)
    ensures name == "dhcps" ==> r == "bootps"
    ensures name == "dns" ==> r == "domain"
    ensures name != "dhcps" && name != "dns" ==> r == name
  {
    if name == "dhcps" then "bootps" else if name == "dns" then "domain" else name
  }

  // ---------------------------------------------------------------- the token grammar

  predicate IsLower(c: char) { 'a' <= c <= 'z' }

  predicate IsNameChar(c: char) { IsLower(c) || IsDigit(c) || c == '-' }

  /** [a-z][-a-z0-9]* */
  predicate IsName(s: string) {
    |s| >= 1 && IsLower(s[0]) && forall k :: 1 <= k < |s| ==> IsNameChar(s[k])
  }

  /** \d+ */
  predicate IsNumber(s: string) {
    |s| >= 1 && AllDigits(s)
  }

  /** [a-z+]+ or a lone * */
  predicate IsProtoText(s: string) {
    s == "*" || (|s| >= 1 && forall k :: 0 <= k < |s| ==> IsLower(s[k]) || s[k] == '+')
  }

  /** The groups of a full match: either a name, or a start port with an
      optional end port; then the optional text after the slash. */
  datatype Token =
    | Named(name: string, proto: Option<string>)
    | Numbered(start: string, end: Option<string>, proto: Option<string>)

  /** The part before the slash is well formed. */
  predicate HeadWellFormed(t: Token) {
    match t
    case Named(n, _) => IsName(n)
    case Numbered(a, b, _) => IsNumber(a) && (b.Some? ==> IsNumber(b.value))
  }

  predicate WellFormed(t: Token) {
    HeadWellFormed(t) && (t.proto.Some? ==> IsProtoText(t.proto.value))
  }

  /** The text before the slash. */
  function HeadText(t: Token): string {
    match t
    case Named(n, _) => n
    case Numbered(a, b, _) => if b.None? then a else a + "-" + b.value
  }

  function ProtoSuffix(p: Option<string>): string {
    if p.None? then "" else "/" + p.value
  }

  /** The text a token is matched from. */
  function RenderToken(t: Token): string {
    HeadText(t) + ProtoSuffix(t.proto)
  }

  /** The head before the slash: a name, a port, or a port range. */
  function MatchHead(h: string, p: Option<string>): (r: Option<Token>)
    ensures r.Some? ==> r.value.proto == p && HeadWellFormed(r.value) && HeadText(r.value) == h
  {
    if IsName(h) then Some(Named(h, p))
    else
      match SplitFirst(h, '-')
      case None => if IsNumber(h) then Some(Numbered(h, None, p)) else None
      case Some((a, b)) => if IsNumber(a) && IsNumber(b) then Some(Numbered(a, Some(b), p)) else None
  }

  /** The text before the first slash, and the text after it if there is one. */
  function SplitProto(s: string): (r: (string, Option<string>))
    ensures s == r.0 + ProtoSuffix(r.1) && '/' !in r.0
  {
    match SplitFirst(s, '/')
    case None => (s, None)
    case Some((a, b)) => (a, Some(b))
  }

  /** fullmatch of the service token pattern. A name swallows every digit
      and dash after its first letter, so an end port exists only after a
      number. */
  function MatchToken(s: string): (r: Option<Token>)
    ensures r.Some? ==> WellFormed(r.value) && RenderToken(r.value) == s
  {
    var (h, p) := SplitProto(s);
    if p.Some? && !IsProtoText(p.value) then None else MatchHead(h, p)
  }

  lemma NumberIsNoName(n: string)
    requires IsNumber(n)
    ensures '-' !in n && '/' !in n && !IsName(n)
  {
    assert !IsLower(n[0]) by { assert IsDigit(n[0]); }
    forall k | 0 <= k < |n| ensures n[k] != '-' && n[k] != '/' { assert IsDigit(n[k]); }
  }

  lemma HeadHasNoSlash(t: Token)
    requires HeadWellFormed(t)
    ensures '/' !in HeadText(t)
  {
    match t
    case Named(n, _) =>
      forall k | 0 <= k < |n| ensures n[k] != '/' { assert k == 0 || IsNameChar(n[k]); }
    case Numbered(a, b, _) =>
      NumberIsNoName(a);
      if b.Some? { NumberIsNoName(b.value); }
  }

  lemma MatchHeadText(t: Token)
    requires HeadWellFormed(t)
    ensures MatchHead(HeadText(t), t.proto) == Some(t)
  {
    if t.Numbered? {
      NumberIsNoName(t.start);
      var h := HeadText(t);
      assert !IsName(h) by { assert h[0] == t.start[0] && IsDigit(t.start[0]); }
      if t.end.Some? {
        SplitFirstOf(t.start, t.end.value, '-');
      }
    }
  }

  /** Every well-formed token is matched back from its text: the matcher
      accepts exactly the texts of the grammar. */
  lemma MatchRender(t: Token)
    requires WellFormed(t)
    ensures MatchToken(RenderToken(t)) == Some(t)
  {
    var h := HeadText(t);
    HeadHasNoSlash(t);
    if t.proto.Some? {
      assert RenderToken(t) == h + ['/'] + t.proto.value;
      SplitFirstOf(h, t.proto.value, '/');
    } else {
      assert RenderToken(t) == h;
    }
    assert SplitProto(RenderToken(t)) == (h, t.proto);
    MatchHeadText(t);
  }

  // ---------------------------------------------------------------- one token

  /** One span the generator yields: start port, end port, protocol. */
  type Triple = (int, int, string)

  function CatalogTriples(es: Entries): (r: seq<Triple>)
    ensures |r| == |es| && forall k :: 0 <= k < |es| ==> r[k] == (es[k].1, es[k].1, es[k].0)
  {
    if es == [] then []
    else
      var rest: Entries := es[1..];
      [(es[0].1, es[0].1, es[0].0)] + CatalogTriples(rest)
  }

  function ProtoTriples(start: int, end: int, protos: seq<string>): (r: seq<Triple>)
    ensures |r| == |protos| && forall k :: 0 <= k < |protos| ==> r[k] == (start, end, protos[k])
  {
    if protos == [] then [] else [(start, end, protos[0])] + ProtoTriples(start, end, protos[1..])
  }

  /** The spans of a matched token, or the error it raises. */
  function TokenYields(t: Token, token: string, catalog: Catalog): (r: Result<seq<Triple>>) {
    match t
    case Named(n, proto) =>
      var name := Alias(n);
      if name !in catalog then Err(UnknownService(name))
      else if proto == Some("*") || (proto.None? && |catalog[name]| == 1) then Ok(CatalogTriples(catalog[name]))
      else Err(AmbiguousService(n))
    case Numbered(a, b, proto) =>
      if proto.None? then Err(ProtocolOmitted(token))
      else
        var start := if IsNumber(a) then DigitsValue(a) else 0;
        var end := if b.None? then start else if IsNumber(b.value) then DigitsValue(b.value) else 0;
        Ok(ProtoTriples(start, end, Split(proto.value, '+')))
  }

  /** _parse_single_service: the spans of one token, or the error it raises. */
  function Yields(token: string, catalog: Catalog): (r: Result<seq<Triple>>)
    ensures MatchToken(token).None? <==> r == Err(MalformedService(token))
  {
    match MatchToken(token)
    case None => Err(MalformedService(token))
    case Some(t) => TokenYields(t, token, catalog)
  }

  /** The text of a well-formed token yields what the token says. */
  lemma YieldsRendered(t: Token, catalog: Catalog)
    requires WellFormed(t)
    ensures Yields(RenderToken(t), catalog) == TokenYields(t, RenderToken(t), catalog)
  {
    MatchRender(t);
  }

  /** A name not in the catalog (after the alias rewrite) is unknown,
      whatever its protocol part. */
  lemma UnknownName(n: string, p: Option<string>, catalog: Catalog)
    requires WellFormed(Named(n, p)) && Alias(n) !in catalog
    ensures Yields(RenderToken(Named(n, p)), catalog) == Err(UnknownService(Alias(n)))
  {
    YieldsRendered(Named(n, p), catalog);
  }

  /** A name with the protocol part `*` yields one single-port span per
      catalog protocol. */
  lemma NamedEveryProtocol(n: string, catalog: Catalog)
    requires IsName(n) && Alias(n) in catalog
    ensures Yields(RenderToken(Named(n, Some("*"))), catalog) == Ok(CatalogTriples(catalog[Alias(n)]))
  {
    YieldsRendered(Named(n, Some("*")), catalog);
  }

  /** A bare name yields its catalog span when the catalog lists a single
      protocol for it, and is ambiguous otherwise. */
  lemma NamedBare(n: string, catalog: Catalog)
    requires IsName(n) && Alias(n) in catalog
    ensures |catalog[Alias(n)]| == 1 ==> Yields(n, catalog) == Ok(CatalogTriples(catalog[Alias(n)]))
    ensures |catalog[Alias(n)]| != 1 ==> Yields(n, catalog) == Err(AmbiguousService(n))
  {
    assert RenderToken(Named(n, None)) == n;
    YieldsRendered(Named(n, None), catalog);
  }

  /** A name with a specific protocol such as `http/tcp` is always reported
      ambiguous, even when the catalog lists exactly that protocol. */
  lemma NamedWithProtocolIsAmbiguous(n: string, p: string, catalog: Catalog)
    requires IsName(n) && IsProtoText(p) && p != "*" && Alias(n) in catalog
    ensures Yields(RenderToken(Named(n, Some(p))), catalog) == Err(AmbiguousService(n))
  {
    YieldsRendered(Named(n, Some(p)), catalog);
  }

  /** Two names that the alias table maps to the same catalog name (such
      as `dns` and `domain`) yield the same spans with the protocol part `*`. */
  lemma AliasesAgree(n: string, m: string, catalog: Catalog)
    requires IsName(n) && IsName(m) && Alias(n) == Alias(m)
    ensures Yields(RenderToken(Named(n, Some("*"))), catalog) == Yields(RenderToken(Named(m, Some("*"))), catalog)
  {
    YieldsRendered(Named(n, Some("*")), catalog);
    YieldsRendered(Named(m, Some("*")), catalog);
  }

  /** A port or port range needs a protocol part. */
  lemma PortNeedsProtocol(a: string, b: Option<string>, catalog: Catalog)
    requires WellFormed(Numbered(a, b, None))
    ensures Yields(RenderToken(Numbered(a, b, None)), catalog) == Err(ProtocolOmitted(RenderToken(Numbered(a, b, None))))
  {
    YieldsRendered(Numbered(a, b, None), catalog);
  }

  /** `a-b/p+q` yields the span a..b once per `+`-separated protocol, in
      order; a lone port `a/p` yields the span a..a. */
  lemma PortSpans(a: string, b: Option<string>, p: string, catalog: Catalog)
    requires WellFormed(Numbered(a, b, Some(p)))
    ensures var end := if b.None? then DigitsValue(a) else DigitsValue(b.value);
      Yields(RenderToken(Numbered(a, b, Some(p))), catalog) == Ok(ProtoTriples(DigitsValue(a), end, Split(p, '+')))
  {
    YieldsRendered(Numbered(a, b, Some(p)), catalog);
  }

  // ---------------------------------------------------------------- accumulation

  /** range(lo, hi + 1) as a set. */
  function RangeSet(lo: int, hi: int): (r: set<int>)
    ensures forall x :: x in r <==> lo <= x <= hi
    decreases hi - lo
  {
    if lo > hi then {} else RangeSet(lo, hi - 1) + {hi}
  }

  /** self._port_maps[proto].add_range(start, end) on the port sets: the
      defaultdict creates the entry even when the range is empty. */
  function AddSpan(m: map<string, set<int>>, t: Triple): (r: map<string, set<int>>) {
    m[t.2 := (if t.2 in m then m[t.2] else {}) + RangeSet(t.0, t.1)]
  }

  function AddAll(m: map<string, set<int>>, ts: seq<Triple>): map<string, set<int>>
    decreases |ts|
  {
    if ts == [] then m else AddSpan(AddAll(m, ts[..|ts| - 1]), ts[|ts| - 1])
  }

  /** The spans yielded by each token of a service text, in order. */
  function TokenSpans(parts: seq<string>, catalog: Catalog): (r: seq<Result<seq<Triple>>>)
    ensures |r| == |parts| && forall k :: 0 <= k < |parts| ==> r[k] == Yields(parts[k], catalog)
  {
    seq(|parts|, k requires 0 <= k < |parts| => Yields(parts[k], catalog))
  }

  /** The port sets gathered from the tokens' results, or the first error. */
  function Accumulated(results: seq<Result<seq<Triple>>>): Result<map<string, set<int>>>
    decreases |results|
  {
    if results == [] then Ok(map[])
    else
      var n := |results| - 1;
      var m :- Accumulated(results[..n]);
      var ts :- results[n];
      Ok(AddAll(m, ts))
  }

  /** The port sets of a whole service text, or the first token's error. */
  function Collected(parts: seq<string>, catalog: Catalog): Result<map<string, set<int>>> {
    Accumulated(TokenSpans(parts, catalog))
  }

  /** Accumulating spans keeps what was there, adds exactly their ports,
      and creates an entry for each of their protocols. */
  lemma {:induction false} AddAllMembers(m: map<string, set<int>>, ts: seq<Triple>, proto: string, x: int)
    ensures proto in AddAll(m, ts) <==> proto in m || exists k :: 0 <= k < |ts| && ts[k].2 == proto
    ensures proto in AddAll(m, ts) ==>
      (x in AddAll(m, ts)[proto] <==>
        (proto in m && x in m[proto]) || exists k :: 0 <= k < |ts| && ts[k].2 == proto && ts[k].0 <= x <= ts[k].1)
    decreases |ts|
  {
    if ts != [] {
      var n := |ts| - 1;
      AddAllMembers(m, ts[..n], proto, x);
      assert forall k :: 0 <= k < n ==> ts[..n][k] == ts[k];
    }
  }

  /** Spans that are all reversed add no port, but create an (empty) entry
      for each of their protocols. */
  lemma ReversedSpansAddNothing(m: map<string, set<int>>, ts: seq<Triple>)
    requires forall k :: 0 <= k < |ts| ==> ts[k].0 > ts[k].1
    ensures forall q :: q in AddAll(m, ts) <==> q in m || exists k :: 0 <= k < |ts| && ts[k].2 == q
    ensures forall q :: q in m ==> AddAll(m, ts)[q] == m[q]
    ensures forall q :: q in AddAll(m, ts) && q !in m ==> AddAll(m, ts)[q] == {}
  {
    var r := AddAll(m, ts);
    forall q ensures q in r <==> q in m || exists k :: 0 <= k < |ts| && ts[k].2 == q {
      AddAllMembers(m, ts, q, 0);
    }
    forall q | q in r
      ensures q in m ==> r[q] == m[q]
      ensures q !in m ==> r[q] == {}
    {
      forall x ensures x in r[q] <==> q in m && x in m[q] {
        AddAllMembers(m, ts, q, x);
      }
    }
  }

  /** A reversed range such as `9-5/tcp` yields one reversed span per protocol. */
  lemma ReversedRange(a: string, b: string, p: string, catalog: Catalog)
    requires WellFormed(Numbered(a, Some(b), Some(p))) && DigitsValue(a) > DigitsValue(b)
    ensures var r := Yields(RenderToken(Numbered(a, Some(b), Some(p))), catalog);
      r.Ok? && |r.value| == |Split(p, '+')| && forall t :: t in r.value ==> t.0 > t.1
  {
    PortSpans(a, Some(b), p, catalog);
    TriplesReversed(DigitsValue(a), DigitsValue(b), Split(p, '+'));
  }

  lemma TriplesReversed(lo: int, hi: int, protos: seq<string>)
    requires lo > hi
    ensures forall t :: t in ProtoTriples(lo, hi, protos) ==> t.0 > t.1
  {
    var ts := ProtoTriples(lo, hi, protos);
    forall t | t in ts ensures t.0 > t.1 {
      var k :| 0 <= k < |ts| && ts[k] == t;
    }
  }

  // ---------------------------------------------------------------- the object

  /** What the compiler reads from one (protocol, PortMap) pair. */
  datatype PortView = PortView(proto: string, portCount: nat, single: seq<int>, ranges: seq<(int, int)>, first: Option<int>)

  /** The smallest port of a set. */
  ghost function Least(ports: set<int>): (r: Option<int>)
    ensures r.None? <==> ports == {}
    ensures r.Some? ==> r.value in ports && forall p :: p in ports ==> r.value <= p
  {
    if ports == {} then None
    else
      var xs := SortedSetInt(ports);
      assert xs != [] by { NonEmptyIntSet(ports); var p :| p in ports; assert p in xs; }
      assert forall p :: p in ports ==> xs[0] <= p by {
        forall p | p in ports ensures xs[0] <= p { var k :| 0 <= k < |xs| && xs[k] == p; }
      }
      Some(xs[0])
  }

  /** The view of a frozen map holding the given ports. */
  ghost function ViewOf(proto: string, ports: set<int>): PortView {
    PortView(proto, |ports|, FrozenSingles(ports), FrozenRanges(ports), Least(ports))
  }

  /** sorted(self._port_maps.items()), each map frozen and read. */
  ghost function Views(c: map<string, set<int>>): (r: seq<PortView>)
    ensures |r| == |c.Keys|
  {
    var keys := SortedSetStr(c.Keys);
    DistinctCard(keys, c.Keys);
    seq(|keys|, k requires 0 <= k < |keys| => ViewOf(keys[k], c[keys[k]]))
  }

  class Service {
    /** The service text, kept for messages. */
    const text: string
    /** _port_maps: protocol to its port map. */
    var maps: map<string, PortMap>
    ghost var Repr: set<object>

    ghost predicate Valid()
      reads this, Repr
    {
      && (forall p :: p in maps ==> maps[p] in Repr && maps[p].Valid())
      && (forall p, q :: p in maps && q in maps && p != q ==> maps[p] != maps[q])
    }

    /** No map has been frozen yet. */
    ghost predicate Open()
      reads this, Repr
      requires Valid()
    {
      forall p :: p in maps ==> !maps[p].frozen
    }

    /** The accumulated ports of every protocol. */
    ghost function Contents(): (c: map<string, set<int>>)
      reads this, Repr
      requires Valid()
      ensures c.Keys == maps.Keys
    {
      map p | p in maps :: maps[p].ports
    }

    constructor (text: string)
      ensures Valid() && Open() && maps == map[] && Repr == {} && this.text == text
    {
      this.text := text;
      maps := map[];
      Repr := {};
    }

    /** self._port_maps[proto], created empty when the protocol is new. */
    method MapOf(proto: string) returns (pm: PortMap)
      requires Valid() && Open()
      modifies this
      ensures Valid() && Open() && fresh(Repr - old(Repr))
      ensures proto in maps && pm == maps[proto]
      ensures Contents() == if proto in old(Contents()) then old(Contents()) else old(Contents())[proto := {}]
    {
      if proto in maps {
        pm := maps[proto];
      } else {
        pm := new PortMap();
        maps := maps[proto := pm];
        Repr := Repr + {pm};
      }
    }

    /** self._port_maps[proto].add_range(start, end). */
    method AddRange(t: Triple)
      requires Valid() && Open()
      modifies this, Repr
      ensures Valid() && Open() && fresh(Repr - old(Repr))
      ensures Contents() == AddSpan(old(Contents()), t)
    {
      var (lo, hi, proto) := t;
      var pm := MapOf(proto);
      ghost var mid := Contents();
      var o := pm.AddRange(lo, hi);
      assert pm.ports == mid[proto] + RangeSet(lo, hi);
      assert forall q :: q in maps && q != proto ==> maps[q].ports == mid[q];
    }

    /** The spans of one token added in order. */
    method AddSpans(ts: seq<Triple>)
      requires Valid() && Open()
      modifies this, Repr
      ensures Valid() && Open() && fresh(Repr - old(Repr))
      ensures Contents() == AddAll(old(Contents()), ts)
    {
      ghost var before := Contents();
      for j := 0 to |ts|
        invariant Valid() && Open() && fresh(Repr - old(Repr))
        invariant Contents() == AddAll(before, ts[..j])
      {
        assert ts[..j + 1][..j] == ts[..j];
        AddRange(ts[j]);
      }
      assert ts[..|ts|] == ts;
    }
  }

  /** Service(text): every token's spans added to the map of its protocol;
      the first failing token raises. */
  method New(text: string, catalog: Catalog) returns (r: Result<Service>)
    ensures Collected(Split(text, ','), catalog).Err? ==> r == Err(Collected(Split(text, ','), catalog).error)
    ensures Collected(Split(text, ','), catalog).Ok? ==>
      r.Ok? && fresh(r.value) && fresh(r.value.Repr) && r.value.Valid() && r.value.Open()
      && r.value.Contents() == Collected(Split(text, ','), catalog).value
  {
    var s := new Service(text);
    var parts := Split(text, ',');
    ghost var results := TokenSpans(parts, catalog);
    for i := 0 to |parts|
      invariant s.Valid() && s.Open() && fresh(s.Repr)
      invariant Accumulated(results[..i]) == Ok(s.Contents())
    {
      var ys := Yields(parts[i], catalog);
      assert results[i] == ys;
      if ys.Err? {
        AccumulatedFails(results, i);
        return Err(ys.error);
      }
      AccumulatedNext(results, i);
      s.AddSpans(ys.value);
    }
    assert results[..|parts|] == results;
    return Ok(s);
  }

  /** One more result that holds spans extends the gathered prefix. */
  lemma AccumulatedNext(results: seq<Result<seq<Triple>>>, i: nat)
    requires i < |results| && Accumulated(results[..i]).Ok? && results[i].Ok?
    ensures Accumulated(results[..i + 1]) == Ok(AddAll(Accumulated(results[..i]).value, results[i].value))
  {
    assert results[..i + 1][..i] == results[..i];
  }

  /** The first failing result is the error of the whole sequence. */
  lemma AccumulatedFails(results: seq<Result<seq<Triple>>>, i: nat)
    requires i < |results| && Accumulated(results[..i]).Ok? && results[i].Err?
    ensures Accumulated(results) == Err(results[i].error)
  {
    assert results[..i + 1][..i] == results[..i];
    AccumulatedStops(results, i + 1);
  }

  /** Once a prefix of the results fails, the whole sequence fails with that error. */
  lemma {:induction false} AccumulatedStops(results: seq<Result<seq<Triple>>>, i: nat)
    requires 0 < i <= |results| && Accumulated(results[..i]).Err?
    ensures Accumulated(results) == Accumulated(results[..i])
    decreases |results| - i
  {
    if i < |results| {
      assert results[..i + 1][..i] == results[..i];
      AccumulatedStops(results, i + 1);
    } else {
      assert results[..i] == results;
    }
  }

  /** __iter__: the (protocol, map) pairs sorted by protocol, each map
      frozen and read through single, ranges, port_count and pm[0]. */
  method View(s: Service) returns (views: seq<PortView>)
    requires s.Valid()
    modifies s.Repr
    ensures s.Valid() && s.Contents() == old(s.Contents())
    ensures views == Views(old(s.Contents()))
  {
    ghost var c := s.Contents();
    var keys := SortStringSet(s.maps.Keys);
    StrictlySortedStrUnique(keys, SortedSetStr(c.Keys));
    DistinctCard(keys, c.Keys);
    views := [];
    for i := 0 to |keys|
      invariant s.Valid() && s.Contents() == c && s.maps == old(s.maps) && s.Repr == old(s.Repr)
      invariant views == Views(c)[..i]
    {
      assert keys[i] in s.maps;
      var v := ReadEntry(s, keys[i]);
      ViewsNext(c, keys, i, views, v);
      views := views + [v];
    }
    assert Views(c)[..|keys|] == Views(c);
  }

  /** The view of the next protocol in order extends the views read so far. */
  lemma ViewsNext(c: map<string, set<int>>, keys: seq<string>, i: nat, views: seq<PortView>, v: PortView)
    requires keys == SortedSetStr(c.Keys) && i < |keys| && keys[i] in c
    requires views == Views(c)[..i] && v == ViewOf(keys[i], c[keys[i]])
    ensures views + [v] == Views(c)[..i + 1]
  {
    assert Views(c)[i] == v;
  }

  /** The map of one protocol read; the other maps are untouched. */
  method ReadEntry(s: Service, proto: string) returns (v: PortView)
    requires s.Valid() && proto in s.maps
    modifies s.maps[proto]
    ensures s.maps == old(s.maps) && s.Repr == old(s.Repr)
    ensures s.Valid() && s.Contents() == old(s.Contents())
    ensures v == ViewOf(proto, old(s.Contents())[proto])
  {
    var pm := s.maps[proto];
    v := ReadMap(proto, pm);
    assert forall q :: q in s.maps && q != proto ==> s.maps[q] != pm;
  }

  /** One (protocol, map) pair as the compiler reads it. */
  method ReadMap(proto: string, pm: PortMap) returns (v: PortView)
    requires pm.Valid()
    modifies pm
    ensures pm.Valid() && pm.ports == old(pm.ports)
    ensures v == ViewOf(proto, old(pm.ports))
  {
    var single := pm.Single();
    var ranges := pm.Ranges();
    var first := pm.GetItem(0);
    assert first.Ok? ==> first == Ok(Least(pm.ports).value);
    v := PortView(proto, pm.PortCount(), single, ranges, if first.Ok? then Some(first.value) else None);
  }
}
