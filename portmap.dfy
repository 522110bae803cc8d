/** The per-protocol port set with its two-phase life: ports are added while
    the map is open; the first read freezes it, sorting the ports and
    splitting them into isolated single ports and maximal contiguous ranges. */
module PortMaps {
  import opened Base
  import opened Sorting

  /** A contiguous run lo..hi of ports (lo == hi for a single port). */
  datatype Span = Span(lo: int, hi: int)

  // ---------------------------------------------------------------- the freezing walk

  /** The state of the freezing walk after the given prefix of the sorted
      ports: the spans already closed and the span still open. */
  function Walk(xs: seq<int>): (r: (seq<Span>, Option<Span>))
    ensures r.1.None? <==> xs == []
    ensures r.1.Some? ==> r.1.value.hi == xs[|xs| - 1]
  {
    if xs == [] then ([], None)
    else
      var prev := Walk(xs[..|xs| - 1]);
      var port := xs[|xs| - 1];
      match prev.1
      case None => (prev.0, Some(Span(port, port)))
      case Some(open) =>
        if open.hi + 1 == port then (prev.0, Some(Span(open.lo, port)))
        else (prev.0 + [open], Some(Span(port, port)))
  }

  /** Flushing the open span at the end of the walk. */
  function Flush(state: (seq<Span>, Option<Span>)): seq<Span> {
    match state.1
    case None => state.0
    case Some(open) => state.0 + [open]
  }

  /** The spans of a sorted port list, in the order the walk closes them. */
  function Spans(xs: seq<int>): seq<Span> {
    Flush(Walk(xs))
  }

  /** The spans of length one, as ports (the source's `single`). */
  function SinglesOf(spans: seq<Span>): (r: seq<int>)
    ensures |r| <= |spans|
  {
    if spans == [] then []
    else
      var last := spans[|spans| - 1];
      SinglesOf(spans[..|spans| - 1]) + (if last.lo == last.hi then [last.lo] else [])
  }

  /** The spans of length two or more, as (start, end) pairs (the source's `ranges`). */
  function RangesOf(spans: seq<Span>): (r: seq<(int, int)>)
    ensures |r| <= |spans|
  {
    if spans == [] then []
    else
      var last := spans[|spans| - 1];
      RangesOf(spans[..|spans| - 1]) + (if last.lo == last.hi then [] else [(last.lo, last.hi)])
  }

  // ---------------------------------------------------------------- properties of the walk

  /** Port p lies in one of the spans. */
  predicate InSpans(spans: seq<Span>, p: int) {
    if spans == [] then false
    else InSpans(spans[..|spans| - 1], p) || spans[|spans| - 1].lo <= p <= spans[|spans| - 1].hi
  }

  /** Port p lies in one of the (start, end) ranges. */
  predicate InRanges(rs: seq<(int, int)>, p: int) {
    exists k :: 0 <= k < |rs| && rs[k].0 <= p <= rs[k].1
  }

  /** Spans are non-empty, listed in increasing order, and separated by at
      least one missing port: no two of them could be merged. */
  ghost predicate Separated(spans: seq<Span>) {
    && (forall k :: 0 <= k < |spans| ==> spans[k].lo <= spans[k].hi)
    && (forall k :: 0 <= k < |spans| - 1 ==> spans[k].hi + 1 < spans[k + 1].lo)
  }

  lemma SeparatedSnoc(spans: seq<Span>, sp: Span)
    requires Separated(spans) && sp.lo <= sp.hi
    requires spans != [] ==> spans[|spans| - 1].hi + 1 < sp.lo
    ensures Separated(spans + [sp])
  {
  }

  lemma SeparatedInit(spans: seq<Span>)
    requires Separated(spans) && spans != []
    ensures Separated(spans[..|spans| - 1])
  {
  }

  /** The walk over a strictly increasing list yields separated spans whose
      ports are exactly the list's elements. */
  lemma {:induction false} WalkKeepsInvariant(xs: seq<int>)
    requires StrictlyIncreasing(xs)
    ensures Separated(Spans(xs))
    ensures forall p :: p in xs <==> InSpans(Spans(xs), p)
  {
    if xs != [] {
      var init := xs[..|xs| - 1];
      var port := xs[|xs| - 1];
      assert xs == init + [port];
      assert StrictlyIncreasing(init) by {
        assert forall i :: 0 <= i < |init| ==> init[i] == xs[i];
      }
      WalkKeepsInvariant(init);
      WalkExtend(init, port);
    }
  }

  lemma WalkExtend(init: seq<int>, port: int)
    requires StrictlyIncreasing(init + [port])
    requires Separated(Spans(init))
    requires forall p :: p in init <==> InSpans(Spans(init), p)
    ensures Separated(Spans(init + [port]))
    ensures forall p :: p in init + [port] <==> InSpans(Spans(init + [port]), p)
  {
    var prev := Walk(init);
    match prev.1
    case None =>
      assert init + [port] == [port];
      WalkFirst(port);
    case Some(open) =>
      WalkStep(init, port, prev.0, open);
  }

  lemma WalkFirst(port: int)
    ensures Separated(Spans([port]))
    ensures forall p :: p in [port] <==> InSpans(Spans([port]), p)
  {
    assert [port][..0] == [];
    assert Walk([port]) == ([], Some(Span(port, port)));
    assert Spans([port]) == [] + [Span(port, port)];
    forall p
      ensures p in [port] <==> InSpans(Spans([port]), p)
    {
      InSpansSnoc([], Span(port, port), p);
    }
  }

  lemma InSpansSnoc(spans: seq<Span>, sp: Span, p: int)
    ensures InSpans(spans + [sp], p) == (InSpans(spans, p) || sp.lo <= p <= sp.hi)
  {
    assert (spans + [sp])[..|spans|] == spans;
  }

  lemma WalkStep(init: seq<int>, port: int, closed: seq<Span>, open: Span)
    requires StrictlyIncreasing(init + [port])
    requires Walk(init) == (closed, Some(open))
    requires Separated(closed + [open])
    requires forall p :: p in init <==> InSpans(closed + [open], p)
    ensures Separated(Spans(init + [port]))
    ensures forall p :: p in init + [port] <==> InSpans(Spans(init + [port]), p)
  {
    var xs := init + [port];
    assert xs[..|xs| - 1] == init;
    assert init != [];
    assert xs[|init| - 1] == init[|init| - 1] && xs[|init|] == port;
    assert open.hi == init[|init| - 1] < port;
    var before := closed + [open];
    assert before[..|before| - 1] == closed;
    var after := Spans(xs);
    assert forall p :: p in xs <==> p in init || p == port;
    if open.hi + 1 == port {
      assert after == closed + [Span(open.lo, port)];
      assert after[..|after| - 1] == closed;
      SeparatedInit(before);
      SeparatedSnoc(closed, Span(open.lo, port));
      forall p
        ensures p in xs <==> InSpans(after, p)
      {
        InSpansSnoc(closed, Span(open.lo, port), p);
        InSpansSnoc(closed, open, p);
      }
    } else {
      assert after == before + [Span(port, port)];
      assert after[..|after| - 1] == before;
      SeparatedSnoc(before, Span(port, port));
      forall p
        ensures p in xs <==> InSpans(after, p)
      {
        InSpansSnoc(before, Span(port, port), p);
      }
    }
  }

  /** Every port listed as single or inside a range is bounded by the last span. */
  lemma {:induction false} BoundedByLast(spans: seq<Span>)
    requires Separated(spans) && spans != []
    ensures forall s :: s in SinglesOf(spans) ==> s <= spans[|spans| - 1].hi
    ensures forall k :: 0 <= k < |RangesOf(spans)| ==> RangesOf(spans)[k].1 <= spans[|spans| - 1].hi
  {
    var init := spans[..|spans| - 1];
    if init != [] {
      SeparatedInit(spans);
      BoundedByLast(init);
    }
  }

  /** A port is listed as single, or lies inside one listed range, exactly
      when it lies in some span. */
  lemma {:induction false} SinglesRangesCoverSpans(spans: seq<Span>, p: int)
    requires forall k :: 0 <= k < |spans| ==> spans[k].lo <= spans[k].hi
    ensures InSpans(spans, p) <==> (p in SinglesOf(spans) || InRanges(RangesOf(spans), p))
  {
    if spans != [] {
      var init := spans[..|spans| - 1];
      var last := spans[|spans| - 1];
      SinglesRangesCoverSpans(init, p);
      var tail: seq<(int, int)> := if last.lo == last.hi then [] else [(last.lo, last.hi)];
      InRangesAppend(RangesOf(init), tail, p);
      if last.lo != last.hi && last.lo <= p <= last.hi {
        assert tail[0].0 <= p <= tail[0].1;
      }
    }
  }

  lemma InRangesAppend(a: seq<(int, int)>, b: seq<(int, int)>, p: int)
    ensures InRanges(a + b, p) <==> InRanges(a, p) || InRanges(b, p)
  {
    if InRanges(a + b, p) {
      var k :| 0 <= k < |a + b| && (a + b)[k].0 <= p <= (a + b)[k].1;
      if k >= |a| { assert b[k - |a|] == (a + b)[k]; }
    }
    if InRanges(b, p) {
      var k :| 0 <= k < |b| && b[k].0 <= p <= b[k].1;
      assert (a + b)[k + |a|] == b[k];
    }
    if InRanges(a, p) {
      var k :| 0 <= k < |a| && a[k].0 <= p <= a[k].1;
      assert (a + b)[k] == a[k];
    }
  }

  /** Listed ranges have start < end and follow each other in increasing
      order with a gap between them. */
  ghost predicate RangesOrdered(rs: seq<(int, int)>) {
    && (forall k :: 0 <= k < |rs| ==> rs[k].0 < rs[k].1)
    && (forall k :: 0 <= k < |rs| - 1 ==> rs[k].1 + 1 < rs[k + 1].0)
  }

  lemma {:induction false} RangesProperAndOrdered(spans: seq<Span>)
    requires Separated(spans)
    ensures RangesOrdered(RangesOf(spans))
  {
    if spans != [] {
      var init := spans[..|spans| - 1];
      var last := spans[|spans| - 1];
      SeparatedInit(spans);
      RangesProperAndOrdered(init);
      if init != [] && last.lo != last.hi {
        BoundedByLast(init);
        var ri := RangesOf(init);
        assert init[|init| - 1].hi + 1 < last.lo;
        assert RangesOf(spans) == ri + [(last.lo, last.hi)];
      }
    }
  }

  /** Singles are listed in increasing order, no two of them adjacent, and
      no single is adjacent to (or inside) a range. */
  lemma SinglesApart(spans: seq<Span>)
    requires Separated(spans)
    ensures StrictlyIncreasing(SinglesOf(spans))
    ensures forall k :: 0 <= k < |SinglesOf(spans)| - 1 ==> SinglesOf(spans)[k] + 1 < SinglesOf(spans)[k + 1]
    ensures forall s, k :: s in SinglesOf(spans) && 0 <= k < |RangesOf(spans)| ==>
      s + 1 < RangesOf(spans)[k].0 || RangesOf(spans)[k].1 + 1 < s
  {
    SinglesSpaced(spans);
    SinglesOffRanges(spans);
  }

  lemma {:induction false} SinglesSpaced(spans: seq<Span>)
    requires Separated(spans)
    ensures StrictlyIncreasing(SinglesOf(spans))
    ensures forall k :: 0 <= k < |SinglesOf(spans)| - 1 ==> SinglesOf(spans)[k] + 1 < SinglesOf(spans)[k + 1]
  {
    if spans != [] {
      var init := spans[..|spans| - 1];
      var last := spans[|spans| - 1];
      SeparatedInit(spans);
      SinglesSpaced(init);
      var si := SinglesOf(init);
      if init != [] && last.lo == last.hi {
        BoundedByLast(init);
        assert init[|init| - 1].hi + 1 < last.lo;
        assert SinglesOf(spans) == si + [last.lo];
        if si != [] {
          assert si[|si| - 1] in si;
        }
      }
    }
  }

  lemma {:induction false} SinglesOffRanges(spans: seq<Span>)
    requires Separated(spans)
    ensures forall s, k :: s in SinglesOf(spans) && 0 <= k < |RangesOf(spans)| ==>
      s + 1 < RangesOf(spans)[k].0 || RangesOf(spans)[k].1 + 1 < s
  {
    if spans != [] {
      var init := spans[..|spans| - 1];
      var last := spans[|spans| - 1];
      SeparatedInit(spans);
      SinglesOffRanges(init);
      if init != [] {
        BoundedByLast(init);
        assert init[|init| - 1].hi + 1 < last.lo;
        if last.lo == last.hi {
          assert SinglesOf(spans) == SinglesOf(init) + [last.lo];
          assert RangesOf(spans) == RangesOf(init);
        } else {
          assert SinglesOf(spans) == SinglesOf(init);
          assert RangesOf(spans) == RangesOf(init) + [(last.lo, last.hi)];
        }
      }
    }
  }

  /** Every span is either a single or a range: the two counts add up. */
  lemma {:induction false} SpanCountIsSpans(spans: seq<Span>)
    ensures |SinglesOf(spans)| + |RangesOf(spans)| == |spans|
  {
    if spans != [] {
      SpanCountIsSpans(spans[..|spans| - 1]);
    }
  }

  // ---------------------------------------------------------------- the set-level view

  /** `single` of a frozen map holding the given ports. */
  ghost function FrozenSingles(ports: set<int>): seq<int> {
    SinglesOf(Spans(SortedSetInt(ports)))
  }

  /** `ranges` of a frozen map holding the given ports. */
  ghost function FrozenRanges(ports: set<int>): seq<(int, int)> {
    RangesOf(Spans(SortedSetInt(ports)))
  }

  /** The compression invariant: the singles and the expanded ranges are
      exactly the accumulated ports; ranges have start < end; both lists are
      increasing with a gap of at least two between neighbours; and no
      single touches a range. */
  lemma FrozenPartition(ports: set<int>)
    ensures forall p :: p in ports <==> (p in FrozenSingles(ports) || InRanges(FrozenRanges(ports), p))
    ensures RangesOrdered(FrozenRanges(ports))
    ensures StrictlyIncreasing(FrozenSingles(ports))
    ensures forall k :: 0 <= k < |FrozenSingles(ports)| - 1 ==> FrozenSingles(ports)[k] + 1 < FrozenSingles(ports)[k + 1]
    ensures forall s, k :: s in FrozenSingles(ports) && 0 <= k < |FrozenRanges(ports)| ==>
      s + 1 < FrozenRanges(ports)[k].0 || FrozenRanges(ports)[k].1 + 1 < s
  {
    var xs := SortedSetInt(ports);
    var spans := Spans(xs);
    WalkKeepsInvariant(xs);
    forall p ensures p in ports <==> (p in SinglesOf(spans) || InRanges(RangesOf(spans), p)) {
      SinglesRangesCoverSpans(spans, p);
    }
    RangesProperAndOrdered(spans);
    SinglesApart(spans);
  }

  /** span_count of a map is the number of maximal runs of its ports. */
  lemma FrozenSpanCount(ports: set<int>)
    ensures |FrozenSingles(ports)| + |FrozenRanges(ports)| == |Spans(SortedSetInt(ports))|
  {
    SpanCountIsSpans(Spans(SortedSetInt(ports)));
  }

  // ---------------------------------------------------------------- the object

  /** The freezing walk of _finalize over the sorted ports: the spans are
      closed one by one and sorted into singles and ranges. */
  method Compress(xs: seq<int>) returns (single: seq<int>, ranges: seq<(int, int)>)
    ensures single == SinglesOf(Spans(xs)) && ranges == RangesOf(Spans(xs))
  {
    single, ranges := [], [];
    var open: Option<Span> := None;
    for i := 0 to |xs|
      invariant Walk(xs[..i]).1 == open
      invariant single == SinglesOf(Walk(xs[..i]).0)
      invariant ranges == RangesOf(Walk(xs[..i]).0)
    {
      assert xs[..i + 1][..i] == xs[..i];
      var port := xs[i];
      match open
      case None =>
        open := Some(Span(port, port));
      case Some(sp) =>
        if sp.hi + 1 == port {
          open := Some(Span(sp.lo, port));
        } else {
          var closed := Walk(xs[..i]).0;
          assert (closed + [sp])[..|closed|] == closed;
          if sp.lo == sp.hi {
            single := single + [sp.lo];
          } else {
            ranges := ranges + [(sp.lo, sp.hi)];
          }
          open := Some(Span(port, port));
        }
    }
    assert xs[..|xs|] == xs;
    if open.Some? {
      var closed := Walk(xs).0;
      assert (closed + [open.value])[..|closed|] == closed;
      if open.value.lo == open.value.hi {
        single := single + [open.value.lo];
      } else {
        ranges := ranges + [(open.value.lo, open.value.hi)];
      }
    }
  }

  class PortMap {
    /** The accumulated ports (`_ports` while the map is open). */
    var ports: set<int>
    /** Whether the map is frozen (`_single is not None`). */
    var frozen: bool
    /** `_ports` after freezing: the ports as a sorted list. */
    var sorted: seq<int>
    var single: seq<int>
    var ranges: seq<(int, int)>

    ghost predicate Valid()
      reads this
    {
      frozen ==>
        && StrictlyIncreasing(sorted)
        && (forall p :: p in sorted <==> p in ports)
        && single == SinglesOf(Spans(sorted))
        && ranges == RangesOf(Spans(sorted))
    }

    constructor ()
      ensures Valid() && ports == {} && !frozen
    {
      ports := {};
      frozen := false;
      sorted := [];
      single := [];
      ranges := [];
    }

    /** port_count: the number of distinct ports. */
    function PortCount(): (c: nat)
      reads this
      requires Valid()
      ensures frozen ==> c == |sorted|
    {
      if frozen then IncreasingCard(sorted, ports); |ports|
      else |ports|
    }

    /** add: only while the map is open; afterwards the source's assertion fails. */
    method Add(port: int) returns (r: Outcome)
      requires Valid()
      modifies this
      ensures Valid()
      ensures old(frozen) ==> r == Fail(AssertionFailed) && unchanged(this)
      ensures !old(frozen) ==> r == Pass && ports == old(ports) + {port}
      ensures !old(frozen) ==> !frozen && sorted == old(sorted) && single == old(single) && ranges == old(ranges)
    {
      if frozen {
        return Fail(AssertionFailed);
      }
      ports := ports + {port};
      return Pass;
    }

    /** add_range: every port from lo to hi inclusive, nothing when lo > hi. */
    method AddRange(lo: int, hi: int) returns (r: Outcome)
      requires Valid()
      modifies this
      ensures Valid()
      ensures r == (if lo <= hi && old(frozen) then Fail(AssertionFailed) else Pass)
      ensures frozen == old(frozen) && sorted == old(sorted) && single == old(single) && ranges == old(ranges)
      ensures old(frozen) ==> ports == old(ports)
      ensures !old(frozen) ==> forall p :: p in ports <==> p in old(ports) || lo <= p <= hi
    {
      if lo > hi {
        return Pass;
      }
      var port := lo;
      while port <= hi
        invariant Valid()
        invariant lo <= port <= hi + 1
        invariant port > lo ==> !old(frozen)
        invariant frozen == old(frozen) && sorted == old(sorted) && single == old(single) && ranges == old(ranges)
        invariant forall p :: p in ports <==> p in old(ports) || lo <= p < port
        decreases hi - port
      {
        r := Add(port);
        if r.Fail? {
          assert port == lo;
          assert forall p :: p in ports <==> p in old(ports);
          assert ports == old(ports);
          return;
        }
        port := port + 1;
      }
      return Pass;
    }

    /** _finalize: freeze once; a second call changes nothing. */
    method Finalize()
      requires Valid()
      modifies this
      ensures Valid() && frozen && ports == old(ports)
      ensures old(frozen) ==> unchanged(this)
    {
      if frozen {
        return;
      }
      var xs := SortIntSet(ports);
      single, ranges := Compress(xs);
      sorted := xs;
      frozen := true;
    }

    /** The `single` property: freezes the map and returns its isolated ports. */
    method Single() returns (s: seq<int>)
      requires Valid()
      modifies this
      ensures Valid() && frozen && ports == old(ports)
      ensures old(frozen) ==> unchanged(this)
      ensures s == single && s == FrozenSingles(ports)
    {
      Finalize();
      StrictlyIncreasingUnique(sorted, SortedSetInt(ports));
      s := single;
    }

    /** The `ranges` property: freezes the map and returns its ranges. */
    method Ranges() returns (rs: seq<(int, int)>)
      requires Valid()
      modifies this
      ensures Valid() && frozen && ports == old(ports)
      ensures old(frozen) ==> unchanged(this)
      ensures rs == ranges && rs == FrozenRanges(ports)
    {
      Finalize();
      StrictlyIncreasingUnique(sorted, SortedSetInt(ports));
      rs := ranges;
    }

    /** span_count: the number of singles plus the number of ranges. */
    method SpanCount() returns (n: nat)
      requires Valid()
      modifies this
      ensures Valid() && frozen && ports == old(ports)
      ensures old(frozen) ==> unchanged(this)
      ensures n == |single| + |ranges|
      ensures n == |FrozenSingles(ports)| + |FrozenRanges(ports)|
    {
      var s := Single();
      var rs := Ranges();
      n := |s| + |rs|;
    }

    /** pm[index]: the smallest port whatever the index; IndexError when empty. */
    method GetItem(index: int) returns (r: Result<int>)
      requires Valid()
      modifies this
      ensures Valid() && frozen && ports == old(ports)
      ensures old(frozen) ==> unchanged(this)
      ensures ports == {} ==> r == Err(IndexOutOfRange)
      ensures ports != {} ==> r.Ok? && r.value in ports && forall p :: p in ports ==> r.value <= p
    {
      Finalize();
      if |sorted| == 0 {
        assert forall p :: p !in ports;
        return Err(IndexOutOfRange);
      }
      assert sorted[0] in ports;
      forall p | p in ports ensures sorted[0] <= p {
        var k :| 0 <= k < |sorted| && sorted[k] == p;
      }
      return Ok(sorted[0]);
    }
  }

}
