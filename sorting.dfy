/** Python's sorted() on the two element types the compiler sorts: strings
    (code-point lexicographic order, as Python compares str) and integers. */
module Sorting {

  // ---------------------------------------------------------------- string order

  /** Python's a < b on str. */
  predicate StrLt(a: string, b: string) {
    if a == [] then b != []
    else if b == [] then false
    else a[0] < b[0] || (a[0] == b[0] && StrLt(a[1..], b[1..]))
  }

  predicate StrLe(a: string, b: string) {
    a == b || StrLt(a, b)
  }

  lemma {:induction false} StrLtIrreflexive(a: string)
    ensures !StrLt(a, a)
  {
    if a != [] {
      StrLtIrreflexive(a[1..]);
    }
  }

  lemma {:induction false} StrLtTransitive(a: string, b: string, c: string)
    requires StrLt(a, b) && StrLt(b, c)
    ensures StrLt(a, c)
  {
    if a != [] && b != [] && c != [] && a[0] == b[0] && b[0] == c[0] {
      StrLtTransitive(a[1..], b[1..], c[1..]);
    }
  }

  lemma {:induction false} StrLtTotal(a: string, b: string)
    ensures a == b || StrLt(a, b) || StrLt(b, a)
  {
    if a != [] && b != [] && a[0] == b[0] {
      StrLtTotal(a[1..], b[1..]);
      if a[1..] == b[1..] {
        assert a == [a[0]] + a[1..] && b == [b[0]] + b[1..];
      }
    }
  }

  lemma StrLtAsymmetric(a: string, b: string)
    requires StrLt(a, b)
    ensures !StrLt(b, a)
  {
    if StrLt(b, a) {
      StrLtTransitive(a, b, a);
      StrLtIrreflexive(a);
    }
  }

  lemma StrLeTransitive(a: string, b: string, c: string)
    requires StrLe(a, b) && StrLe(b, c)
    ensures StrLe(a, c)
  {
    if a != b && b != c {
      StrLtTransitive(a, b, c);
    }
  }

  ghost predicate SortedStr(s: seq<string>) {
    forall i, j :: 0 <= i < j < |s| ==> StrLe(s[i], s[j])
  }

  ghost predicate StrictlySortedStr(s: seq<string>) {
    forall i, j :: 0 <= i < j < |s| ==> StrLt(s[i], s[j])
  }

  /** Insert x into a sorted sequence, before the first element greater than or equal to it. */
  function InsertStr(x: string, s: seq<string>): (r: seq<string>)
    ensures multiset(r) == multiset(s) + multiset{x}
    ensures |r| == |s| + 1
  {
    if s == [] then [x]
    else if StrLe(x, s[0]) then [x] + s
    else
      assert s == [s[0]] + s[1..];
      [s[0]] + InsertStr(x, s[1..])
  }

  lemma {:induction false} InsertStrSorted(x: string, s: seq<string>)
    requires SortedStr(s)
    ensures SortedStr(InsertStr(x, s))
  {
    if s != [] && !StrLe(x, s[0]) {
      InsertStrSorted(x, s[1..]);
      StrLtTotal(x, s[0]);
      var t := InsertStr(x, s[1..]);
      forall k | 0 <= k < |t| ensures StrLe(s[0], t[k]) {
        assert t[k] in multiset(t);
        assert t[k] == x || t[k] in multiset(s[1..]);
      }
    } else if s != [] {
      forall j | 0 < j < |s| ensures StrLe(x, s[j]) { StrLeTransitive(x, s[0], s[j]); }
    }
  }

  lemma {:induction false} InsertStrStrictlySorted(x: string, s: seq<string>)
    requires StrictlySortedStr(s) && x !in s
    ensures StrictlySortedStr(InsertStr(x, s))
  {
    if s != [] && !StrLe(x, s[0]) {
      InsertStrStrictlySorted(x, s[1..]);
      StrLtTotal(x, s[0]);
      var t := InsertStr(x, s[1..]);
      forall k | 0 <= k < |t| ensures StrLt(s[0], t[k]) {
        assert t[k] in multiset(t);
        assert t[k] == x || t[k] in multiset(s[1..]);
        if t[k] != x {
          var m :| 0 <= m < |s[1..]| && s[1..][m] == t[k];
          assert s[m + 1] == t[k];
        }
      }
    } else if s != [] {
      assert StrLt(x, s[0]);
      forall j | 0 < j < |s| ensures StrLt(x, s[j]) { StrLtTransitive(x, s[0], s[j]); }
    }
  }

  /** list.sort() / sorted() on strings: duplicates kept. */
  function SortStrings(s: seq<string>): (r: seq<string>)
    ensures SortedStr(r)
    ensures multiset(r) == multiset(s)
    ensures |r| == |s|
  {
    if s == [] then []
    else
      assert s == [s[0]] + s[1..];
      InsertStrSorted(s[0], SortStrings(s[1..]));
      InsertStr(s[0], SortStrings(s[1..]))
  }

  /** sorted() of a set of strings: the members in strictly increasing order. */
  method SortStringSet(s: set<string>) returns (r: seq<string>)
    ensures StrictlySortedStr(r)
    ensures forall x :: x in r <==> x in s
  {
    r := [];
    var rest := s;
    while |rest| > 0
      invariant StrictlySortedStr(r)
      invariant forall x :: x in r ==> x in s && x !in rest
      invariant forall x :: x in s ==> x in r || x in rest
      invariant rest <= s
      decreases rest
    {
      var x :| x in rest;
      InsertStrStrictlySorted(x, r);
      r := InsertStr(x, r);
      assert forall y :: y in r <==> y in multiset(r);
      rest := rest - {x};
    }
  }

  /** Two strictly increasing sequences with the same members are equal. */
  lemma {:induction false} StrictlySortedStrUnique(a: seq<string>, b: seq<string>)
    requires StrictlySortedStr(a) && StrictlySortedStr(b)
    requires forall x :: x in a <==> x in b
    ensures a == b
  {
    assert a != [] ==> a[0] in a;
    assert b != [] ==> b[0] in b;
    if a != [] && b != [] {
      if a[0] != b[0] {
        assert b[0] in a;
        assert a[0] in b;
        var i :| 0 <= i < |a| && a[i] == b[0];
        var j :| 0 <= j < |b| && b[j] == a[0];
        assert StrLt(a[0], b[0]) by { if i == 0 {} }
        assert StrLt(b[0], a[0]) by { if j == 0 {} }
        StrLtAsymmetric(a[0], b[0]);
      }
      forall x ensures x in a[1..] <==> x in b[1..] {
        if x in a[1..] {
          var i :| 1 <= i < |a| && a[i] == x;
          assert x in b;
          if x == b[0] { StrLtIrreflexive(x); }
        }
        if x in b[1..] {
          var j :| 1 <= j < |b| && b[j] == x;
          assert x in a;
          if x == a[0] { StrLtIrreflexive(x); }
        }
      }
      StrictlySortedStrUnique(a[1..], b[1..]);
      assert a == [a[0]] + a[1..] && b == [b[0]] + b[1..];
    }
  }

  lemma {:induction false} StrictlySortedStrExists(s: set<string>)
    ensures exists r :: StrictlySortedStr(r) && forall x :: x in r <==> x in s
    decreases |s|
  {
    if s == {} {
      assert StrictlySortedStr([]);
    } else {
      assert |s| > 0;
      var x :| x in s;
      StrictlySortedStrExists(s - {x});
      var r :| StrictlySortedStr(r) && forall y :: y in r <==> y in s - {x};
      InsertStrStrictlySorted(x, r);
      var t := InsertStr(x, r);
      assert forall y :: y in t <==> y in multiset(t);
      assert forall y :: y in r <==> y in multiset(r);
    }
  }

  /** The members of a string set in increasing order (the value sorted() returns). */
  ghost function SortedSetStr(s: set<string>): (r: seq<string>)
    ensures StrictlySortedStr(r)
    ensures forall x :: x in r <==> x in s
  {
    StrictlySortedStrExists(s);
    var r :| StrictlySortedStr(r) && forall x :: x in r <==> x in s;
    r
  }

  // ---------------------------------------------------------------- integers

  lemma NonEmptyIntSet(s: set<int>)
    requires |s| > 0
    ensures exists x :: x in s
  {
    if forall x :: x !in s {
      assert false;
    }
  }

  ghost predicate StrictlyIncreasing(s: seq<int>) {
    forall i, j :: 0 <= i < j < |s| ==> s[i] < s[j]
  }

  function InsertInt(x: int, s: seq<int>): (r: seq<int>)
    requires StrictlyIncreasing(s) && x !in s
    ensures StrictlyIncreasing(r)
    ensures forall y :: y in r <==> y == x || y in s
  {
    if s == [] then [x]
    else if x < s[0] then [x] + s
    else
      var t := InsertInt(x, s[1..]);
      assert forall k :: 0 <= k < |s[1..]| ==> s[0] < s[1..][k];
      assert forall k :: 0 <= k < |t| ==> s[0] < t[k] by {
        forall k | 0 <= k < |t| ensures s[0] < t[k] {
          assert t[k] in t;
        }
      }
      [s[0]] + t
  }

  /** sorted() of a set of integers. */
  method SortIntSet(s: set<int>) returns (r: seq<int>)
    ensures StrictlyIncreasing(r)
    ensures forall x :: x in r <==> x in s
  {
    r := [];
    var rest := s;
    while |rest| > 0
      invariant StrictlyIncreasing(r)
      invariant forall x :: x in r ==> x in s && x !in rest
      invariant forall x :: x in s ==> x in r || x in rest
      invariant rest <= s
      decreases rest
    {
      NonEmptyIntSet(rest);
      var x :| x in rest;
      r := InsertInt(x, r);
      rest := rest - {x};
    }
  }

  lemma {:induction false} StrictlyIncreasingUnique(a: seq<int>, b: seq<int>)
    requires StrictlyIncreasing(a) && StrictlyIncreasing(b)
    requires forall x :: x in a <==> x in b
    ensures a == b
  {
    assert a != [] ==> a[0] in a;
    assert b != [] ==> b[0] in b;
    if a != [] && b != [] {
      assert a[0] in b && b[0] in a;
      assert a[0] == b[0];
      forall x ensures x in a[1..] <==> x in b[1..] {
        if x in a[1..] {
          var i :| 1 <= i < |a| && a[i] == x;
          assert x in b;
          var j :| 0 <= j < |b| && b[j] == x;
          assert j != 0;
          assert b[1..][j - 1] == x;
        }
        if x in b[1..] {
          var j :| 1 <= j < |b| && b[j] == x;
          assert x in a;
          var i :| 0 <= i < |a| && a[i] == x;
          assert i != 0;
          assert a[1..][i - 1] == x;
        }
      }
      StrictlyIncreasingUnique(a[1..], b[1..]);
      assert a == [a[0]] + a[1..] && b == [b[0]] + b[1..];
    }
  }

  lemma {:induction false} StrictlyIncreasingExists(s: set<int>)
    ensures exists r :: StrictlyIncreasing(r) && forall x :: x in r <==> x in s
    decreases |s|
  {
    if s == {} {
      assert StrictlyIncreasing([]);
    } else {
      NonEmptyIntSet(s);
      var x :| x in s;
      StrictlyIncreasingExists(s - {x});
      var r :| StrictlyIncreasing(r) && forall y :: y in r <==> y in s - {x};
      var t := InsertInt(x, r);
    }
  }

  /** The members of an integer set in increasing order. */
  ghost function SortedSetInt(s: set<int>): (r: seq<int>)
    ensures StrictlyIncreasing(r)
    ensures forall x :: x in r <==> x in s
  {
    StrictlyIncreasingExists(s);
    var r :| StrictlyIncreasing(r) && forall x :: x in r <==> x in s;
    r
  }

  /** A strictly sorted list of a set holds each member once, so its
      length is the set's size. */
  lemma {:induction false} DistinctCard(r: seq<string>, s: set<string>)
    requires StrictlySortedStr(r) && forall x :: x in r <==> x in s
    ensures |r| == |s|
  {
    if r != [] {
      var n := |r| - 1;
      forall x ensures x in r[..n] <==> x in s - {r[n]} {
        if x in r[..n] {
          var i :| 0 <= i < n && r[i] == x;
          if x == r[n] { StrLtIrreflexive(x); }
        }
        if x in s - {r[n]} {
          var i :| 0 <= i < |r| && r[i] == x;
          assert i != n;
          assert r[..n][i] == x;
        }
      }
      assert r[n] in s;
      DistinctCard(r[..n], s - {r[n]});
    }
  }

  /** A strictly sorted list has as many elements as distinct members. */
  lemma SortedCard(r: seq<string>)
    ensures StrictlySortedStr(r) ==> |r| == |set x | x in r|
  {
    if StrictlySortedStr(r) {
      DistinctCard(r, set x | x in r);
    }
  }

  /** A strictly increasing list of a set holds each member once, so its
      length is the set's size. */
  lemma {:induction false} IncreasingCard(r: seq<int>, s: set<int>)
    requires StrictlyIncreasing(r) && forall x :: x in r <==> x in s
    ensures |r| == |s|
  {
    if r != [] {
      var n := |r| - 1;
      forall x ensures x in r[..n] <==> x in s - {r[n]} {
        if x in r[..n] {
          var i :| 0 <= i < n && r[i] == x;
          assert r[i] < r[n];
        }
        if x in s - {r[n]} {
          var i :| 0 <= i < |r| && r[i] == x;
          assert r[..n][i] == x;
        }
      }
      assert r[n] in s;
      IncreasingCard(r[..n], s - {r[n]});
      assert |s - {r[n]}| == |s| - 1;
    } else {
      assert forall x :: x !in s;
      assert s == {};
    }
  }
}
