/** The combinatorial rule model: a rule is an ordered list of components
    (axes), each holding alternative command fragments; its commands are the
    cross product of the components, one alternative from each, concatenated
    in component order. A bundle (`Rules`) groups the rules of one policy
    entry, and the ruleset collects the bundles in compilation order. */
module Rules {
  import opened Base

  /** One alternative of a component: a run of command-line words. */
  type Fragment = seq<string>

  /** A component as a value: its name (None for a fixed part) and alternatives. */
  datatype Axis = Axis(name: Option<string>, alts: seq<Fragment>)

  // ---------------------------------------------------------------- the cross product

  /** Every command of `cmds` extended by every alternative of `alts`, the
      alternative varying fastest (itertools.product order). */
  function Extend(cmds: seq<Fragment>, alts: seq<Fragment>): (r: seq<Fragment>)
    ensures |r| == |cmds| * |alts|
  {
    if cmds == [] then []
    else Row(cmds[0], alts) + Extend(cmds[1..], alts)
  }

  /** One command extended by each alternative in turn. */
  function Row(cmd: Fragment, alts: seq<Fragment>): (r: seq<Fragment>)
    ensures |r| == |alts| && forall j :: 0 <= j < |alts| ==> r[j] == cmd + alts[j]
  {
    seq(|alts|, j requires 0 <= j < |alts| => cmd + alts[j])
  }

  lemma {:induction false} MulLe(a: nat, b: nat, m: nat)
    requires a <= b
    ensures a * m <= b * m
    decreases b - a
  {
    if a < b {
      MulLe(a, b - 1, m);
      assert b * m == (b - 1) * m + m;
    }
  }

  /** Position q * m + j of an extension is command q followed by alternative j. */
  lemma {:induction false} ExtendAt(cmds: seq<Fragment>, alts: seq<Fragment>, q: nat, j: nat)
    requires q < |cmds| && j < |alts|
    ensures q * |alts| + j < |Extend(cmds, alts)|
    ensures Extend(cmds, alts)[q * |alts| + j] == cmds[q] + alts[j]
  {
    var m := |alts|;
    MulLe(q + 1, |cmds|, m);
    assert (q + 1) * m == q * m + m;
    if q > 0 {
      ExtendAt(cmds[1..], alts, q - 1, j);
      assert q * m == (q - 1) * m + m;
    }
  }

  /** Every position of an extension is such a pair. */
  lemma {:induction false} ExtendOnto(cmds: seq<Fragment>, alts: seq<Fragment>, i: nat) returns (q: nat, j: nat)
    requires i < |Extend(cmds, alts)|
    ensures q < |cmds| && j < |alts| && i == q * |alts| + j
  {
    var m := |alts|;
    if i < m {
      q, j := 0, i;
    } else {
      assert |cmds| * m == (|cmds| - 1) * m + m;
      var q', j' := ExtendOnto(cmds[1..], alts, i - m);
      q, j := q' + 1, j';
      assert (q' + 1) * m == q' * m + m;
    }
  }

  /** The commands of a rule whose components hold the given alternatives. */
  function Product(axes: seq<seq<Fragment>>): (r: seq<Fragment>)
    ensures |r| == Size(axes)
  {
    if axes == [] then [[]]
    else Extend(Product(axes[..|axes| - 1]), axes[|axes| - 1])
  }

  /** The product of the component sizes. */
  function Size(axes: seq<seq<Fragment>>): nat {
    if axes == [] then 1 else Size(axes[..|axes| - 1]) * |axes[|axes| - 1]|
  }

  lemma {:induction false} SizeZero(axes: seq<seq<Fragment>>)
    ensures Size(axes) == 0 <==> exists k :: 0 <= k < |axes| && |axes[k]| == 0
  {
    if axes != [] {
      var n := |axes| - 1;
      var init := axes[..n];
      SizeZero(init);
      if Size(axes) == 0 {
        if |axes[n]| != 0 {
          var k :| 0 <= k < |init| && |init[k]| == 0;
          assert axes[k] == init[k];
        }
      } else {
        assert Size(init) != 0 && |axes[n]| != 0;
        forall k | 0 <= k < |axes| ensures |axes[k]| != 0 {
          if k < n { assert axes[k] == init[k]; }
        }
      }
    }
  }

  /** A choice of one alternative per component. */
  predicate IsChoice(axes: seq<seq<Fragment>>, c: seq<nat>) {
    |c| == |axes| && forall k :: 0 <= k < |c| ==> c[k] < |axes[k]|
  }

  /** The command a choice stands for: the chosen alternatives concatenated in component order. */
  function Pick(axes: seq<seq<Fragment>>, c: seq<nat>): Fragment
    requires IsChoice(axes, c)
  {
    if axes == [] then []
    else
      var n := |axes| - 1;
      assert IsChoice(axes[..n], c[..n]);
      Pick(axes[..n], c[..n]) + axes[n][c[n]]
  }

  /** The position of a choice in mixed radix, the last component least significant. */
  function Rank(axes: seq<seq<Fragment>>, c: seq<nat>): nat
    requires IsChoice(axes, c)
  {
    if axes == [] then 0
    else
      var n := |axes| - 1;
      assert IsChoice(axes[..n], c[..n]);
      Rank(axes[..n], c[..n]) * |axes[n]| + c[n]
  }

  /** Each choice names exactly one command: the one at its rank. */
  lemma {:induction false} ProductAtRank(axes: seq<seq<Fragment>>, c: seq<nat>)
    requires IsChoice(axes, c)
    ensures Rank(axes, c) < Size(axes)
    ensures Product(axes)[Rank(axes, c)] == Pick(axes, c)
  {
    if axes != [] {
      var n := |axes| - 1;
      var init, ci := axes[..n], c[..n];
      assert IsChoice(init, ci);
      ProductAtRank(init, ci);
      ExtendAt(Product(init), axes[n], Rank(init, ci), c[n]);
    }
  }

  /** Every command is the command of some choice. */
  lemma {:induction false} ProductOnto(axes: seq<seq<Fragment>>, i: nat)
    requires i < Size(axes)
    ensures exists c: seq<nat> :: IsChoice(axes, c) && Rank(axes, c) == i
  {
    if axes == [] {
      assert IsChoice(axes, []) && Rank(axes, []) == 0;
    } else {
      var n := |axes| - 1;
      var init, m := axes[..n], |axes[n]|;
      var q, j := ExtendOnto(Product(init), axes[n], i);
      ProductOnto(init, q);
      var ci: seq<nat> :| IsChoice(init, ci) && Rank(init, ci) == q;
      var c := ci + [j];
      assert c[..n] == ci;
      assert IsChoice(axes, c);
    }
  }

  /** c1 comes before c2 in lexicographic order. */
  predicate LexLess(c1: seq<nat>, c2: seq<nat>) {
    |c1| == |c2| && exists p :: 0 <= p < |c1| && c1[..p] == c2[..p] && c1[p] < c2[p]
  }

  /** Commands follow the lexicographic order of their choices. */
  lemma {:induction false} RankOrder(axes: seq<seq<Fragment>>, c1: seq<nat>, c2: seq<nat>)
    requires IsChoice(axes, c1) && IsChoice(axes, c2) && LexLess(c1, c2)
    ensures Rank(axes, c1) < Rank(axes, c2)
  {
    var n := |axes| - 1;
    var init, m := axes[..n], |axes[n]|;
    var a1, a2 := c1[..n], c2[..n];
    assert IsChoice(init, a1) && IsChoice(init, a2);
    var p :| 0 <= p < |c1| && c1[..p] == c2[..p] && c1[p] < c2[p];
    if p < n {
      assert a1[..p] == c1[..p] && a2[..p] == c2[..p];
      assert LexLess(a1, a2);
      RankOrder(init, a1, a2);
      var r1, r2 := Rank(init, a1), Rank(init, a2);
      MulLe(r1 + 1, r2, m);
      assert (r1 + 1) * m == r1 * m + m;
    } else {
      assert a1 == c1[..p] && a2 == c2[..p];
    }
  }

  /** The alternatives of each component. */
  function AltsOf(axes: seq<Axis>): (r: seq<seq<Fragment>>)
    ensures |r| == |axes| && forall k :: 0 <= k < |axes| ==> r[k] == axes[k].alts
  {
    seq(|axes|, k requires 0 <= k < |axes| => axes[k].alts)
  }

  /** The fixed components for the given parts: one single-alternative component each. */
  function FixedAxes(parts: seq<Fragment>): (r: seq<Axis>)
    ensures |r| == |parts| && forall k :: 0 <= k < |parts| ==> r[k] == Axis(None, [parts[k]])
  {
    seq(|parts|, k requires 0 <= k < |parts| => Axis(None, [parts[k]]))
  }

  /** One more part adds its fixed component at the end. */
  lemma FixedAxesSnoc(parts: seq<Fragment>, i: nat)
    requires i < |parts|
    ensures FixedAxes(parts[..i + 1]) == FixedAxes(parts[..i]) + [Axis(None, [parts[i]])]
  {
    var a, b := FixedAxes(parts[..i + 1]), FixedAxes(parts[..i]) + [Axis(None, [parts[i]])];
    assert |a| == |b|;
    forall k | 0 <= k < |a| ensures a[k] == b[k] {
      if k < i {
        assert parts[..i + 1][k] == parts[..i][k];
      }
    }
  }

  // ---------------------------------------------------------------- components as shared lists

  /** A component's list of alternatives. The list add_group returns is the
      one the rule holds, so appending to it extends the component. */
  class Group {
    var members: seq<Fragment>

    constructor (init: seq<Fragment>)
      ensures members == init
    {
      members := init;
    }

    method Append(f: Fragment)
      modifies this
      ensures members == old(members) + [f]
    {
      members := members + [f];
    }
  }

  /** The components held by the given lists, with their names. */
  function AxesOf(names: seq<Option<string>>, gs: seq<Group>): (r: seq<Axis>)
    requires |names| == |gs|
    reads gs
    ensures |r| == |gs| && forall k :: 0 <= k < |gs| ==> r[k] == Axis(names[k], gs[k].members)
  {
    if gs == [] then []
    else AxesOf(names[..|gs| - 1], gs[..|gs| - 1]) + [Axis(names[|gs| - 1], gs[|gs| - 1].members)]
  }

  class Rule {
    var names: seq<Option<string>>
    var groups: seq<Group>
    /** The components as values, kept in step with the lists. */
    ghost var axes: seq<Axis>

    /** Every component has its own list, and the recorded components are
        what the lists hold. */
    ghost predicate Valid()
      reads this, groups
    {
      && |names| == |groups|
      && (forall i, j :: 0 <= i < j < |groups| ==> groups[i] != groups[j])
      && axes == AxesOf(names, groups)
    }

    /** The components as values. */
    ghost function Axes(): seq<Axis>
      reads this
    {
      axes
    }

    constructor ()
      ensures Valid() && Axes() == [] && groups == []
    {
      names := [];
      groups := [];
      axes := [];
    }

    /** One more component, on a fresh list holding init. */
    method Push(name: Option<string>, init: seq<Fragment>) returns (g: Group)
      requires Valid()
      modifies this
      ensures Valid() && fresh(g) && groups == old(groups) + [g]
      ensures g.members == init
      ensures Axes() == old(Axes()) + [Axis(name, init)]
    {
      g := new Group(init);
      names := names + [name];
      groups := groups + [g];
      axes := axes + [Axis(name, init)];
      assert forall k :: 0 <= k < |groups| - 1 ==> groups[k] != g;
    }

    /** add_fixed: one unnamed component per part, each with exactly that part. */
    method AddFixed(parts: seq<Fragment>)
      requires Valid()
      modifies this
      ensures Valid() && Axes() == old(Axes()) + FixedAxes(parts)
    {
      ghost var start := Axes();
      for i := 0 to |parts|
        invariant Valid() && Axes() == start + FixedAxes(parts[..i])
      {
        ghost var done := FixedAxes(parts[..i]);
        var _ := Push(None, [parts[i]]);
        assert Axes() == start + done + [Axis(None, [parts[i]])];
        FixedAxesSnoc(parts, i);
        assert start + done + [Axis(None, [parts[i]])] == start + (done + [Axis(None, [parts[i]])]);
      }
      assert parts[..|parts|] == parts;
    }

    /** add_group: one named component initially holding members; the
        returned list is the component's own, so appending to it later
        extends the component. */
    method AddGroup(name: string, members: seq<Fragment>) returns (g: Group)
      requires Valid()
      modifies this
      ensures Valid() && fresh(g) && groups == old(groups) + [g]
      ensures g.members == members
      ensures Axes() == old(Axes()) + [Axis(Some(name), members)]
    {
      g := Push(Some(name), members);
    }

    /** group.append(f) on the list add_group returned, while that list is
        still the rule's last component: the component grows by f. */
    method AppendLast(g: Group, f: Fragment)
      requires Valid() && |groups| > 0 && g == groups[|groups| - 1]
      modifies this, g
      ensures Valid() && groups == old(groups) && names == old(names)
      ensures g.members == old(g.members) + [f]
      ensures Axes() == old(Axes())[..|groups| - 1] + [Axis(names[|groups| - 1], old(g.members) + [f])]
    {
      var n := |groups| - 1;
      ghost var before := axes;
      assert forall k :: 0 <= k < |groups| ==> before[k] == Axis(names[k], groups[k].members);
      g.Append(f);
      axes := axes[..n] + [Axis(names[n], g.members)];
      forall k | 0 <= k < n
        ensures axes[k] == Axis(names[k], groups[k].members)
      {
        assert groups[k] != g;
        assert axes[k] == before[k];
      }
      ghost var now := AxesOf(names, groups);
      assert |now| == |axes|;
      assert forall k :: 0 <= k < |axes| ==> axes[k] == now[k];
    }

    /** has_empty_group: some component has no alternative. */
    method HasEmptyGroup() returns (b: bool)
      requires Valid()
      ensures b <==> exists k :: 0 <= k < |Axes()| && Axes()[k].alts == []
    {
      for i := 0 to |groups|
        invariant forall k :: 0 <= k < i ==> groups[k].members != []
      {
        if |groups[i].members| == 0 {
          assert Axes()[i].alts == [];
          return true;
        }
      }
      return false;
    }

    /** generate_commands: the cross product of the components. */
    method GenerateCommands() returns (cmds: seq<Fragment>)
      requires Valid()
      ensures cmds == Product(AltsOf(Axes()))
    {
      ghost var alts := AltsOf(Axes());
      cmds := [[]];
      for i := 0 to |groups|
        invariant cmds == Product(alts[..i])
      {
        assert alts[..i + 1][..i] == alts[..i];
        cmds := Extend(cmds, groups[i].members);
      }
      assert alts[..|groups|] == alts;
    }
  }

  /** A rule with an empty component yields no command, and only then. */
  lemma EmptyGroupMeansNoCommands(axes: seq<Axis>)
    ensures Product(AltsOf(axes)) == [] <==> exists k :: 0 <= k < |axes| && axes[k].alts == []
  {
    var alts := AltsOf(axes);
    SizeZero(alts);
    if exists k :: 0 <= k < |axes| && axes[k].alts == [] {
      var k :| 0 <= k < |axes| && axes[k].alts == [];
      assert |alts[k]| == 0;
    }
  }

  // ---------------------------------------------------------------- bundles and the ruleset

  /** A bundle as a value: its name and the components of each of its rules. */
  datatype Bundle = Bundle(name: string, rules: seq<seq<Axis>>)

  /** The rules of one policy entry (`Rules`). */
  class Rules {
    const name: string
    var rules: seq<Rule>

    constructor (name: string)
      ensures this.name == name && rules == []
    {
      this.name := name;
      rules := [];
    }

    /** new: a fresh empty rule appended to the bundle. */
    method New() returns (r: Rule)
      modifies this
      ensures fresh(r) && r.Valid() && r.Axes() == [] && r.groups == []
      ensures rules == old(rules) + [r]
    {
      r := new Rule();
      rules := rules + [r];
    }

    /** The components of every rule, in insertion order. */
    ghost function Snapshot(): (b: Bundle)
      reads this, rules
      ensures b.name == name && |b.rules| == |rules|
      ensures forall k :: 0 <= k < |rules| ==> b.rules[k] == rules[k].Axes()
    {
      Bundle(name, AxesOfRules(rules))
    }
  }

  /** The components of each rule. */
  ghost function AxesOfRules(rs: seq<Rule>): (r: seq<seq<Axis>>)
    reads rs
    ensures |r| == |rs| && forall k :: 0 <= k < |rs| ==> r[k] == rs[k].Axes()
  {
    seq(|rs|, k reads rs requires 0 <= k < |rs| => rs[k].Axes())
  }

  /** One more rule adds its components to the snapshot. */
  lemma AxesOfRulesSnoc(rs: seq<Rule>, last: Rule)
    ensures AxesOfRules(rs + [last]) == AxesOfRules(rs) + [last.Axes()]
  {
    assert forall k :: 0 <= k < |rs| ==> (rs + [last])[k] == rs[k];
  }

  /** The whole compiled configuration: the bundles in order and the
      free-form datapoints. `contents` records each bundle as it was when
      added; the compiler never changes a bundle after adding it. */
  class Ruleset {
    var datapoints: seq<(string, string)>
    var bundles: seq<Rules>
    ghost var contents: seq<Bundle>

    constructor ()
      ensures datapoints == [] && bundles == [] && contents == []
    {
      datapoints := [];
      bundles := [];
      contents := [];
    }

    /** add_rules: append one bundle; nothing else changes. */
    method AddRules(rules: Rules)
      modifies this
      ensures bundles == old(bundles) + [rules]
      ensures contents == old(contents) + [old(rules.Snapshot())]
      ensures datapoints == old(datapoints)
    {
      contents := contents + [rules.Snapshot()];
      bundles := bundles + [rules];
    }

    /** add_datapoint: append one named datapoint; nothing else changes. */
    method AddDatapoint(name: string, data: string)
      modifies this
      ensures datapoints == old(datapoints) + [(name, data)]
      ensures bundles == old(bundles) && contents == old(contents)
    {
      datapoints := datapoints + [(name, data)];
    }
  }
}
