/** Policy variables: named texts that may refer to one another as
    `${name}`, each resolved once into its fully substituted value. */
module Vars {
  import opened Base
  import opened Text
  import opened Json

  // ---------------------------------------------------------------- scanning for references

  /** [-a-zA-Z0-9] */
  predicate IsVarChar(c: char) {
    ('a' <= c <= 'z') || ('A' <= c <= 'Z') || ('0' <= c <= '9') || c == '-'
  }

  /** The length of the longest prefix made of name characters. */
  function NameRun(s: string): (n: nat)
    ensures n <= |s| && (forall k :: 0 <= k < n ==> IsVarChar(s[k])) && (n < |s| ==> !IsVarChar(s[n]))
  {
    if s == [] || !IsVarChar(s[0]) then 0 else 1 + NameRun(s[1..])
  }

  /** A text cut into the reference matches and the characters between them. */
  datatype Piece = Lit(c: char) | Ref(name: string)

  function RenderPiece(p: Piece): string {
    match p
    case Lit(c) => [c]
    case Ref(n) => "${" + n + "}"
  }

  function RenderPieces(ps: seq<Piece>): string {
    if ps == [] then "" else RenderPiece(ps[0]) + RenderPieces(ps[1..])
  }

  /** Whether a reference `${name}` starts the text, and the length of its name. */
  function RefAt(s: string): (r: Option<nat>)
    ensures r.Some? ==> 1 <= r.value && 3 + r.value <= |s|
  {
    if |s| >= 2 && s[0] == '$' && s[1] == '{' then
      var n := NameRun(s[2..]);
      if n >= 1 && 2 + n < |s| && s[2 + n] == '}' then Some(n) else None
    else None
  }

  /** The leftmost non-overlapping matches of the reference pattern, as
      re.sub finds them. */
  function Pieces(s: string): seq<Piece>
    decreases |s|
  {
    if s == [] then []
    else
      match RefAt(s)
      case Some(n) => [Ref(s[2..2 + n])] + Pieces(s[3 + n..])
      case None => [Lit(s[0])] + Pieces(s[1..])
  }

  /** The names referenced by some pieces. */
  function Refs(ps: seq<Piece>): set<string> {
    set k | 0 <= k < |ps| && ps[k].Ref? :: ps[k].name
  }

  /** Cutting a text into pieces loses nothing. */
  lemma {:induction false} PiecesRender(s: string)
    ensures RenderPieces(Pieces(s)) == s
    decreases |s|
  {
    if s != [] {
      match RefAt(s)
      case Some(n) =>
        PiecesRender(s[3 + n..]);
        RefSplit(s, n);
      case None =>
        PiecesRender(s[1..]);
        assert s == [s[0]] + s[1..];
    }
  }

  lemma RefSplit(s: string, n: nat)
    requires RefAt(s) == Some(n)
    ensures s == RenderPiece(Ref(s[2..2 + n])) + s[3 + n..]
  {
    var a, b, c, d := s[..2], s[2..2 + n], s[2 + n..3 + n], s[3 + n..];
    assert a == "${" && c == "}";
    assert s == a + b + c + d;
  }

  /** The references of a suffix are references of the whole. */
  lemma RefsSuffix(ps: seq<Piece>, i: nat)
    requires i <= |ps|
    ensures Refs(ps[i..]) <= Refs(ps)
  {
    forall x | x in Refs(ps[i..]) ensures x in Refs(ps) {
      var k :| 0 <= k < |ps[i..]| && ps[i..][k].Ref? && ps[i..][k].name == x;
      assert ps[i + k] == ps[i..][k];
    }
  }

  /** A non-empty run of name characters. */
  predicate NameLike(r: string) {
    |r| >= 1 && forall k :: 0 <= k < |r| ==> IsVarChar(r[k])
  }

  /** The references of a piece followed by more pieces. */
  lemma RefsCons(p: Piece, ps: seq<Piece>)
    ensures Refs([p] + ps) == (if p.Ref? then {p.name} else {}) + Refs(ps)
  {
    var qs := [p] + ps;
    assert forall k :: 1 <= k < |qs| ==> qs[k] == ps[k - 1];
    forall x | x in Refs(ps) ensures x in Refs(qs) {
      var k :| 0 <= k < |ps| && ps[k].Ref? && ps[k].name == x;
      assert qs[k + 1] == ps[k];
    }
    if p.Ref? {
      assert qs[0] == p;
    }
    forall x | x in Refs(qs) ensures x in (if p.Ref? then {p.name} else {}) + Refs(ps) {
      var k :| 0 <= k < |qs| && qs[k].Ref? && qs[k].name == x;
      if k >= 1 {
        assert ps[k - 1] == qs[k];
      }
    }
  }

  /** A reference at the head of a text has a name made of name characters. */
  lemma RefAtNameLike(s: string, n: nat)
    requires RefAt(s) == Some(n)
    ensures NameLike(s[2..2 + n])
  {
    assert forall k :: 0 <= k < n ==> s[2..2 + n][k] == s[2..][k];
  }

  /** Every reference found is a non-empty run of name characters. */
  lemma {:induction false} RefsWellFormed(s: string)
    ensures forall r :: r in Refs(Pieces(s)) ==> NameLike(r)
    decreases |s|
  {
    if s != [] {
      match RefAt(s)
      case Some(n) =>
        RefsWellFormed(s[3 + n..]);
        RefAtNameLike(s, n);
        RefsCons(Ref(s[2..2 + n]), Pieces(s[3 + n..]));
      case None =>
        RefsWellFormed(s[1..]);
        RefsCons(Lit(s[0]), Pieces(s[1..]));
    }
  }

  /** A text without `$` holds no reference. */
  lemma {:induction false} NoDollarNoRefs(s: string)
    requires '$' !in s
    ensures Pieces(s) == seq(|s|, k requires 0 <= k < |s| => Lit(s[k]))
    decreases |s|
  {
    if s != [] {
      NoDollarNoRefs(s[1..]);
    }
  }

  // ---------------------------------------------------------------- the raw definitions

  /** The text a raw definition stands for before substitution: a str
      itself; a `join-list` dict its items joined with commas. Any other
      dict type is not implemented, and a value of another kind leaves the
      source's `text` unassigned. */
  function RawText(v: Value): (r: Result<string>)
    ensures v.Str? ==> r == Ok(v.s)
    ensures r.Ok? <==>
      || v.Str?
      || (v.Obj? && Lookup(v.fields, "type") == Some(Str("join-list")) &&
          Lookup(v.fields, "items").Some? && JoinItems(Lookup(v.fields, "items").value).Ok?)
    ensures !v.Str? && !v.Obj? ==> r == Err(UnboundLocal("text"))
  {
    match v
    case Str(s) => Ok(s)
    case Obj(fields) =>
      (match Lookup(fields, "type")
       case Some(Str(t)) =>
         if t != "join-list" then Err(NotImplemented(t))
         else
           (match Lookup(fields, "items")
            case None => Err(KeyMissing("items"))
            case Some(items) => JoinItems(items))
       case None => Err(NotImplemented("None"))
       case Some(t) => Err(NotImplemented(Repr(t))))
    case _ => Err(UnboundLocal("text"))
  }

  /** ",".join(items): whatever iterating items visits (a list's elements,
      a str's characters, a dict's keys) joined with commas. An element
      that is not a str, or a value that cannot be iterated, is a
      TypeError. */
  function JoinItems(items: Value): (r: Result<string>)
    ensures r.Ok? <==> Iterated(items).Some? && forall k :: 0 <= k < |Iterated(items).value| ==> Iterated(items).value[k].Str?
    ensures items.Str? || items.Obj? ==> r.Ok?
  {
    match Iterated(items)
    case None => Err(WrongKind("items"))
    case Some(vs) =>
      if forall k :: 0 <= k < |vs| ==> vs[k].Str? then Ok(Join(seq(|vs|, k requires 0 <= k < |vs| => vs[k].s), ','))
      else Err(WrongKind("items"))
  }

  /** A str under "items" is joined character by character. */
  lemma JoinCharacters(s: string)
    ensures JoinItems(Str(s)) == Ok(Join(seq(|s|, k requires 0 <= k < |s| => [s[k]]), ','))
  {
    var vs := Iterated(Str(s)).value;
    assert seq(|vs|, k requires 0 <= k < |vs| => vs[k].s) == seq(|s|, k requires 0 <= k < |s| => [s[k]]);
  }

  /** A dict under "items" is joined by its keys. */
  lemma JoinKeys(fields: seq<(string, Value)>)
    ensures JoinItems(Obj(fields)) == Ok(Join(seq(|fields|, k requires 0 <= k < |fields| => fields[k].0), ','))
  {
    var vs := Iterated(Obj(fields)).value;
    assert seq(|vs|, k requires 0 <= k < |vs| => vs[k].s) == seq(|fields|, k requires 0 <= k < |fields| => fields[k].0);
  }

  /** "ab" under "items" resolves to "a,b". */
  lemma JoinCharactersExample()
    ensures JoinItems(Str("ab")) == Ok("a,b")
  {
    var s := "ab";
    JoinCharacters(s);
    var parts := seq(|s|, k requires 0 <= k < |s| => [s[k]]);
    assert parts == ["a", "b"];
    assert ["a", "b"][1..] == ["b"];
    assert Join(["a", "b"], ',') == "a" + [','] + "b" == "a,b";
  }

  // ---------------------------------------------------------------- the resolved values

  /** The resolution depth bound of a name: one more than its rank when it
      is defined, zero (no further resolution) otherwise. */
  ghost function Height(raw: seq<(string, Value)>, rank: map<string, nat>, n: string): nat {
    if Lookup(raw, n).Some? && n in rank then rank[n] + 1 else 0
  }

  /** No definition refers, directly or through others, to itself: every
      name a definition refers to sits lower in the given ranking. */
  ghost predicate Acyclic(raw: seq<(string, Value)>, rank: map<string, nat>) {
    forall n :: Lookup(raw, n).Some? ==>
      && n in rank
      && (RawText(Lookup(raw, n).value).Ok? ==>
            forall r :: r in Refs(Pieces(RawText(Lookup(raw, n).value).value)) ==> Height(raw, rank, r) < Height(raw, rank, n))
  }

  /** The fully resolved value of a name, or the first error resolving it
      raises. */
  ghost function Resolved(raw: seq<(string, Value)>, rank: map<string, nat>, n: string): Result<string>
    requires Acyclic(raw, rank)
    decreases Height(raw, rank, n), 1
  {
    match Lookup(raw, n)
    case None => Err(KeyMissing(n))
    case Some(v) =>
      (match RawText(v)
       case Err(e) => Err(e)
       case Ok(t) => Expand(Pieces(t), raw, rank, Height(raw, rank, n)))
  }

  /** re.sub with every match replaced by the resolved value of its name,
      the matches taken from left to right. */
  ghost function Expand(ps: seq<Piece>, raw: seq<(string, Value)>, rank: map<string, nat>, bound: nat): Result<string>
    requires Acyclic(raw, rank)
    requires forall r :: r in Refs(ps) ==> Height(raw, rank, r) < bound
    decreases bound, 0, |ps|
  {
    if ps == [] then Ok("")
    else
      RefsSuffix(ps, 1);
      var head: Result<string> :=
        match ps[0]
        case Lit(c) => Ok([c])
        case Ref(r) => assert r in Refs(ps); Resolved(raw, rank, r);
      match head
      case Err(e) => Err(e)
      case Ok(h) =>
        (match Expand(ps[1..], raw, rank, bound)
         case Err(e) => Err(e)
         case Ok(rest) => Ok(h + rest))
  }

  /** Text with the value of a prefix already in front of it. */
  function Prepend(out: string, r: Result<string>): Result<string> {
    match r
    case Err(e) => Err(e)
    case Ok(s) => Ok(out + s)
  }

  lemma PrependAssoc(a: string, b: string, r: Result<string>)
    ensures Prepend(a, Prepend(b, r)) == Prepend(a + b, r)
  {
    if r.Ok? { assert a + (b + r.value) == (a + b) + r.value; }
  }

  /** Expanding from position i: the piece at i, then the rest. */
  lemma ExpandAt(ps: seq<Piece>, i: nat, raw: seq<(string, Value)>, rank: map<string, nat>, bound: nat)
    requires Acyclic(raw, rank) && i < |ps|
    requires forall r :: r in Refs(ps) ==> Height(raw, rank, r) < bound
    ensures Refs(ps[i..]) <= Refs(ps) && Refs(ps[i + 1..]) <= Refs(ps)
    ensures ps[i].Ref? ==> ps[i].name in Refs(ps)
    ensures ps[i].Lit? ==> Expand(ps[i..], raw, rank, bound) == Prepend([ps[i].c], Expand(ps[i + 1..], raw, rank, bound))
    ensures ps[i].Ref? ==>
      Expand(ps[i..], raw, rank, bound) ==
        (match Resolved(raw, rank, ps[i].name)
         case Err(e) => Err(e)
         case Ok(v) => Prepend(v, Expand(ps[i + 1..], raw, rank, bound)))
  {
    RefsSuffix(ps, i);
    RefsSuffix(ps, i + 1);
    var tail := ps[i..];
    assert tail[1..] == ps[i + 1..] && tail[0] == ps[i];
  }

  /** A name that is not defined cannot be resolved. */
  lemma UndefinedName(raw: seq<(string, Value)>, rank: map<string, nat>, n: string)
    requires Acyclic(raw, rank) && !HasKey(raw, n)
    ensures Resolved(raw, rank, n) == Err(KeyMissing(n))
  {
  }

  /** Text without `$` is its own value. */
  lemma PlainTextIsItself(s: string, raw: seq<(string, Value)>, rank: map<string, nat>, bound: nat)
    requires Acyclic(raw, rank) && '$' !in s
    ensures forall r :: r !in Refs(Pieces(s))
    ensures Expand(Pieces(s), raw, rank, bound) == Ok(s)
  {
    NoDollarNoRefs(s);
    PlainExpand(s, raw, rank, bound);
  }

  lemma {:induction false} PlainExpand(s: string, raw: seq<(string, Value)>, rank: map<string, nat>, bound: nat)
    requires Acyclic(raw, rank)
    requires Pieces(s) == seq(|s|, k requires 0 <= k < |s| => Lit(s[k]))
    ensures forall r :: r !in Refs(Pieces(s))
    ensures Expand(Pieces(s), raw, rank, bound) == Ok(s)
    decreases |s|
  {
    var ps := Pieces(s);
    if s != [] {
      assert ps[1..] == seq(|s| - 1, k requires 0 <= k < |s| - 1 => Lit(s[1..][k]));
      assert Pieces(s[1..]) == ps[1..] by {
        assert RefAt(s).None? by { assert ps[0] == Lit(s[0]); }
      }
      PlainExpand(s[1..], raw, rank, bound);
      assert s == [s[0]] + s[1..];
    }
  }

  /** A reference is replaced by the resolved value of its name, and the
      text around it is kept. */
  lemma ExpandRef(a: string, r: string, b: string, raw: seq<(string, Value)>, rank: map<string, nat>, bound: nat)
    requires Acyclic(raw, rank)
    requires forall x :: x in Refs([Ref(r)] + Pieces(b)) ==> Height(raw, rank, x) < bound
    ensures forall x :: x in Refs(Pieces(b)) ==> Height(raw, rank, x) < bound
    ensures Expand([Ref(r)] + Pieces(b), raw, rank, bound) ==
      (match Resolved(raw, rank, r)
       case Err(e) => Err(e)
       case Ok(v) => Prepend(v, Expand(Pieces(b), raw, rank, bound)))
  {
    var ps := [Ref(r)] + Pieces(b);
    assert ps[1..] == Pieces(b);
    RefsSuffix(ps, 1);
  }

  /** A join-list variable resolves to its joined items, substituted. */
  lemma JoinListResolves(raw: seq<(string, Value)>, rank: map<string, nat>, n: string, fields: seq<(string, Value)>, items: seq<string>)
    requires Acyclic(raw, rank)
    requires Lookup(raw, n) == Some(Obj(fields))
    requires Lookup(fields, "type") == Some(Str("join-list"))
    requires Lookup(fields, "items") == Some(List(seq(|items|, k requires 0 <= k < |items| => Str(items[k]))))
    ensures RawText(Obj(fields)) == Ok(Join(items, ','))
    ensures Resolved(raw, rank, n) == Expand(Pieces(Join(items, ',')), raw, rank, Height(raw, rank, n))
  {
    var vs := seq(|items|, k requires 0 <= k < |items| => Str(items[k]));
    assert seq(|vs|, k requires 0 <= k < |vs| => vs[k].s) == items;
  }

  /** A dict of any other type is not implemented. */
  lemma OtherDictType(raw: seq<(string, Value)>, rank: map<string, nat>, n: string, fields: seq<(string, Value)>, t: string)
    requires Acyclic(raw, rank)
    requires Lookup(raw, n) == Some(Obj(fields)) && Lookup(fields, "type") == Some(Str(t)) && t != "join-list"
    ensures Resolved(raw, rank, n) == Err(NotImplemented(t))
  {
  }

  // ---------------------------------------------------------------- the object

  class Variables {
    /** The raw definitions. */
    const raw: seq<(string, Value)>
    /** A ranking witnessing that no definition depends on itself. */
    ghost const rank: map<string, nat>
    /** The memo of resolved values. */
    var resolved: map<string, string>

    ghost predicate Valid()
      reads this
    {
      Acyclic(raw, rank) && forall n {:trigger Resolved(raw, rank, n)} :: n in resolved ==> Resolved(raw, rank, n) == Ok(resolved[n])
    }

    constructor (raw: seq<(string, Value)>, ghost rank: map<string, nat>)
      requires Acyclic(raw, rank)
      ensures Valid() && this.raw == raw && this.rank == rank && resolved == map[]
    {
      this.raw := raw;
      this.rank := rank;
      resolved := map[];
    }

    /** _resolve_var: the memoised value when there is one; otherwise the
        definition's text substituted, and remembered. */
    method ResolveVar(name: string) returns (r: Result<string>)
      requires Valid()
      modifies this
      ensures Valid() && r == Resolved(raw, rank, name)
      ensures forall n :: n in old(resolved) ==> n in resolved && resolved[n] == old(resolved)[n]
      ensures old(resolved).Keys <= resolved.Keys
      ensures r.Ok? ==> name in resolved
      ensures name in old(resolved) ==> resolved == old(resolved)
      decreases Height(raw, rank, name), 1
    {
      if name in resolved {
        return Ok(resolved[name]);
      }
      var v := Lookup(raw, name);
      if v.None? {
        return Err(KeyMissing(name));
      }
      var text := RawText(v.value);
      if text.Err? {
        return Err(text.error);
      }
      r := Substitute(text.value, Height(raw, rank, name));
      if r.Ok? {
        resolved := resolved[name := r.value];
      }
    }

    /** _substitute: every reference replaced, from left to right; the
        first reference that fails stops the substitution. */
    method Substitute(text: string, ghost bound: nat) returns (r: Result<string>)
      requires Valid()
      requires forall x :: x in Refs(Pieces(text)) ==> Height(raw, rank, x) < bound
      modifies this
      ensures Valid() && r == Expand(Pieces(text), raw, rank, bound)
      ensures forall n :: n in old(resolved) ==> n in resolved && resolved[n] == old(resolved)[n]
      ensures old(resolved).Keys <= resolved.Keys
      decreases bound, 0
    {
      var ps := Pieces(text);
      var out := "";
      assert ps[0..] == ps;
      assert Prepend(out, Expand(ps, raw, rank, bound)) == Expand(ps, raw, rank, bound) by {
        if Expand(ps, raw, rank, bound).Ok? { assert out + Expand(ps, raw, rank, bound).value == Expand(ps, raw, rank, bound).value; }
      }
      for i := 0 to |ps|
        invariant Valid()
        invariant forall n :: n in old(resolved) ==> n in resolved && resolved[n] == old(resolved)[n]
        invariant Refs(ps[i..]) <= Refs(ps)
        invariant Expand(ps, raw, rank, bound) == Prepend(out, Expand(ps[i..], raw, rank, bound))
      {
        ExpandAt(ps, i, raw, rank, bound);
        ghost var rest := Expand(ps[i + 1..], raw, rank, bound);
        match ps[i]
        case Lit(c) =>
          PrependAssoc(out, [c], rest);
          out := out + [c];
        case Ref(name) =>
          var v := ResolveVar(name);
          if v.Err? {
            return Err(v.error);
          }
          PrependAssoc(out, v.value, rest);
          out := out + v.value;
      }
      assert ps[|ps|..] == [];
      assert out + "" == out;
      return Ok(out);
    }
  }

  /** Variables(dict): every definition resolved in order; the first that
      fails raises. */
  method New(raw: seq<(string, Value)>, ghost rank: map<string, nat>) returns (r: Result<Variables>)
    requires Loaded(Obj(raw)) && Acyclic(raw, rank)
    ensures r.Ok? <==> forall k :: 0 <= k < |raw| ==> Resolved(raw, rank, raw[k].0).Ok?
    ensures r.Ok? ==>
      (fresh(r.value) && r.value.Valid() && r.value.raw == raw
       && forall k :: 0 <= k < |raw| ==> raw[k].0 in r.value.resolved)
    ensures r.Err? ==>
      exists k :: 0 <= k < |raw| && Resolved(raw, rank, raw[k].0) == Err(r.error)
        && (forall j :: 0 <= j < k ==> Resolved(raw, rank, raw[j].0).Ok?)
  {
    var vars := new Variables(raw, rank);
    for i := 0 to |raw|
      invariant vars.Valid() && vars.raw == raw && vars.rank == rank
      invariant forall k :: 0 <= k < i ==> raw[k].0 in vars.resolved
    {
      var v := vars.ResolveVar(raw[i].0);
      if v.Err? {
        return Err(v.error);
      }
    }
    return Ok(vars);
  }
}
