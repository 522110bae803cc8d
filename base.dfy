/** Option and Result wrappers and the error kinds the compiler can raise.
    The first group of Error constructors are the policy errors (the source's
    own exception classes, all derived from its ruleset exception, which the
    lenient compilation mode catches); the second group are Python built-in
    exceptions that escape the lenient mode. */
module Base {

  datatype Option<+T> = None | Some(value: T)

  /** Which structural constraint of a rule entry is violated. */
  datatype Violation =
    | MissingAction
    | ServiceWithProto
    | IcmpTypeWithProto
    | ForwardWithoutDestIfaddr
    | ForwardWithoutDestService
    | ForwardWithoutForwardTo
    | AbsolutePortWithSeveralSpans
    | ForwardHostNotUnique(found: nat)

  datatype Error =
    // policy errors
    | MalformedService(token: string)
    | UnknownService(name: string)
    | ProtocolOmitted(token: string)
    | AmbiguousService(name: string)
    | UnknownInterface(name: string)
    | IncompatibleOptions(violation: Violation)
    | UnknownType(what: string)
    | InvalidTimeWindow(part: string, text: string)  // declared, but the parser's check cannot fire
    // Python built-in exceptions
    | KeyMissing(key: string)            // KeyError
    | InvalidValue(what: string)         // ValueError
    | NotImplemented(what: string)       // NotImplementedError
    | NoneHasNoAttribute                 // AttributeError on a failed regex match
    | WrongKind(what: string)            // a document value of the wrong JSON kind
    | AssertionFailed                    // assert statement
    | IndexOutOfRange                    // IndexError
    | NotAscii(text: string)             // UnicodeEncodeError
    | UnboundLocal(name: string)         // UnboundLocalError

  /** The errors that the lenient mode of the compiler logs and skips. */
  predicate IsPolicyError(e: Error) {
    e.MalformedService? || e.UnknownService? || e.ProtocolOmitted? || e.AmbiguousService?
    || e.UnknownInterface? || e.IncompatibleOptions? || e.UnknownType? || e.InvalidTimeWindow?
  }

  datatype Result<+T> = Ok(value: T) | Err(error: Error) {
    predicate IsFailure() { Err? }
    function PropagateFailure<U>(): Result<U>
      requires Err?
    {
      Err(error)
    }
    function Extract(): T
      requires Ok?
    {
      value
    }
  }

  datatype Outcome = Pass | Fail(error: Error) {
    predicate IsFailure() { Fail? }
    function PropagateFailure(): Outcome
      requires Fail?
    {
      this
    }
  }

  /** A list comprehension whose element conversion may raise: every
      element converted in order, or the error of the first that fails. */
  function MapAll<T>(xs: seq<string>, f: string -> Result<T>): (r: Result<seq<T>>)
    ensures r.Ok? <==> forall k :: 0 <= k < |xs| ==> f(xs[k]).Ok?
    ensures r.Ok? ==> |r.value| == |xs| && forall k :: 0 <= k < |xs| ==> r.value[k] == f(xs[k]).value
    ensures r.Err? ==> exists k :: 0 <= k < |xs| && f(xs[k]) == Err(r.error) && forall j :: 0 <= j < k ==> f(xs[j]).Ok?
  {
    if xs == [] then Ok([])
    else
      match f(xs[0])
      case Err(e) => Err(e)
      case Ok(v) =>
        var rest := MapAll(xs[1..], f);
        assert forall k :: 1 <= k < |xs| ==> xs[1..][k - 1] == xs[k];
        match rest
        case Err(e) =>
          assert exists k :: 1 <= k < |xs| && f(xs[k]) == Err(e) && forall j :: 1 <= j < k ==> f(xs[j]).Ok?;
          Err(e)
        case Ok(vs) => Ok([v] + vs)
  }

  /** The conversion fails on the first element whose conversion fails. */
  lemma MapAllFirstError<T>(xs: seq<string>, f: string -> Result<T>, i: nat)
    requires i < |xs| && f(xs[i]).Err?
    requires forall k :: 0 <= k < i ==> f(xs[k]).Ok?
    ensures MapAll(xs, f) == Err(f(xs[i]).error)
  {
    var r := MapAll(xs, f);
    assert r.Err?;
    var k :| 0 <= k < |xs| && f(xs[k]) == Err(r.error) && forall j :: 0 <= j < k ==> f(xs[j]).Ok?;
    assert k == i;
  }

  /** The conversion succeeds with the given values when each element
      converts to its value. */
  lemma MapAllValues<T>(xs: seq<string>, f: string -> Result<T>, vs: seq<T>)
    requires |vs| == |xs|
    requires forall k :: 0 <= k < |xs| ==> f(xs[k]) == Ok(vs[k])
    ensures MapAll(xs, f) == Ok(vs)
  {
    var r := MapAll(xs, f);
    assert r.Ok?;
    assert r.value == vs;
  }

  /** One more element that converts extends the converted prefix. */
  lemma MapAllSnoc<T>(xs: seq<string>, f: string -> Result<T>, i: nat)
    requires i < |xs| && MapAll(xs[..i], f).Ok? && f(xs[i]).Ok?
    ensures MapAll(xs[..i + 1], f) == Ok(MapAll(xs[..i], f).value + [f(xs[i]).value])
  {
    var vs := MapAll(xs[..i], f).value + [f(xs[i]).value];
    forall k | 0 <= k < i + 1
      ensures f(xs[..i + 1][k]) == Ok(vs[k])
    {
      if k < i {
        assert xs[..i + 1][k] == xs[..i][k];
      }
    }
    MapAllValues(xs[..i + 1], f, vs);
  }

  /** After a converted prefix, the first element that fails is the error. */
  lemma MapAllStops<T>(xs: seq<string>, f: string -> Result<T>, i: nat)
    requires i < |xs| && MapAll(xs[..i], f).Ok? && f(xs[i]).Err?
    ensures MapAll(xs, f) == Err(f(xs[i]).error)
  {
    forall k | 0 <= k < i
      ensures f(xs[k]).Ok?
    {
      assert xs[..i][k] == xs[k];
    }
    MapAllFirstError(xs, f, i);
  }
}
