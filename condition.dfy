/** Rule conditions: the `cond` entry of a rule. Its only condition kind is
    a time window, looked up under the key "timewindow"; the rule applies
    when every stored condition holds at the compilation instant. */
module Conditions {
  import opened Base
  import opened Json
  import TimeWindows

  /** The key of the time-window condition. */
  const Key := "timewindow"

  /** The stored conditions, each a parsed time window. */
  datatype Condition = Condition(windows: seq<TimeWindows.TimeWindow>)

  /** The conditions of a "timewindow" text: the one parsed window. */
  function WindowCondition(text: string): (r: Result<Condition>)
    ensures r.Ok? <==> TimeWindows.ParseWindow(text).Ok?
    ensures r.Ok? ==> r.value.windows == [TimeWindows.ParseWindow(text).value]
    ensures r.Err? ==> r.error == TimeWindows.ParseWindow(text).error
  {
    match TimeWindows.ParseWindow(text)
    case Err(e) => Err(e)
    case Ok(w) => Ok(Condition([w]))
  }

  /** Condition(value): `"timewindow" in value`, then `value["timewindow"]`
      handed to the time-window parser. A dict without the key has no
      conditions. On a str the test is a substring test and on a list a
      membership test; indexing either by a str fails, and any other kind
      of value cannot be searched at all. */
  function FromValue(v: Value): (r: Result<Condition>)
    ensures r.Ok? ==> |r.value.windows| <= 1
    ensures r.Ok? && r.value.windows != [] ==>
      v.Obj? && Lookup(v.fields, Key).Some? && Lookup(v.fields, Key).value.Str?
    ensures v.Obj? && !HasKey(v.fields, Key) ==> r == Ok(Condition([]))
    ensures v.Obj? && HasKey(v.fields, Key) && Lookup(v.fields, Key).value.Str? ==>
      r == WindowCondition(Lookup(v.fields, Key).value.s)
  {
    match v
    case Obj(fields) =>
      (match Lookup(fields, Key)
       case None => Ok(Condition([]))
       case Some(Str(text)) => WindowCondition(text)
       case Some(_) => Err(WrongKind(Key)))
    case Str(_) => if Contains(v, Key) then Err(WrongKind("cond")) else Ok(Condition([]))
    case List(_) => if Contains(v, Key) then Err(WrongKind("cond")) else Ok(Condition([]))
    case _ => Err(WrongKind("cond"))
  }

  /** satisfied: the conjunction of the stored conditions at `now`. */
  predicate Satisfied(c: Condition, now: TimeWindows.DateTime): (b: bool)
    ensures b <==> forall w :: w in c.windows ==> TimeWindows.Satisfied(w, now)
    ensures c.windows == [] ==> b
  {
    forall k :: 0 <= k < |c.windows| ==> TimeWindows.Satisfied(c.windows[k], now)
  }

  /** A condition dict without "timewindow" holds at every instant. */
  lemma NoTimewindowAlwaysHolds(fields: seq<(string, Value)>, now: TimeWindows.DateTime)
    requires !HasKey(fields, Key)
    ensures FromValue(Obj(fields)).Ok? && Satisfied(FromValue(Obj(fields)).value, now)
  {
  }

  /** A dict whose "timewindow" entry is a str stands for that text's window. */
  lemma DictWindow(fields: seq<(string, Value)>, text: string)
    requires Lookup(fields, Key) == Some(Str(text))
    ensures FromValue(Obj(fields)) == WindowCondition(text)
  {
    assert HasKey(fields, Key);
  }

  lemma SingleWindow(w: TimeWindows.TimeWindow, now: TimeWindows.DateTime)
    ensures Satisfied(Condition([w]), now) <==> TimeWindows.Satisfied(w, now)
  {
    assert Condition([w]).windows[0] == w;
  }

  /** With a "timewindow" text that parses, the condition holds exactly
      when the parsed window holds at `now`. */
  lemma TimewindowDecides(fields: seq<(string, Value)>, text: string, now: TimeWindows.DateTime)
    requires Lookup(fields, Key) == Some(Str(text))
    requires TimeWindows.ParseWindow(text).Ok?
    ensures FromValue(Obj(fields)).Ok?
    ensures Satisfied(FromValue(Obj(fields)).value, now) <==> TimeWindows.Satisfied(TimeWindows.ParseWindow(text).value, now)
  {
    DictWindow(fields, text);
    SingleWindow(TimeWindows.ParseWindow(text).value, now);
  }

  /** A "timewindow" text that does not parse makes the condition fail with
      the parser's error, which is not a policy error. */
  lemma BadTimewindowEscapes(fields: seq<(string, Value)>, text: string)
    requires Lookup(fields, Key) == Some(Str(text))
    requires TimeWindows.ParseWindow(text).Err?
    ensures FromValue(Obj(fields)).Err? && !IsPolicyError(FromValue(Obj(fields)).error)
  {
    DictWindow(fields, text);
    TimeWindows.ParseFailureEscapes(text);
  }

  /** Keys other than "timewindow" are ignored. */
  lemma OtherKeysIgnored(fields: seq<(string, Value)>, key: string, v: Value)
    requires key != Key
    ensures FromValue(Obj(fields + [(key, v)])) == FromValue(Obj(fields))
  {
    LookupAppend(fields, Key, key, v);
  }
}
