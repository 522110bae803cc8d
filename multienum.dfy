/** Multi-valued enumerations: a comma-separated list of enumeration values,
    kept in order with duplicates, translated on iteration. The one
    enumeration the compiler uses is the ICMP type. */
module MultiEnums {
  import opened Base
  import opened Text

  datatype IcmpType = Ping | Pong | DestinationUnreachable | TimeExceeded | Traceroute

  /** The value each member is written as. */
  function ValueOf(t: IcmpType): string {
    match t
    case Ping => "ping"
    case Pong => "pong"
    case DestinationUnreachable => "dest-unreachable"
    case TimeExceeded => "time-exceeded"
    case Traceroute => "traceroute"
  }

  /** ICMPTypeEnum(value): the member with that value; ValueError otherwise. */
  function FromValue(s: string): (r: Result<IcmpType>)
    ensures r.Ok? ==> ValueOf(r.value) == s
    ensures r.Err? ==> r.error == InvalidValue(s) && forall t :: ValueOf(t) != s
  {
    if s == "ping" then Ok(Ping)
    else if s == "pong" then Ok(Pong)
    else if s == "dest-unreachable" then Ok(DestinationUnreachable)
    else if s == "time-exceeded" then Ok(TimeExceeded)
    else if s == "traceroute" then Ok(Traceroute)
    else Err(InvalidValue(s))
  }

  /** Every member is recognised from its own value. */
  lemma FromValueOf(t: IcmpType)
    ensures FromValue(ValueOf(t)) == Ok(t)
  {
  }

  /** The iteration table: the word iptables expects for each member. */
  function Translation(t: IcmpType): string {
    match t
    case Ping => "echo-request"
    case Pong => "echo-reply"
    case DestinationUnreachable => "3"
    case TimeExceeded => "11"
    case Traceroute => "30"
  }

  /** No two members share an iptables word. */
  lemma TranslationInjective(s: IcmpType, t: IcmpType)
    requires Translation(s) == Translation(t)
    ensures s == t
  {
  }

  /** ICMPType(text): one member per comma-separated token, in order and
      with duplicates; the first token that is not a value raises. */
  function Parse(text: string): (r: Result<seq<IcmpType>>)
    ensures r.Ok? <==> forall k :: 0 <= k < |Split(text, ',')| ==> FromValue(Split(text, ',')[k]).Ok?
    ensures r.Ok? ==> |r.value| == |Split(text, ',')| && forall k :: 0 <= k < |r.value| ==> ValueOf(r.value[k]) == Split(text, ',')[k]
  {
    var parts, f := Split(text, ','), FromValue;
    var r := MapAll(parts, f);
    assert forall k :: 0 <= k < |parts| ==> f(parts[k]) == FromValue(parts[k]);
    assert r.Ok? ==> forall k :: 0 <= k < |parts| ==> FromValue(parts[k]).Ok?;
    assert (forall k :: 0 <= k < |parts| ==> FromValue(parts[k]).Ok?) ==> r.Ok?;
    r
  }

  /** __iter__: the members through the translation table. */
  function Iterate(ts: seq<IcmpType>): (r: seq<string>)
    ensures |r| == |ts| && forall k :: 0 <= k < |ts| ==> r[k] == Translation(ts[k])
  {
    seq(|ts|, k requires 0 <= k < |ts| => Translation(ts[k]))
  }
}
