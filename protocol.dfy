/** The `proto` attribute: comma-separated protocol names looked up in a
    fixed table, then sorted. */
module Protocols {
  import opened Base
  import opened Text
  import opened Sorting

  /** The protocol table: tcp, udp and icmp stand for themselves,
      ipv6-encapsulation for protocol number 41. */
  function Canonical(name: string): (r: Result<string>)
    ensures r.Ok? <==> name == "tcp" || name == "udp" || name == "icmp" || name == "ipv6-encapsulation"
    ensures r.Ok? ==> r.value == (if name == "ipv6-encapsulation" then "41" else name)
    ensures r.Err? ==> r.error == KeyMissing(name)
  {
    if name == "tcp" || name == "udp" || name == "icmp" then Ok(name)
    else if name == "ipv6-encapsulation" then Ok("41")
    else Err(KeyMissing(name))
  }

  /** Protocol(text): every token translated, the list sorted with its
      duplicates kept; the first unknown token raises KeyError. */
  function Parse(text: string): (r: Result<seq<string>>)
    ensures r.Ok? <==> forall k :: 0 <= k < |Split(text, ',')| ==> Canonical(Split(text, ',')[k]).Ok?
    ensures r.Ok? ==> SortedStr(r.value) && multiset(r.value) == multiset(MapAll(Split(text, ','), Canonical).value)
    ensures r.Err? ==> exists k :: 0 <= k < |Split(text, ',')| && r.error == KeyMissing(Split(text, ',')[k])
  {
    var m := MapAll(Split(text, ','), Canonical);
    Translated(text);
    if m.Err? then Err(m.error) else Ok(SortStrings(m.value))
  }

  /** The translation succeeds exactly when every token is known, and a
      failure names one of the tokens. */
  lemma Translated(text: string)
    ensures MapAll(Split(text, ','), Canonical).Ok? <==> forall k :: 0 <= k < |Split(text, ',')| ==> Canonical(Split(text, ',')[k]).Ok?
    ensures MapAll(Split(text, ','), Canonical).Err? ==> exists k :: 0 <= k < |Split(text, ',')| && MapAll(Split(text, ','), Canonical).error == KeyMissing(Split(text, ',')[k])
  {
    var names := Split(text, ',');
    var m := MapAll(names, Canonical);
    if m.Err? {
      var k :| 0 <= k < |names| && Canonical(names[k]) == Err(m.error) && forall j :: 0 <= j < k ==> Canonical(names[j]).Ok?;
      assert m.error == KeyMissing(names[k]);
    }
  }

  /** Protocol number 41 sorts before the named protocols. */
  lemma NumberBeforeNames()
    ensures StrLt("41", "icmp") && StrLt("41", "tcp") && StrLt("41", "udp")
  {
  }
}
