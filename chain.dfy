/** Chain identifiers: `table.chain`, or a bare chain in the default
    `mangle` table, and the iptables words that address the chain. */
module Chains {
  import opened Text

  datatype Chain = Chain(table: string, chain: string)

  /** Chain.parse: split at the first dot only; no dot means the mangle table. */
  function Parse(text: string): (c: Chain)
    ensures '.' in text ==> '.' !in c.table && text == c.table + "." + c.chain
    ensures '.' !in text ==> c == Chain("mangle", text)
  {
    match SplitFirst(text, '.')
    case None => Chain("mangle", text)
    case Some(parts) => Chain(parts.0, parts.1)
  }

  /** Parsing the text of a chain whose table has no dot gives it back,
      whatever dots the chain part holds. */
  lemma ParseJoined(c: Chain)
    requires '.' !in c.table
    ensures Parse(c.table + "." + c.chain) == c
  {
    SplitFirstOf(c.table, c.chain, '.');
  }

  /** command(option): the option and the upper-cased chain, preceded by
      `-t` and the lower-cased table unless the table is exactly "mangle". */
  function Command(c: Chain, option: string): (r: seq<string>)
    ensures c.table == "mangle" <==> |r| == 2
    ensures |r| >= 2 && r[|r| - 2] == option && r[|r| - 1] == Upper(c.chain)
    ensures c.table != "mangle" ==> r[..2] == ["-t", Lower(c.table)]
  {
    if c.table == "mangle" then [option, Upper(c.chain)]
    else ["-t", Lower(c.table), option, Upper(c.chain)]
  }

  /** append(): `-A` and the upper-cased chain, preceded by `-t` and the
      lower-cased table unless the table is exactly "mangle". */
  function Append(c: Chain): (r: seq<string>)
    ensures |r| == 2 <==> c.table == "mangle"
    ensures |r| >= 2 && r[|r| - 2] == "-A" && r[|r| - 1] == Upper(c.chain)
    ensures c.table != "mangle" ==> |r| == 4 && r[0] == "-t" && r[1] == Lower(c.table)
  {
    Command(c, "-A")
  }

  /** flush(): `-F` and the upper-cased chain, preceded by `-t` and the
      lower-cased table unless the table is exactly "mangle". */
  function Flush(c: Chain): (r: seq<string>)
    ensures |r| == 2 <==> c.table == "mangle"
    ensures |r| >= 2 && r[|r| - 2] == "-F" && r[|r| - 1] == Upper(c.chain)
    ensures c.table != "mangle" ==> |r| == 4 && r[0] == "-t" && r[1] == Lower(c.table)
  {
    Command(c, "-F")
  }

  /** policy(): `-P` and the upper-cased chain, preceded by `-t` and the
      lower-cased table unless the table is exactly "mangle". */
  function Policy(c: Chain): (r: seq<string>)
    ensures |r| == 2 <==> c.table == "mangle"
    ensures |r| >= 2 && r[|r| - 2] == "-P" && r[|r| - 1] == Upper(c.chain)
    ensures c.table != "mangle" ==> |r| == 4 && r[0] == "-t" && r[1] == Lower(c.table)
  {
    Command(c, "-P")
  }

  /** str(): lower-cased table, a dot, upper-cased chain. */
  function ToString(c: Chain): (s: string)
    ensures |s| == |c.table| + 1 + |c.chain|
    ensures s[|c.table|] == '.' && s[..|c.table|] == Lower(c.table) && s[|c.table| + 1..] == Upper(c.chain)
  {
    Lower(c.table) + "." + Upper(c.chain)
  }
}
