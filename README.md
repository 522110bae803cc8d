# pyipt firewall compiler — a Dafny model

pyipt turns a declarative firewall policy (a JSON document) into ordered argument vectors for iptables. This project models the compiler's core and proves what it promises.

**Chains.** The document lists chains. Each chain has an optional default policy and a list of rule entries.

**Initialisation.** Before any entry is compiled, one bundle is added. It flushes every chain, and sets the chain's policy when the chain names a default.

**Compiling an entry.**
1. Each field of the entry goes to its parser (protocols, services, ICMP types, conditions, criteria, port-forward targets, host names, interfaces).
2. The parsed entry passes a sanity check.
3. If the entry's time-window condition holds at the compilation instant, the entry becomes one rule.

**Rules.** A rule is an ordered list of components. Each component holds alternative command fragments. The rule's commands are the cross product of its components.

**Two modes.** The strict mode stops at the first error. The lenient mode skips an entry that raises one of the compiler's own errors. Any other error still stops it.

## Modelling choices

**Form of the model.** The model follows the form of the code.
- Stateful objects are classes whose methods carry `modifies` clauses: the port map, the rule and its component lists, the bundle and ruleset, the service's per-protocol maps, and the memoising variable resolver.
- The loops of the compiler are methods proved against specification functions: dispatch, chain, ruleset, time-window parsing, DNS label encoding, port compression, interface selection and host resolution.
- The parsers and checks are functions.

**Outside inputs.** Everything the compiler learns from outside the document is a parameter:
- the services catalog, normally read from `/etc/services`;
- the host-name resolver (`gethostbyname_ex`);
- the per-device address query (`ip addr show`);
- the compilation instant (`datetime.now()`).

**The document as json.load delivers it.** A JSON object is a sequence of fields. `json.load` keeps one value per key, so the model requires every object of the document to hold each key once (`Json.Loaded`). `ParseRuleset`, `ParseChains`, `ParseChain`, `CompileEntry`, `NewRule` and `Vars.New` carry that requirement. The lemmas about the dispatch over an entry's fields (`ParsedFieldsOk`, `LastOccurrenceWins`) also cover sequences with repeated keys, where the last occurrence is stored.

**Python's operators on any JSON value.** `x in v` is a key test on a dict, a substring test on a str and an element test on a list; on any other value it is a TypeError. Indexing a str or a list by a str is a TypeError. Iterating a str visits its characters and iterating a dict its keys (`Json.Contains`, `Json.Iterated`). These TypeErrors and AttributeErrors are the `WrongKind` error, which is not one of the compiler's own errors.

**Interfaces.** The `interfaces` table maps a device to its logical name. `interfaces-rev` is that table turned round (`Interfaces.Reversed`, `Firewalls.ConfigOf`).

**The list splitter.** The comma splitter `Tools.multisplit` is not part of this model. It is taken to be `str.split` on the delimiter: `,` by default, `+` for the protocols of a service.

**Quirks modelled as written.** These behaviours are the code's own, and the model keeps them:
- The sanity check excludes `service` together with `proto` (pyipt/Firewall.py:101). No parser stores a `service` key, so this check never fires (`ServiceProtoNeverFires`).
- A non port-forward service whose port map holds one single port beside ranges emits no fragment for that single port (pyipt/Firewall.py:191, `LoneSingleDropped`).
- `TimeWindow.parse` tests the stripped text instead of the match result (pyipt/TimeWindow.py:38). A part that does not match therefore fails with an attribute error on `None`, which is not the time-window error. The lenient mode does not absorb it (`LoneHourFails`, `ParseFailureEscapes`).
- A named service given with a specific protocol, such as `http/tcp`, is always ambiguous (pyipt/Service.py:62-66, `NamedWithProtocolIsAmbiguous`).
- The time-window grammar has no weekday component. The code's pattern is followed: ranges of `[!]H[:MM[:SS]]-H[:MM[:SS]]`, separated by commas.

## Model

| member | source | states |
|---|---|---|
| Protocols.Canonical | pyipt/Protocol.py:25-30 | exactly tcp, udp, icmp and ipv6-encapsulation are known; the last means "41", the others themselves; any other name is a KeyError naming it |
| Protocols.Parse | pyipt/Protocol.py:32-37 | succeeds iff every comma token is known; the result is sorted and is a permutation of the translated tokens (duplicates kept); a failure names one of the tokens |
| Protocols.Translated | pyipt/Protocol.py:33 | the translation comprehension succeeds iff every token is known, and its error names a token |
| Protocols.NumberBeforeNames | pyipt/Protocol.py:34 | "41" sorts before icmp, tcp and udp |
| MultiEnums.FromValue | pyipt/MultiEnum.py:40-46 | a member is recognised exactly from its value; any other text is a ValueError and is the value of no member |
| MultiEnums.FromValueOf | pyipt/MultiEnum.py:40-45 | every member is parsed back from its own value |
| MultiEnums.TranslationInjective | pyipt/MultiEnum.py:48-54 | no two ICMP types share an iptables word |
| MultiEnums.Parse | pyipt/MultiEnum.py:29-30 | succeeds iff every comma token is a value; then one member per token in order, duplicates kept |
| MultiEnums.Iterate | pyipt/MultiEnum.py:32-37 | iteration yields each member's translation, position by position |
| Chains.Parse | pyipt/Chain.py:35-41 | with a dot, the table is the dot-free head before the first dot and the chain is the rest; without a dot the table is mangle |
| Chains.ParseJoined | pyipt/Chain.py:35-39 | `table.chain` with a dot-free table parses back to that chain, whatever dots the chain part holds |
| Chains.Command | pyipt/Chain.py:43-47 | two words iff the table is exactly "mangle"; the last two are the option and the upper-cased chain; otherwise `-t` and the lower-cased table come first |
| Chains.Append | pyipt/Chain.py:49-50 | two words iff the table is exactly "mangle"; the last two are `-A` and the upper-cased chain; otherwise `-t` and the lower-cased table come first |
| Chains.Flush | pyipt/Chain.py:52-53 | the same word positions with `-F` |
| Chains.Policy | pyipt/Chain.py:55-56 | the same word positions with `-P` (the policy word itself follows, added by the caller) |
| Chains.ToString | pyipt/Chain.py:58-59 | lower-cased table, a dot, upper-cased chain, in those positions |
| PortMaps.Walk | pyipt/PortMap.py:58-68 | the freezing walk has an open span iff some port was seen, and that span ends at the last port |
| PortMaps.WalkKeepsInvariant | pyipt/PortMap.py:58-69 | over strictly increasing ports the walk yields separated spans (increasing, with gaps) whose ports are exactly the list's |
| PortMaps.SinglesRangesCoverSpans | pyipt/PortMap.py:50-56 | a port is listed as single or lies in a listed range iff it lies in some span |
| PortMaps.RangesProperAndOrdered | pyipt/PortMap.py:53-56 | every listed range has start < end, and the ranges increase with a gap between them |
| PortMaps.SinglesApart | pyipt/PortMap.py:53-56 | consecutive singles are at least two apart, and none is inside or adjacent to a range |
| PortMaps.SpanCountIsSpans | pyipt/PortMap.py:32-34 | singles plus ranges count every span once |
| PortMaps.FrozenPartition | pyipt/PortMap.py:44-69 | for any port set, singles and expanded ranges are exactly the ports, ranges are proper and ordered, consecutive singles are at least two apart, and none touches a range |
| PortMaps.FrozenSpanCount | pyipt/PortMap.py:32-34 | span_count is the number of maximal runs of the ports |
| PortMaps.Compress | pyipt/PortMap.py:58-69 | the loop with running start/end produces the singles and ranges of the spans of the sorted ports |
| PortMaps.PortMap.constructor | pyipt/PortMap.py:23-26 | a new map is open and empty |
| PortMaps.PortMap.Add | pyipt/PortMap.py:36-38 | on a frozen map the assertion fails and nothing changes; otherwise the port joins the set (a duplicate changes nothing) and the map stays open |
| PortMaps.PortMap.AddRange | pyipt/PortMap.py:40-42 | adds exactly lo..hi inclusive, nothing when lo > hi; on a frozen map a non-empty range fails the assertion |
| PortMaps.PortMap.Finalize | pyipt/PortMap.py:44-48 | freezes keeping the ports; a second call changes nothing |
| PortMaps.PortMap.Single | pyipt/PortMap.py:76-79 | freezes and returns the isolated ports of the frozen partition |
| PortMaps.PortMap.Ranges | pyipt/PortMap.py:71-74 | freezes and returns the maximal ranges of the frozen partition |
| PortMaps.PortMap.SpanCount | pyipt/PortMap.py:32-34 | number of singles plus number of ranges |
| PortMaps.PortMap.PortCount | pyipt/PortMap.py:28-30 | on a frozen map, the length of the sorted port list, which is the number of distinct ports |
| PortMaps.PortMap.GetItem | pyipt/PortMap.py:81-83 | the smallest port whatever the index; IndexError on an empty map |
| TimeWindows.ParseClock | pyipt/TimeWindow.py:27 | a parsed endpoint is well formed and re-renders to the consumed text |
| TimeWindows.ParseBody | pyipt/TimeWindow.py:27 | a parsed body has whitespace-only gaps and well-formed endpoints, and renders back to the input |
| TimeWindows.ParseRange | pyipt/TimeWindow.py:37 | a full match is a well-formed range whose rendering is the input |
| TimeWindows.ParseRender | pyipt/TimeWindow.py:27 | every rendering of a well-formed range is matched back into that range (with ParseRange: the parser accepts exactly the pattern's language over ASCII digits and whitespace) |
| TimeWindows.NegationSwaps | pyipt/TimeWindow.py:41-45 | toggling `!` on a range swaps its (from, to) pair and nothing else; without `!` the pair is the two clocks' seconds of the day |
| TimeWindows.ParsePart | pyipt/TimeWindow.py:36-45 | a part fails iff its stripped text does not match, and then with the attribute error on None, not the time-window error |
| TimeWindows.Collect | pyipt/TimeWindow.py:35-45 | collecting keeps one value per part, and an error is one of the parts' errors |
| TimeWindows.CollectOk | pyipt/TimeWindow.py:35-45 | collecting succeeds iff every part succeeds |
| TimeWindows.CollectInOrder | pyipt/TimeWindow.py:45 | the k-th collected value is the k-th part's value |
| TimeWindows.CollectFailAfter | pyipt/TimeWindow.py:37-39 | once a prefix fails, the whole fails with the same error |
| TimeWindows.ParseParts | pyipt/TimeWindow.py:35-46 | on success one range per comma part; every failure is the attribute error |
| TimeWindows.ParseWindow | pyipt/TimeWindow.py:32-46 | parsing succeeds iff every comma part matches; then one range per part in textual order, each the bounds of its part; every failure is the attribute error |
| TimeWindows.Parse | pyipt/TimeWindow.py:32-46 | the parsing loop returns exactly ParseWindow: the ranges of the parts in order, or the first failure |
| TimeWindows.ParsePartsOk | pyipt/TimeWindow.py:35-45 | a window parses iff every comma part matches |
| TimeWindows.ParsePartsInOrder | pyipt/TimeWindow.py:45 | the k-th range is the bounds of the k-th part: textual order is kept |
| TimeWindows.ParseFailureEscapes | pyipt/TimeWindow.py:38-40 | a failed parse is not a policy error |
| TimeWindows.LoneHourFails | pyipt/TimeWindow.py:37-40 | "8" fails with the attribute error rather than the time-window error |
| TimeWindows.SecondSatisfied | pyipt/TimeWindow.py:48-58 | the early-exit loop returns true iff some range holds: inclusive when from <= to, outside [to, from] otherwise |
| TimeWindows.WindowHolds | pyipt/TimeWindow.py:48-58 | a window holds iff one of its ranges holds; a window without ranges never holds |
| TimeWindows.InvertedRange | pyipt/TimeWindow.py:55-57 | a swapped pair holds iff sec < to-bound or sec > from-bound |
| TimeWindows.NegationComplements | pyipt/TimeWindow.py:43-57 | with distinct endpoints, `!a-b` holds exactly where `a-b` does not |
| TimeWindows.EqualBoundsIgnoreNegation | pyipt/TimeWindow.py:43-53 | with equal endpoints, `!` changes nothing: only that second holds |
| TimeWindows.EmptyWindowNeverHolds | pyipt/TimeWindow.py:48-58 | a window with no ranges never holds |
| TimeWindows.SecondOfDay | pyipt/TimeWindow.py:60-61 | the second of a valid time of day lies in 0..86399 |
| TimeWindows.Satisfied | pyipt/TimeWindow.py:60-62 | the window judged at the instant's second of the day: never for no ranges, always at a valid instant for the whole-day range 0-86399 |
| TimeWindows.SatisfiedIgnoresDate | pyipt/TimeWindow.py:60-62 | two instants with the same hour, minute and second are judged alike |
| Conditions.WindowCondition | pyipt/Condition.py:27-29 | the condition of a timewindow text is its parsed window, or the parser's error |
| Conditions.FromValue | pyipt/Condition.py:25-29 | at most one stored condition, and a stored one is the parsed timewindow of a dict |
| Conditions.NoTimewindowAlwaysHolds | pyipt/Condition.py:26-35 | a dict without "timewindow" yields no condition and holds at every instant |
| Conditions.DictWindow | pyipt/Condition.py:27-28 | a dict whose "timewindow" is a str stands for that text's window |
| Conditions.SingleWindow | pyipt/Condition.py:31-35 | the conjunction over one window is that window |
| Conditions.TimewindowDecides | pyipt/Condition.py:27-35 | with a parsing timewindow, the condition holds iff the window holds at now |
| Conditions.BadTimewindowEscapes | pyipt/Condition.py:28 | a timewindow that does not parse fails the condition with an error the lenient mode does not absorb |
| Conditions.OtherKeysIgnored | pyipt/Condition.py:27 | fields other than "timewindow" do not affect the condition |
| Conditions.Satisfied | pyipt/Condition.py:31-35 | holds iff every stored window holds at the instant; no stored window always holds |
| Rules.Extend | pyipt/Rules.py:62-66 | extending by a component multiplies the number of commands by its size |
| Rules.ExtendAt | pyipt/Rules.py:62-66 | position q*m+j of the extension is command q followed by alternative j |
| Rules.ExtendOnto | pyipt/Rules.py:62-66 | every position of the extension is such a pair |
| Rules.Product | pyipt/Rules.py:61-66 | the number of commands is the product of the component sizes |
| Rules.SizeZero | pyipt/Rules.py:61-66 | the product is zero iff some component is empty (one empty command for no components) |
| Rules.ProductAtRank | pyipt/Rules.py:62-66 | every choice of one alternative per component is a command: the concatenation at its mixed-radix rank |
| Rules.ProductOnto | pyipt/Rules.py:62-66 | every command is the concatenation of some choice |
| Rules.RankOrder | pyipt/Rules.py:62 | commands follow the lexicographic order of their choices |
| Rules.FixedAxes | pyipt/Rules.py:48-51 | one unnamed component per part, each holding exactly that part |
| Rules.Group.constructor | pyipt/Rules.py:55-58 | a component list starting with the given members |
| Rules.Group.Append | pyipt/Rules.py:58 | appending adds one alternative at the end |
| Rules.AxesOf | pyipt/Rules.py:38-39 | the components are the names paired with the current contents of their lists |
| Rules.Rule.constructor | pyipt/Rules.py:37-39 | a new rule has no components |
| Rules.Rule.Push | pyipt/Rules.py:53-59 | one more component on a fresh list, recorded after the others |
| Rules.Rule.AddFixed | pyipt/Rules.py:48-51 | appends one unnamed single-alternative component per part |
| Rules.Rule.AddGroup | pyipt/Rules.py:53-59 | appends one named component holding the members and returns its own list |
| Rules.Rule.AppendLast | pyipt/Rules.py:53-59 | appending to the returned list extends the rule's last component, and nothing else |
| Rules.Rule.HasEmptyGroup | pyipt/Rules.py:41-46 | true iff some component has no alternative |
| Rules.Rule.GenerateCommands | pyipt/Rules.py:61-66 | the commands are the cross product of the components in insertion order |
| Rules.EmptyGroupMeansNoCommands | pyipt/Rules.py:41-66 | a rule yields no command iff it has an empty component |
| Rules.Rules.constructor | pyipt/Rules.py:81-83 | a named bundle with no rules |
| Rules.Rules.New | pyipt/Rules.py:89-92 | a fresh empty rule appended at the end |
| Rules.Rules.Snapshot | pyipt/Rules.py:94-95 | the bundle's rules in insertion order, under its name |
| Rules.AxesOfRules | pyipt/Rules.py:94-95 | the components of each rule, in order |
| Rules.Ruleset.constructor | pyipt/Rules.py:103-106 | no bundles and no datapoints |
| Rules.Ruleset.AddRules | pyipt/Rules.py:119-120 | appends the bundle; datapoints unchanged |
| Rules.Ruleset.AddDatapoint | pyipt/Rules.py:112-113 | appends the datapoint; bundles unchanged |
| Criteria.KindOf | pyipt/Criterion.py:25-32 | "state" and "dns-block" are the two types; anything else is a ValueError |
| Criteria.FromValue | pyipt/Criterion.py:30-32 | a criterion is a dict with a known "type"; a missing key or another kind of value fails |
| Criteria.AsciiBytes | pyipt/Criterion.py:47 | the ASCII encoding keeps the length and each character's code |
| Criteria.LabelBytes | pyipt/Criterion.py:47-49 | a label is its length byte then its ASCII bytes; non-ASCII or longer than 255 raises |
| Criteria.EncodeName | pyipt/Criterion.py:44-49 | the byte-array loop produces exactly the wire form of the name, or the first label's error |
| Criteria.LabelStep | pyipt/Criterion.py:46-49 | one more encodable label extends both the encoded labels and the bytes |
| Criteria.DecodeFlatten | pyipt/Criterion.py:46-49 | length-prefixed labels decode back to the labels and are one byte longer than their dotted join |
| Criteria.WireNameDecodes | pyipt/Criterion.py:44-49 | the wire form decodes back to the labels, and joining them with dots gives the name |
| Criteria.WireNameLength | pyipt/Criterion.py:46-49 | the wire form is one byte longer than the host name |
| Criteria.StringMatch | pyipt/Criterion.py:50 | the seven-word string match with the bytes' hex between bars |
| Criteria.DnsFragment | pyipt/Criterion.py:44-50 | one host name's fragment exists iff it encodes, and is the string match of its wire form |
| Criteria.Apply | pyipt/Criterion.py:34-52 | apply appends exactly the criterion's components, or fails with their error |
| Criteria.ApplyState | pyipt/Criterion.py:35-39 | the state branch appends the state match or raises |
| Criteria.ApplyDns | pyipt/Criterion.py:40-50 | the dns-block branch reads "dns-name" and appends the blocking group |
| Criteria.BlockNames | pyipt/Criterion.py:42-50 | one group named "layer7 DNS blocking" holding each host's fragment in input order; the first host that fails to encode is the error |
| Criteria.AddBlockedNames | pyipt/Criterion.py:43-50 | the loop appends every host's fragment to the group, or stops at the first failure |
| Criteria.GrowLast | pyipt/Criterion.py:50 | appending to the group extends the rule's last component only |
| Criteria.StateAddsOneFixed | pyipt/Criterion.py:36-37 | "established/related" adds one fixed `--match state --state ESTABLISHED,RELATED` |
| Criteria.DnsAddsOneGroup | pyipt/Criterion.py:41-50 | a dns-block adds one group, with one alternative per comma-split name in order |
| Criteria.WireExample | pyipt/Criterion.py:44-49 | "a.bc" goes on the wire as 01 61 02 62 63 |
| Criteria.FragmentExample | pyipt/Criterion.py:50 | the fragment of "a.bc" searches for `\|0161026263\|` with the bm algorithm, ignoring case |
| Services.Alias | pyipt/Service.py:31-34 | dhcps becomes bootps, dns becomes domain, other names are kept |
| Services.MatchToken | pyipt/Service.py:30 | a matched token is well formed and renders back to the text |
| Services.MatchRender | pyipt/Service.py:30 | every well-formed token's rendering matches back into it |
| Services.Yields | pyipt/Service.py:46-49 | a token that does not match is MalformedService |
| Services.UnknownName | pyipt/Service.py:55-58 | a name missing from the catalog, after aliasing, is UnknownService |
| Services.NamedEveryProtocol | pyipt/Service.py:62-64 | `name/*` yields one single-port span per catalog protocol |
| Services.NamedBare | pyipt/Service.py:62-66 | a bare name yields its catalog entry iff that has one protocol; otherwise it is AmbiguousService |
| Services.NamedWithProtocolIsAmbiguous | pyipt/Service.py:62-66 | a name with a specific protocol is always AmbiguousService |
| Services.AliasesAgree | pyipt/Service.py:55-56 | two names with the same alias yield the same spans |
| Services.PortNeedsProtocol | pyipt/Service.py:68-69 | a port without `/proto` is ProtocolOmitted |
| Services.PortSpans | pyipt/Service.py:70-77 | `a[-b]/p1+p2..` yields (a, b-or-a, p) for each `+`-separated protocol in order |
| Services.ReversedRange | pyipt/Service.py:70-77 | a reversed range such as `9-5/tcp` still yields one span per protocol, each with its start above its end |
| Services.RangeSet | pyipt/PortMap.py:40-42 | the ports add_range adds: exactly lo..hi |
| Services.AddAllMembers | pyipt/Service.py:41-44 | a protocol gets a map iff some span names it; its ports are exactly the union of its spans' ranges |
| Services.ReversedSpansAddNothing | pyipt/Service.py:41-44 | reversed spans create empty maps for their protocols and change no other map |
| Services.Least | pyipt/PortMap.py:81-83 | the smallest port of a non-empty set |
| Services.Views | pyipt/Service.py:97-98 | one view per protocol |
| Services.Service.constructor | pyipt/Service.py:40-41 | an open service with no port maps |
| Services.Service.MapOf | pyipt/Service.py:41 | the defaultdict lookup: the protocol's map, created empty when missing |
| Services.Service.AddRange | pyipt/Service.py:44 | a span adds its range to its protocol's map |
| Services.Service.AddSpans | pyipt/Service.py:43-44 | the spans of one token added in order |
| Services.New | pyipt/Service.py:37-44 | the service holds exactly the accumulated port sets per protocol, or the first token's error |
| Services.AccumulatedNext | pyipt/Service.py:42-44 | one more token's spans extend the accumulated maps |
| Services.AccumulatedFails | pyipt/Service.py:42-49 | the first token that raises is the error of the whole |
| Services.AccumulatedStops | pyipt/Service.py:42-44 | once a prefix fails, so does every longer one |
| Services.View | pyipt/Service.py:97-98 | iteration freezes each map and yields the (protocol, map) views sorted by protocol |
| Services.ViewsNext | pyipt/Service.py:97-98 | one more protocol in sorted order extends the views |
| Services.ReadEntry | pyipt/Service.py:97-98 | reading one protocol's map gives its view and keeps its ports |
| Services.ReadMap | pyipt/Service.py:97-98 | a map's view: port count, singles, ranges and smallest port of its frozen partition |
| Hostnames.EntryAddresses | pyipt/Hostname.py:30-33 | a scalar hosts entry is a singleton; a list entry is the set of its members |
| Hostnames.ResolvedMembers | pyipt/Hostname.py:35-38 | an address is resolved iff one of the names resolves to a set holding it |
| Hostnames.Unresolved | pyipt/Hostname.py:39-40 | exactly the names whose resolution fails, each only warning |
| Hostnames.Resolve | pyipt/Hostname.py:27-41 | the alias's addresses or the union over the names, sorted; the warnings are the failed names |
| Hostnames.GetItem | pyipt/Hostname.py:43-44 | Python indexing into the sorted addresses, negative from the end; IndexError outside |
| Hostnames.ResolvedListExact | pyipt/Hostname.py:34-41 | the sorted list holds exactly the resolved addresses |
| Hostnames.AliasIgnoresResolver | pyipt/Hostname.py:29-33 | the alias branch does not consult the resolver |
| Hostnames.LenCountsDistinct | pyipt/Hostname.py:41-47 | len() is the number of distinct addresses |
| Hostnames.Len | pyipt/Hostname.py:46-47 | on a sorted address list, len() is the number of distinct addresses |
| Hostnames.Iterate | pyipt/Hostname.py:43-50 | iteration yields len() addresses, each the one indexing gives at its position from the front and from the end |
| Interfaces.Reversed | pyipt/Firewall.py:270 | the reversed table's keys are exactly the logical names |
| Interfaces.ReversedLast | pyipt/Firewall.py:270 | a logical name maps to the device of its last entry |
| Interfaces.ReversedInverts | pyipt/Firewall.py:270 | with distinct logical names every entry is found again under its name |
| Interfaces.Excluding | pyipt/Interface.py:44-46 | `!name` adds exactly the devices whose logical name differs |
| Interfaces.AddExcluding | pyipt/Interface.py:41-50 | the loop adds those devices and notes whether the name was seen |
| Interfaces.Select | pyipt/Interface.py:32-38 | the selected devices sorted, or the first unknown name; the warnings are the exclusions that matched nothing |
| Interfaces.UnknownStops | pyipt/Interface.py:53-54 | once a part fails, every longer list fails with that error |
| Interfaces.PlainName | pyipt/Interface.py:51-55 | a plain name selects its device, or is UnknownInterface |
| Interfaces.ExclusionsUnion | pyipt/Interface.py:41-50 | `!a,!b` with a != b unions the exclusions and selects every device |
| Interfaces.WordRoundTrip | pyipt/Interface.py:87-90 | from_bytes and to_bytes are inverse |
| Interfaces.FullPrefixKeepsAddress | pyipt/Interface.py:88-89 | a /32 network is the address |
| Interfaces.EmptyPrefixIsZero | pyipt/Interface.py:88-89 | a /0 network is 0.0.0.0 |
| Interfaces.NetworkKeepsPrefix | pyipt/Interface.py:88-89 | the network agrees with the address on the mask's bits |
| Interfaces.NetworkClearsHost | pyipt/Interface.py:88-89 | the network is zero outside the mask |
| Interfaces.NetworkIdempotent | pyipt/Interface.py:88-89 | taking the network twice changes nothing |
| Interfaces.NetworkExample | pyipt/Interface.py:87-91 | 10.1.2.3/24 lies in 10.1.2.0 |
| Interfaces.InetEntries | pyipt/Interface.py:76-79 | only entries tagged inet are kept |
| Interfaces.EntryNetworks | pyipt/Interface.py:86-91 | one `network/cidr` text per entry; a prefix above 32 raises |
| Interfaces.EntryAddresses | pyipt/Interface.py:96-97 | one address text per entry |
| Interfaces.Addresses | pyipt/Interface.py:93-97 | Ok iff the query succeeds for every device; a failure names a device the query failed for |
| Interfaces.AddressesInDeviceOrder | pyipt/Interface.py:94-97 | addresses come device by device in order |
| Interfaces.Networks | pyipt/Interface.py:83-91 | succeeds iff every device's query succeeds and every inet prefix is at most 32 |
| Interfaces.NetworksOf | pyipt/Interface.py:84-91 | one device's networks exist exactly when its address query succeeds and every inet prefix is at most 32 |
| Interfaces.NetworksInDeviceOrder | pyipt/Interface.py:84-91 | the networks of the first device, then those of the others |
| Interfaces.Names | pyipt/Interface.py:99-101 | the selected devices themselves; on a sorted selection, sorted with each device once |
| RegexMatches.MatchPort | pyipt/RegexMatches.py:44 | a matched port is an optional sign then digits, rendering back to the text |
| RegexMatches.MatchTarget | pyipt/RegexMatches.py:44 | a full match is well formed and renders back to the text |
| RegexMatches.MatchRender | pyipt/RegexMatches.py:44 | every well-formed target matches back with the same captures |
| RegexMatches.ParseTarget | pyipt/RegexMatches.py:29-38 | fails with UnknownTypeError iff the text does not match; the port is present iff captured and relative is its sign |
| RegexMatches.PortValue | pyipt/RegexMatches.py:45-47 | int() of the port includes its sign |
| RegexMatches.ParseRendered | pyipt/RegexMatches.py:29-47 | a rendered target parses to its hostname, its sign and the signed port value |
| RegexMatches.RelativeExample | pyipt/RegexMatches.py:44-47 | "fw:+5" is relative with offset 5 |
| RegexMatches.NegativeExample | pyipt/RegexMatches.py:44-47 | "fw:-3" is relative with offset -3 |
| RegexMatches.DigitHostExample | pyipt/RegexMatches.py:30-32 | a hostname starting with a digit is rejected |
| Vars.NameRun | pyipt/Variables.py:25 | the longest run of name characters at the front |
| Vars.RefAt | pyipt/Variables.py:25 | a reference `${name}` found at the front has a non-empty name |
| Vars.PiecesRender | pyipt/Variables.py:38 | splitting a text into literals and references loses nothing |
| Vars.RefsWellFormed | pyipt/Variables.py:25 | every referenced name is non-empty and made of `[-a-zA-Z0-9]` |
| Vars.NoDollarNoRefs | pyipt/Variables.py:38 | a text without `$` has no references |
| Vars.ExpandAt | pyipt/Variables.py:32-39 | substitution keeps literals and replaces each reference by its resolved value, left to right |
| Vars.UndefinedName | pyipt/Variables.py:44 | an undefined name is a KeyError |
| Vars.PlainTextIsItself | pyipt/Variables.py:38 | a text without references substitutes to itself |
| Vars.ExpandRef | pyipt/Variables.py:33-38 | a reference followed by text expands to the reference's value followed by the text's expansion |
| Vars.RawText | pyipt/Variables.py:44-52 | a str stands for itself; a value gives a text iff it is a str or a join-list dict whose items join; any other kind leaves the text unbound |
| Vars.JoinItems | pyipt/Variables.py:50 | `",".join(items)` succeeds iff the items iterate and every element visited is a str; a str or dict always joins |
| Vars.JoinCharacters | pyipt/Variables.py:50 | a str is joined character by character |
| Vars.JoinKeys | pyipt/Variables.py:50 | a dict is joined by its keys |
| Vars.JoinCharactersExample | pyipt/Variables.py:50 | "ab" joins to "a,b" |
| Vars.JoinListResolves | pyipt/Variables.py:47-53 | a join-list resolves to its items joined with `,`, then substituted |
| Vars.OtherDictType | pyipt/Variables.py:51-52 | any other dict type is NotImplementedError |
| Vars.Variables.constructor | pyipt/Variables.py:27-29 | an empty memo over the raw definitions |
| Vars.Variables.ResolveVar | pyipt/Variables.py:41-55 | returns the fully resolved value, a join-list over a list, str or dict joined as `",".join` visits it; memoised values are never changed, and a memoised name changes nothing |
| Vars.Variables.Substitute | pyipt/Variables.py:32-39 | every reference replaced by its resolved value; the memo only grows |
| Vars.New | pyipt/Variables.py:27-59 | for a loaded document: succeeds iff every variable resolves, then all are memoised; otherwise the first failing variable's error |
| Firewalls.ParseAction | pyipt/Firewall.py:38-44 | the action is the member with the given value; anything else is a ValueError |
| Firewalls.ParseActionValue | pyipt/Firewall.py:38-44 | every action is parsed back from its value |
| Firewalls.ConfigOf | pyipt/Firewall.py:270 | interfaces-rev holds exactly the logical names |
| Firewalls.StrValue | pyipt/Firewall.py:77-78 | a splitting parser needs a str value |
| Firewalls.PlainConverted | pyipt/Firewall.py:77-83 | a value parser's result fits its key; a key in neither table is UnknownTypeError |
| Firewalls.Converted | pyipt/Firewall.py:77-83 | a parser's result fits its key; a key in neither table is UnknownTypeError |
| Firewalls.Stored | pyipt/Firewall.py:74-83 | the stored fields are well typed and use only known keys |
| Firewalls.ParsedFields | pyipt/Firewall.py:74-83 | the parsed fields are well typed and use only known keys |
| Firewalls.Dispatch | pyipt/Firewall.py:74-83 | the dispatch loop gives exactly the parsed fields, or the first parser error |
| Firewalls.StoredSkip | pyipt/Firewall.py:75-76 | a private key is skipped |
| Firewalls.StoredNext | pyipt/Firewall.py:77-82 | any other key is stored with its parser's value, replacing an earlier one |
| Firewalls.StoredFails | pyipt/Firewall.py:77-83 | the first failing parser is the entry's error |
| Firewalls.StoredSticky | pyipt/Firewall.py:74-83 | once a prefix fails, the whole dispatch fails the same way |
| Firewalls.ForwardCheck | pyipt/Firewall.py:112-116 | passing means one target address, and an absolute port only with at most one span per protocol |
| Firewalls.SanityCheck | pyipt/Firewall.py:98-116 | every failure is an incompatible-options error |
| Firewalls.ForwardRequirements | pyipt/Firewall.py:105-116 | every port-forward failure is an incompatible-options error |
| Firewalls.ParsedRule | pyipt/Firewall.py:70-85 | an accepted entry is well typed, has an action, and a port forward has its service and target |
| Firewalls.NewRule | pyipt/Firewall.py:70-85 | constructing the rule gives exactly the parsed and checked fields, or the first error |
| Firewalls.Convert | pyipt/Firewall.py:77-82 | one field through its parser |
| Firewalls.OptionAlts | pyipt/Firewall.py:146-147 | one `option value` alternative per value, in order |
| Firewalls.IcmpAlts | pyipt/Firewall.py:136-137 | one `-p icmp --icmp-type t` alternative per type, in order |
| Firewalls.PortTexts | pyipt/Firewall.py:192 | the decimal text of each single port |
| Firewalls.RangeAlts | pyipt/Firewall.py:193-194 | one multiport `lo:hi` alternative per range, in order |
| Firewalls.ViewIncoming | pyipt/Firewall.py:176-180 | the DNAT incoming ports: each single with itself, then each range with its start |
| Firewalls.DnatFragments | pyipt/Firewall.py:176-180 | one DNAT alternative per incoming port, in order |
| Firewalls.PlainViewAlts | pyipt/Firewall.py:186-194 | fails iff a one-port map has no port to index; otherwise one multiport list when there are two or more singles, plus one alternative per range; each alternative starts `-p proto` |
| Firewalls.PlainAlts | pyipt/Firewall.py:185-194 | every plain service alternative starts with `-p` |
| Firewalls.DnatAlts | pyipt/Firewall.py:158-180 | fails iff some port is forwarded and the target host has no address; otherwise one DNAT alternative per incoming port, each aimed at the host's first address |
| Firewalls.DnatShape | pyipt/Firewall.py:158-180 | every DNAT alternative is eight words: a `-p` protocol match, then `-j DNAT --to` and the target |
| Firewalls.ServiceAlts | pyipt/Firewall.py:156-194 | every alternative starts with `-p`; under a port forward each is an eight-word `-p proto --dport p -j DNAT --to target` |
| Firewalls.IfAxes | pyipt/Firewall.py:140-147 | one group named `X-if` exactly when the key is present |
| Firewalls.NetAxes | pyipt/Firewall.py:148-155 | one group named `X-net` exactly when the key is present |
| Firewalls.ServiceAxes | pyipt/Firewall.py:156-194 | one group named `X-service` exactly when the key is present |
| Firewalls.IfaddrAxes | pyipt/Firewall.py:195-202 | one group named `X-ifaddr` exactly when the key is present |
| Firewalls.HostAxes | pyipt/Firewall.py:203-210 | one group named `X-host` exactly when the key is present |
| Firewalls.SideAxes | pyipt/Firewall.py:139-210 | only the network, service and interface-address groups of a side can fail; the interface and host groups never do |
| Firewalls.RuleAxes | pyipt/Firewall.py:123-228 | a built rule starts with the chain append; only the sides and the criterion can fail |
| Firewalls.Inserted | pyipt/Firewall.py:118-230 | a rule whose condition fails adds nothing and raises nothing; an error needs an applying condition and a rule that fails to build; a bundle holds one rule and is named by the comment |
| Firewalls.RuleAxesCases | pyipt/Firewall.py:123-228 | a rule's components are the head, the sides and the rest, and the first stage that fails gives the error |
| Firewalls.SidesAxesCases | pyipt/Firewall.py:139-210 | the source side, then the destination side, and the first that fails gives the error |
| Firewalls.RestAxesCases | pyipt/Firewall.py:212-228 | the criterion's components, then the tail, or the criterion's error |
| Firewalls.InsertedCases | pyipt/Firewall.py:118-230 | nothing when the condition fails, else one bundle named by the comment, or the first error |
| Firewalls.FillGroup | pyipt/Firewall.py:130-132 | add_group then appends give one component holding the alternatives |
| Firewalls.AddComponent | pyipt/Firewall.py:139-210 | a component that built is appended; one that failed is the error |
| Firewalls.HighlevelRule.constructor | pyipt/Firewall.py:70-73 | an entry with its source, configuration and parsed fields |
| Firewalls.CommentOf | pyipt/Firewall.py:91-96 | the comment when the entry has one; otherwise the str() of the entry, its repr(): a text between `{` and `}`, with the non-printable characters up to U+00FF as `\xhh` |
| Firewalls.HighlevelRule.ServiceAlternatives | pyipt/Firewall.py:156-194 | the service group's alternatives: DNAT for a port forward's destination, port matches otherwise |
| Firewalls.HighlevelRule.ServiceComponent | pyipt/Firewall.py:156-194 | the service component of one side, or its error |
| Firewalls.HighlevelRule.AddSide | pyipt/Firewall.py:139-210 | appends the groups of one side in order, or fails with their error |
| Firewalls.HighlevelRule.AddHead | pyipt/Firewall.py:123-137 | appends the chain append, then the proto and icmp-type groups |
| Firewalls.HighlevelRule.AddTail | pyipt/Firewall.py:215-228 | appends the jump, the log prefix and the comment |
| Firewalls.HighlevelRule.AddJump | pyipt/Firewall.py:215-221 | `-j ACTION` for every action but a port forward |
| Firewalls.HighlevelRule.AddLogPrefix | pyipt/Firewall.py:223-225 | `--log-prefix msg: ` for a logging rule with a message |
| Firewalls.HighlevelRule.AddComment | pyipt/Firewall.py:227-228 | the comment match when the entry has a comment |
| Firewalls.HighlevelRule.AddSides | pyipt/Firewall.py:139-210 | appends the source side, then the destination side |
| Firewalls.HighlevelRule.AddCriterion | pyipt/Firewall.py:212-213 | appends the criterion's components, or fails with its error |
| Firewalls.HighlevelRule.AddRest | pyipt/Firewall.py:212-228 | appends the criterion and the tail |
| Firewalls.HighlevelRule.Fill | pyipt/Firewall.py:125-228 | the rule receives exactly the components of the entry in the fixed order, or the first error |
| Firewalls.HighlevelRule.Insert | pyipt/Firewall.py:118-230 | insert adds nothing when the condition fails or on error, else exactly one bundle; datapoints unchanged |
| Firewalls.HighlevelRule.Build | pyipt/Firewall.py:123-230 | one bundle of one rule, named by the comment, is added; nothing on error |
| Firewalls.Publish | pyipt/Firewall.py:230 | add_rules of a one-rule bundle appends that bundle's snapshot |
| Firewalls.RunOf | pyipt/Firewall.py:237-247 | a run ends cleanly iff every entry compiles or, in lenient mode, raises a policy error; the stopping error is never one the mode absorbs; at most one bundle per entry |
| Firewalls.RunOfNext | pyipt/Firewall.py:239-247 | one more entry: its bundle added, its policy error skipped in lenient mode, any other error stops |
| Firewalls.RunOfSticky | pyipt/Firewall.py:243-245 | once the run stops, later entries change nothing |
| Firewalls.CompileEntry | pyipt/Firewall.py:241-242 | one entry parsed and inserted; nothing added on error |
| Firewalls.ParseChain | pyipt/Firewall.py:237-247 | for loaded content, the loop adds exactly its run's bundles and ends with its run's error; `"rules" in content` is a key, substring or element test, and the entries are what iterating "rules" visits |
| Firewalls.ChainInit | pyipt/Firewall.py:252-259 | succeeds iff the content is a dict whose default is absent or a str, or a str or list not containing "default"; then one or two rules, the flush last |
| Firewalls.RunEntries | pyipt/Firewall.py:239-247 | the entries are compiled in order; the ruleset gains exactly the run's bundles and the loop ends with the run's error, a compiler error being skipped when errors are ignored |
| Firewalls.NewFixedRule | pyipt/Firewall.py:255-259 | a new rule of fixed parts appended to the bundle |
| Firewalls.InitChain | pyipt/Firewall.py:252-259 | one chain's rules appended to the initialising bundle, or its error, for every kind of content |
| Firewalls.InitializeChains | pyipt/Firewall.py:249-260 | adds exactly one bundle, "initializing all chains", with the chains' rules in order, or nothing and the first failing chain's error (a "default" that is not a str, or a content that passes the `in` test but cannot be indexed by it) |
| Firewalls.GatheredNext | pyipt/Firewall.py:252-259 | one more chain extends the gathered rules |
| Firewalls.GatheredFails | pyipt/Firewall.py:252-259 | the first chain that fails is the error |
| Firewalls.GatheredSticky | pyipt/Firewall.py:252-259 | once a chain fails, so does the whole |
| Firewalls.ChainsOfNext | pyipt/Firewall.py:264-265 | one more chain run appends its bundles and takes its error |
| Firewalls.ChainsOfSticky | pyipt/Firewall.py:264-265 | once a chain stops, later chains change nothing |
| Firewalls.ParseChains | pyipt/Firewall.py:264-265 | for loaded contents, the loop over the chains adds exactly their bundles in order, stopping at the first error |
| Firewalls.ParseRuleset | pyipt/Firewall.py:262-265 | for a document as json.load delivers it: the initialising bundle, then every chain's bundles, or the first error |
| FirewallProperties.StoredOk | pyipt/Firewall.py:74-83 | the dispatch succeeds iff every non-private field's parser succeeds |
| FirewallProperties.StoredKeys | pyipt/Firewall.py:74-82 | the stored keys are exactly the non-private keys of the entry |
| FirewallProperties.StoredLast | pyipt/Firewall.py:78 | a key's stored value is the value of its last occurrence |
| FirewallProperties.ParsedFieldsOk | pyipt/Firewall.py:74-83 | over the entry's fields in order, repeated keys included: it parses iff every non-private field's parser succeeds |
| FirewallProperties.ParsedFieldsKeys | pyipt/Firewall.py:74-82 | the parsed keys are exactly the non-private keys of the entry |
| FirewallProperties.LastOccurrenceWins | pyipt/Firewall.py:78 | a field with no later field of the same key is stored with its parser's value |
| FirewallProperties.LoadedEntryFields | pyipt/Firewall.py:74-83 | for an entry with each key once, as json.load gives it: it parses iff every non-private key's value parses, stores exactly those keys, each with its parsed value |
| FirewallProperties.StoredFirstError | pyipt/Firewall.py:74-83 | the first failing field is the entry's error |
| FirewallProperties.UnknownKeyRejected | pyipt/Firewall.py:83 | a key in neither parser table makes the entry fail with UnknownTypeError |
| FirewallProperties.ServiceProtoNeverFires | pyipt/Firewall.py:101-102 | no parsed entry holds "service", so the service/proto violation never arises |
| FirewallProperties.SanityCheckPasses | pyipt/Firewall.py:98-116 | the check passes iff: action present; no icmp-type with proto; a port forward has dest-ifaddr, dest-service and forward-to, no absolute port with a multi-span map, and exactly one target address |
| FirewallProperties.ForwardBuilds | pyipt/Firewall.py:158-180 | a checked port forward has one target address, and the DNAT alternatives use it |
| FirewallProperties.TargetTextParses | pyipt/Firewall.py:167-173 | the `--to` text is the host alone, or `host:` followed by incoming+offset when relative, the absolute port otherwise |
| FirewallProperties.DnatIncomingFrom | pyipt/Firewall.py:176-180 | every DNAT match comes from one protocol's singles or ranges |
| FirewallProperties.ViewIncomingInPorts | pyipt/Firewall.py:176-180 | every incoming port of a frozen map is one of its ports |
| FirewallProperties.DnatIncomingInService | pyipt/Firewall.py:176-180 | DNAT matches only the protocols and ports the destination service names |
| FirewallProperties.SinglePortAlternative | pyipt/Firewall.py:188-189 | a map of one port gives the one `--Xport p` match |
| FirewallProperties.RangeMeansSeveral | pyipt/Firewall.py:188-194 | a map with a range holds at least two ports |
| FirewallProperties.SingleOutsideRanges | pyipt/Firewall.py:191-194 | a single port is one of the ports and outside every range |
| FirewallProperties.LoneSingleDropped | pyipt/Firewall.py:191-194 | with one single beside ranges, only the ranges are emitted, though the single is a port of the map |
| FirewallProperties.MultiportListParses | pyipt/Firewall.py:192 | the singles' list splits at commas back into their values |
| FirewallProperties.SpanTextParses | pyipt/Firewall.py:194 | a range's text is its two ends around a colon |
| FirewallProperties.GroupNamesOptional | pyipt/Firewall.py:139-210 | an optional component names its key exactly when present |
| FirewallProperties.SideNames | pyipt/Firewall.py:139-210 | a side's groups come as if, net, service, ifaddr, host, each only when given |
| FirewallProperties.HeadNames | pyipt/Firewall.py:127-137 | the head names only the proto and icmp-type groups, in that order |
| FirewallProperties.TailNames | pyipt/Firewall.py:215-228 | the tail is fixed components only |
| FirewallProperties.RestNames | pyipt/Firewall.py:212-228 | of the criterion and tail only a dns-block group has a name |
| FirewallProperties.SidesNames | pyipt/Firewall.py:139-210 | source side's groups, then destination side's |
| FirewallProperties.ComponentOrder | pyipt/Firewall.py:123-228 | a compiled rule starts with the chain append, names its groups in the fixed order and ends with the jump, log prefix and comment |
| FirewallProperties.CleanRunsAgree | pyipt/Firewall.py:239-247 | when every entry compiles, both modes add every bundle and end cleanly |
| FirewallProperties.StrictStopsAtFirstError | pyipt/Firewall.py:243-245 | the strict run keeps the bundles before the first error and stops with it |
| FirewallProperties.LenientSkipsPolicyErrors | pyipt/Firewall.py:243-247 | without a foreign error the lenient run adds every compiled bundle and ends cleanly |
| FirewallProperties.LenientFailsOnForeignError | pyipt/Firewall.py:243-245 | the lenient run stops at the first error that is not a policy error |
| FirewallProperties.NonDictContentRuns | pyipt/Firewall.py:237-239 | a str or list chain content without "rules" compiles nothing and ends cleanly; with it, indexing the content fails |
| FirewallProperties.IteratedRules | pyipt/Firewall.py:237-239 | a str or dict under "rules" is iterated: empty, the chain compiles nothing; otherwise its first character or key is no entry and stops the run |
| FirewallProperties.ChainRunClean | pyipt/Firewall.py:237-247 | strict: clean iff every entry compiles; lenient: clean iff no entry raises a foreign error |
| FirewallProperties.GatheredOk | pyipt/Firewall.py:252-260 | initialisation succeeds iff every chain initialises |
| FirewallProperties.GatheredHolds | pyipt/Firewall.py:252-259 | every chain's rules appear in the bundle |
| FirewallProperties.InitRulesOk | pyipt/Firewall.py:249-260 | initialisation succeeds iff every chain initialises, with one or two rules per chain |
| FirewallProperties.ListContentIsFlushed | pyipt/Firewall.py:252-259 | a chain whose content is a list without "default" is flushed and gets no policy |
| FirewallProperties.FlushPerChain | pyipt/Firewall.py:258-259 | every chain is flushed |
| FirewallProperties.ChainsOfClean | pyipt/Firewall.py:264-265 | the chains' runs are clean iff each is |
| FirewallProperties.RulesetClean | pyipt/Firewall.py:262-265 | a ruleset compiles cleanly iff initialisation succeeds and every chain runs cleanly; the first bundle is the initialising one |
| Text.Split | pyipt/Protocol.py:33 | the pieces between delimiters, at least one, none containing the delimiter |
| Text.JoinSplit | pyipt/Protocol.py:33 | joining the pieces gives the text back |
| Text.SplitFirst | pyipt/Chain.py:38 | split at the first delimiter, the head free of it |
| Text.Upper | pyipt/Chain.py:45 | upper-cases each ASCII letter and keeps every other character |
| Text.HexDigitValueOf | pyipt/Criterion.py:50 | a hex digit reads back as its value |
| Text.Hex | pyipt/Criterion.py:50 | two hex digits per byte |
| Text.UnhexHex | pyipt/Criterion.py:50 | the hex text decodes back to the bytes |
| Json.Lookup | pyipt/Firewall.py:237-238 | a dict lookup finds a value iff some field has the key, and the value is that of such a field |
| Json.DistinctLookup | pyipt/Firewall.py:269 | in a dict with each key once, a lookup finds each field's own value |
| Json.Iterated | pyipt/Firewall.py:238-239 | iterating a list visits its items, a str its one-character strs, a dict its keys; nothing else iterates |
| Json.Repr | pyipt/Firewall.py:96 | repr() of a str is quoted and its inside decodes back to it; a list is bracketed and a dict braced |
| Json.ReprControlExample | pyipt/Firewall.py:96 | a control character inside a str is shown as `\xhh` |
| Json.PyStr | pyipt/Firewall.py:96 | str() of a str is itself, of anything else its repr(), with the non-printable characters up to U+00FF as `\xhh` |
| Json.ReprStrInverse | pyipt/Firewall.py:96 | the quoted text of a str's repr(), escapes included, decodes back to it |
| Sorting.SortStrings | pyipt/Protocol.py:34 | sorted and a permutation of the input |
| Sorting.SortStringSet | pyipt/Interface.py:38 | the set's members in strictly increasing order |
| Sorting.SortIntSet | pyipt/PortMap.py:60 | the set's ports in strictly increasing order |
| Sorting.DistinctCard | pyipt/Hostname.py:41 | a strictly sorted list of a set is as long as the set |
| Sorting.IncreasingCard | pyipt/PortMap.py:45 | a strictly increasing list of a port set is as long as the set |
| Base.MapAll | pyipt/Protocol.py:33 | a comprehension whose conversion may raise: all values in order, or the first element's error |

## Left out

- Reading the policy file and the services catalog, `datetime.now()`, the resolver, `ip addr show` and its mock files: these are all inputs. The catalog is a map from service name to (protocol, port) entries. Parsing `/etc/services` (`Service._parse_known_services`) is left out.
- `Firewall.generate`, the command-line front end and the daemon loop are I/O and scheduling. `write_script`, `add_stat`, `apply`, `Rule.dump` and the `__str__` methods are output formatting or debug printing. Only the `interfaces-rev` inversion of `generate` is modelled.
- Warnings printed to stderr are not modelled as output. `Hostnames.Resolve` and `Interfaces.Select` return what would be warned about; the other warnings are dropped.
- Floating-point numbers in the document: JSON numbers are integers here.
- General regular expressions: each pattern the core uses is a hand-written parser, proved to accept exactly the renderings of well-formed matches over ASCII digits, letters and whitespace.
- TimeWindows.ParseRender: `\d` is read as the ASCII digits and `\s` as ASCII whitespace. Python's patterns also match other Unicode digits and whitespace, and `int()` reads such digits by their value; the model rejects a time window written with them.
- TimeWindows.ParseRange: the same ASCII reading of `\d` and `\s`.
- TimeWindows.ParseBody: the same ASCII reading of `\d` and `\s`.
- TimeWindows.ParseClock: the same ASCII reading of `\d`.
- TimeWindows.ParsePart: `str.strip` is taken to strip ASCII whitespace only.
- Services.MatchToken: `\d` in the service pattern is read as the ASCII digits.
- Services.MatchRender: the same ASCII reading of `\d`.
- RegexMatches.MatchPort: `\d` in the forward-target pattern is read as the ASCII digits.
- RegexMatches.MatchTarget: the same ASCII reading of `\d`.
- RegexMatches.MatchRender: the same ASCII reading of `\d`.
- Text.Upper: upper-cases the ASCII letters only. Python's `str.upper` also maps other letters, sometimes to several characters. Chain names, actions and default policies are expected to be ASCII.
- Text.Lower: lower-cases the ASCII letters only, for the same reason.
- Json.PyStr: `repr()` escapes are modelled up to U+00FF. A character above U+00FF is kept as it is, where Python shows a non-printable one as `\uhhhh` or `\Uhhhhhhhh`.
- Json.Repr: the same limit on escapes above U+00FF.
- Firewalls.CommentOf: the same limit on escapes above U+00FF in the str() of an entry.
- Exceptions are the `Error` datatype. `IsPolicyError` marks the errors taken to be the compiler's own exception classes, which the lenient mode catches; that set is an assumption (next line).
- Base.IsPolicyError: which errors derive from `FirewallRulesetException` is an assumption of the model. pyipt/Exceptions.py is not part of this model; the eight classes the core raises by name (unknown interface, invalid time window, unknown type, incompatible options, malformed, unknown and ambiguous service, omitted protocol) are taken to be its subclasses.
- The unreachable `NotImplementedError` for an unknown action (pyipt/Firewall.py:220-221) cannot arise, because actions are a closed enumeration.
- The DNAT warnings for zero or several target addresses cannot arise after a passed sanity check, so they are not modelled beyond picking the first address.
- Rules.Rule: the components are kept in a ghost sequence updated by the rule's own methods. A list returned by `add_group` is extended only through `Rule.AppendLast` on the last component. The model does not capture aliasing that reaches an earlier component's list after later ones were added; the source does not do that either.
- Rules.Rules.Snapshot and Rules.Ruleset.AddRules: a bundle added to the ruleset is recorded by value at the time it is added. The source adds each bundle only after it is complete.
- Services.Service: the service's port maps are read through per-protocol views. `ReadMap` freezes each map once; the deferred freezing of a map read later through the same object is not tracked.
- PortMaps.PortMap: `single` is an ordered sequence rather than a Python set. Its members and their count are those of the source's set.
- Firewalls.PlainViewAlts: the multiport list of singles is in ascending order. The source joins the set `single` in its hash-table order, which is not always ascending (`{22, 80}` gives `80,22`); the order is the model's choice.
- Firewalls.DnatAlts: the DNAT alternatives of the singles are in ascending order, where the source follows the set's iteration order.
- Hostnames.EntryAddresses: a `hosts` entry is a str or a list of strs. The source takes any JSON value there, adding a scalar as it is and the members of a list.
- Interfaces.Networks: the address query yields parsed entries (protocol, four octets, prefix length). The source matches the raw `ip addr show` text and re-splits the address at dots; the model re-renders the octets with `QuadText`, so an address text the query printed differently (leading zeros, say) is not modelled.
- Interfaces.Addresses: the same parsed entries, so an address is re-rendered by `QuadText` rather than copied from the raw text.
- Vars.New: requires the variable definitions to be acyclic, shown by a ghost rank. The source recurses without bound on a self-referential definition.
- Vars.Variables.constructor: requires the same acyclicity.
- Vars.Variables.ResolveVar: requires the same acyclicity, through the object's invariant.
- Vars.Variables.Substitute: requires every referenced name to rank below the given bound, which follows from acyclicity.
- Interfaces.Mask: requires a prefix length of at most 32. The network computation `Interfaces.EntryNetworks` models the ValueError of a longer prefix explicitly.
