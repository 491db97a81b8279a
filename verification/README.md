# filtergen in Dafny

filtergen compiles packet-filter rules to firewall scripts. A source file is parsed to a syntax tree,
converted to a tree of `struct filter` nodes, rewritten in place until it is a graph that can be walked
along `child` and `next`, walked depth first with a `struct filterent` that is handed to a back end once
per path, and printed as commands. This project models that chain and proves what it keeps.

`dafny verify dfyconfig.toml` checks everything.

## How the model is organised

* **Front end.** `FilterSyntax` has the syntax trees of `ast.h`. `SyntaxTokens` is the printer of `t/emit.c`,
  `SyntaxParser` the grammar of `parser.y` as one function per nonterminal, `Grammar` the same grammar as
  relations, one per production, `RoundTrip` relates printer and parser, and `RuleEnds` says where a file may
  end. `SyntaxForms` says which filter tree a syntax tree becomes and `Conversion` builds it in the heap as
  `glue.c` does. `SyntaxReadings` gives the Boolean reading of a syntax tree directly, as ordered alternatives
  of signed specifiers, and says exactly when the conversion has it. `SyntaxMeaning` says what each keyword,
  option and target of the source means for packets, and `GroupNaming` what the groups are called.
* **Tree rewriting.** `FilterGraph` has the class `Filter` with the fields `u`, `child`, `next` and `negate`,
  snapshots of the heap as maps, and the meaning of a graph, its ordered root-to-leaf paths. A rank proves
  it acyclic. `FilterAppend`, `FilterUnroll`, `FilterNegation` and `FilterPasses` are the passes of `filter.c`
  as methods on the heap; `FilterTree` describes the two ways the heap can hold a tree, as built and
  unrolled with shared continuations. `NegationMeaning`, `NegatedRules` and `Readings` say what the passes
  do to the meaning.
* **Rule generation.** `FilterEntry` is `struct filterent` and one step on it, `RuleWalk` the walk of `gen.c`,
  `EntryOrder` the independence of the order of specifiers, `EntryChecks` which alternatives have an entry,
  `CompiledRules` the way from the syntax tree to the calls of the rule callback.
* **Back ends.** `IptablesRules` is `fg-iptables.c` and `fg-iptablesrestore.c`, which differ by `Style`.
  `Netfilter` reads rule texts, executes the commands on chains and evaluates a packet by first match with
  jumps and returns. `RuleMeaning`, `LoadedScript` and `ScriptVerdicts` prove what the loaded script does
  in terms of the entries, `SourceVerdicts` and `OnewayRules` in terms of the source, `NatTable` what happens
  in the nat table. `FiltergenOutput` is the back end that writes the source language again.
* **Groups.** `GroupValues`, `GroupVerdicts`, `GroupCounts`, `GroupSplits` and `InlinedGroups` compare groups
  that become chains of their own with groups inlined, on the rules the walk hands over. `GroupedScript` says
  when the script of such a filter loads, `GroupedChains` and `GroupedPackets` what its chains hold and do,
  and `GroupedSource` closes the way from the source to packets, forwarded ones included. `GroupNests` reads
  alternatives with their groups as brackets, and `GroupedReplies` says which replies get back.

Text (names, addresses, ports) stays uninterpreted. Lookups of protocols, addresses and ports are a value
`Lookup`; how words match packets is a value `Env`. Both are arbitrary.

## Where the code does not do what one would expect

* A rule that starts with its target and goes on takes the rules after it out of the list
  (`filter.c:395-405`). `FilterPasses.AllKept` says exactly when no rule is lost, and the end-to-end result
  is stated about the rules that are kept (`CompiledRules.KeptRules`).
* A negation of a conjunction negates each conjunct. The pass keeps the meaning if and only if no conjunction
  of several specifiers is negated (`NegationMeaning.KeepsMeaning`, for the syntax tree
  `NegatedRules.MeaningKept`); `! { source x dest y }` is compiled to "neither" (`NegatedRules.NegatedConjunction`),
  and when the rule goes on after it the pass aborts (`NegatedRules.ContinuedConjunction`).
* The duplicate guard for destination ports looks at the source port's range (`gen.c:165`).
  `EntryOrder.FoldSucceedsExactly` says exactly which specifiers are refused: destination ports, log texts
  and `oneway` may be repeated, a destination port after a source port range may not be given at all.
  Of several destination ports the last counts, negated if any of them is (`EntryOrder.LastDportWins`).
* A list whose front gives nothing drops what follows. The conversion has the reading of the syntax tree if
  and only if nothing that says something is dropped this way (`SyntaxReadings.RulesSayAll`).
* `oneway` in the source becomes a routing type (`input/filtergen/glue.c:484-486`), so no entry is ever marked
  as one-way and replies get back all the same (`OnewayRules.NeverOneway`, `OnewayRules.OnewayRepliesGetBack`).
* With a flag that sets a default routing type, groups as chains do not decide as groups inlined:
  `input * [ "g" forward accept ]` lets a forwarded packet through undecided (`InlinedGroups.LocalFlagAndForward`).
  They do when every alternative that passes a group gives no routing option or that of the flag
  (`InlinedGroups.GroupsAreInlined`), and `InlinedGroups.AgreementNeeded` shows for each other alternative
  packets that its rules then decide for only when inlined.
* A rule outside a group lets replies into the group's chain, but the group's own rules let them through only
  if they name tcp or udp themselves (`gen.c:131-137`, `output/iptables/fg-iptables.c:115-117`, `178-194`). With the
  protocol outside, `input * proto tcp [ "g" accept ]`, connections are accepted and their replies dropped
  (`GroupedReplies.ProtocolOutside`); `GroupedReplies.RepliesExactly` and `GroupedReplies.ForwardedRepliesExactly`
  say for every filter exactly which replies get back. They also show that a rule for forwarded packets only
  lets replies through the chains of the machine itself (`output/iptables/fg-iptables.c:377-379`).
* A brace after a keyword without arguments is taken for the beginning of its arguments, so
  `source { accept } ;`, which the grammar derives, is rejected (`Grammar.ShiftingLoses`).
* A group that is walked twice is announced twice, and the loader refuses the second announcement
  (`GroupedScript.GroupedScriptLoads`).
* The back ends print no negation of a protocol or of the interface `*`; then no packet satisfies both the
  entry and its rule (`RuleMeaning.UnprintableNeverAgrees`).
* The iptables back end sends input rules that drop or reject on to FORW_OUT
  (`output/iptables/fg-iptables.c:310-340`); `ScriptVerdicts.BackendsAgree` says exactly for which packets
  the two back ends differ.
* `*feat |= T_REJECT` sets the bit of TCP as well: `ScriptVerdicts.WhichFeatures` says which entries set which
  bit, `ScriptVerdicts.LightStateAdds` exactly which packets light state mode accepts in addition, and
  `ScriptVerdicts.RejectOpensTcp` that one rule rejecting udp makes it accept established TCP connections.
* `filter_syntax.5:32-33` makes the semicolon optional at the end of a file; the grammar does not
  (`RuleEnds.LastSemicolon`), and the model follows the grammar.

## Model

| member | source | states |
|---|---|---|
| FilterAppend.Append | filter.c:285-313 | appending sets the child of exactly the open ends reachable without passing `x`, so a second append through another alternative changes nothing; it aborts exactly when a reachable sibling list still has a child; the graph stays acyclic |
| FilterAppend.AppendAll | filter.c:309-310 | the same for every member of a list |
| FilterAppend.EndsAfter | filter.c:293-301 | after `x` has been appended, walking from anywhere finds the ends that were not yet given `x` and no others |
| FilterUnroll.Unroll | filter.c:323-352 | from a tree as built, the heap afterwards holds it unrolled: every alternative ends in the continuation, no sibling list has a child, nothing outside changes, no abort; from an already unrolled graph nothing changes at all |
| FilterUnroll.UnrollSiblings | filter.c:334-339 | the loop over alternatives, whose sideways step revisits them, leaves the whole list unrolled and appended to once |
| FilterUnroll.UnrolledFlat | filter.c:323-352 | an unrolled tree is a graph on which a second run finds nothing to do |
| FilterTree.UnrolledPaths | filter.c:315-322 | the ordered paths of the unrolled graph are those of the tree, each followed by the continuation |
| FilterTree.RawPaths | filter.c:95-103 | the ordered paths of a tree as built are the cross product of its alternatives in source order |
| FilterTree.UnrolledAppend | filter.c:285-313 | appending at the open ends turns an unrolled tree into the tree unrolled in front of the new continuation |
| FilterNegation.NegExpand | filter.c:354-389 | fails exactly when a list of two or more members or a subgroup stands under an odd number of negations (exit), or a negation that goes on holds a chain with a sibling list that has a child (abort); otherwise the heap holds the expanded tree, the continuation of each negation hanging at the last node of the chain it held |
| FilterNegation.ExpandWithin | filter.c:354-389 | the expanded tree has no negation node, uses each node at most once and keeps the shape of a tree |
| FilterNegation.ExpandEnds | filter.c:293-312 | where appending to an expanded chain ends: at its last node, unless a sibling list with a child stands on the way |
| NegationMeaning.ExpandMarks | filter.c:388 | each leaf ends up with the parity of the negations around it, also under negated conjunctions |
| NegationMeaning.ExpandLeaves | filter.c:354-389 | no leaf is lost or added |
| NegationMeaning.KeepsMeaning | filter.c:354-389 | the expanded tree holds for the same valuations as the tree if and only if no chain of several specifiers is negated an odd number of times |
| NegatedRules.MeaningKept | filter.c:354-389 | the same from the syntax tree on |
| NegatedRules.NegatedConjunction | filter.c:375-388 | `! { source x dest y }` is expanded without failure and becomes the single alternative "not x and not y", which is not what it says |
| NegatedRules.ContinuedConjunction | filter.c:302-308 | when the rule goes on after such a conjunction, the pass aborts |
| FilterPasses.TargetsToEnd | filter.c:392-410 | the heap afterwards holds `ToEnd` of the unrolled tree |
| FilterPasses.AllKept | filter.c:395-405 | no rule is lost if and only if no rule but the last starts with a target and goes on |
| Readings.ListMoved | filter.c:391-410 | the alternatives of the kept rules stay in order, each with at most one target moved to its end |
| Readings.FoldMoved | filter.c:391-410 | moving a target to the end of an alternative changes nothing about the entry it gives, nor whether it gives one |
| FilterPasses.NoGroup | filter.c:418-433 | groups outside negations become plain lists, the rest stays |
| Readings.UngroupReads | filter.c:418-433 | inlining groups leaves every alternative as it is |
| Readings.ExpandReads | filter.c:354-389 | expanding negations leaves the ordered alternatives and the signs of their specifiers as they are |
| FilterPasses.PrepareFilter | filter.c:412-416 | succeeds exactly when the negations can be expanded; then the graph is acyclic and its ordered paths are those of the prepared tree |
| FilterPasses.UnrolledRanked | filter.c:315-318 | an unrolled tree is acyclic although continuations are shared |
| EntryOrder.OrderIrrelevant | filter_syntax.5:25-30 | two orders of the same specifiers, at most one of each kind, give the same entry, and an order is refused exactly when a source port range stands before a destination port |
| EntryOrder.BuildPermuted | gen.c:93-185 | without the guards every permutation builds the same entry |
| EntryOrder.FoldSucceedsExactly | gen.c:93-185 | for every entry and all specifiers, repeated ones included: the fold succeeds if and only if none is blocked by the entry, none that may be given once is repeated, and no destination port meets a source port range given before it |
| EntryOrder.LastDportWins | gen.c:165 | of several destination ports the entry keeps the last, and the marks of all |
| EntryChecks.HasEntryExactly | gen.c:39-73 | an alternative has an entry if and only if nothing that may be given once is given twice, no destination port follows a source port range, and it gives a direction, a target, ports only with protocol 6 or 17, an icmp type only with protocol 1, and does not masquerade local packets only, by its own option or by a flag |
| EntryChecks.HaveEntriesExactly | gen.c:187-206 | all alternatives have entries if and only if each of them is such |
| EntryChecks.TakenExactly | output/iptables/fg-iptables.c:98-112 | the back end rejects an entry if and only if it rewrites addresses for IPv6, masquerades on input or redirects on output |
| EntryChecks.LogsExactly | gen.c:149-152 | there are LOG commands if and only if the alternative says `log`; they carry the last text given, in the chains for the packets its routing option or the flags let |
| RuleWalk.ApplyList | gen.c:78-91 | the rules handed over and the result are those of folding the paths one after the other up to the first failure; a rule is appended to the chain being built and jumps only to groups whose bodies were walked before it |
| RuleWalk.Apply | gen.c:187-206 | the same for one chain: nothing written on one alternative is seen by the next |
| RuleWalk.ApplyOne | gen.c:93-185 | one node is one step of the fold; a group's body is walked from an entry that keeps only the direction, and is announced before the rule that jumps to it |
| RuleWalk.RunPrefix | gen.c:187-206 | a node shared by several paths is applied once for all of them with the same outcome |
| RuleWalk.RunAppend | gen.c:78-91 | running two stretches of paths is running one, then the other if the first succeeded |
| RuleWalk.TraceAnnounced | gen.c:115-141 | in every trace, nested groups and groups reached by several alternatives included, each rule that is appended or jumps to a group comes after the creation of that group's chain |
| RuleWalk.TraceAppend | gen.c:131-141 | traces in which a group's body is complete before a rule jumps to it can be put one behind the other |
| CompiledRules.RunAllSucceeds | gen.c:78-91 | the run succeeds exactly when every alternative has an entry that the callback accepts; then there is one call per alternative and the result is the total |
| Conversion.Convert | input/filtergen/glue.c:687-699 | the heap holds a fresh tree of the form `RulesForm` gives, and the counter of unnamed groups has advanced as it says |
| Conversion.ConvertRules | input/filtergen/glue.c:659-685 | rules are linked in order, those that give nothing are left out |
| Conversion.ConvertSubrules | input/filtergen/glue.c:43-71 | alternatives are linked in order; if the first gives nothing the rest is dropped |
| Conversion.ConvertSpecifiers | input/filtergen/glue.c:617-644 | specifiers are chained in order; if the first gives nothing the rest is dropped |
| Conversion.ConvertNegated | input/filtergen/glue.c:595-615 | a negation is put around what its specifier gives, if anything |
| Conversion.ConvertSpecifier | input/filtergen/glue.c:534-593 | each kind of specifier becomes the node or sibling list of its kind; `proxy` is `redirect` |
| Conversion.ConvertChaingroup | input/filtergen/glue.c:500-532 | an unnamed group takes the next number as its name, before its body is converted |
| Conversion.ConvertArgs | input/filtergen/glue.c:106-135 | arguments become leaves in order, those that cannot be built are left out, and if the first cannot the rest is dropped |
| Conversion.LinkNext | input/filtergen/glue.c:52-58 | walking to the end of a list and linking another gives the joined list and touches nothing else |
| Conversion.LinkChild | input/filtergen/glue.c:626-632 | the same along a chain |
| Conversion.NewAround | filter.c:87-120 | a node around a list, and nothing around nothing |
| SyntaxMeaning.KeywordMeans | input/filtergen/glue.c:137-473 | one of the alternatives of a keyword with its arguments describes a packet if and only if some argument that can be looked up fits the side of the packet the keyword names, or, negated, does not |
| SyntaxMeaning.DirectionMeans | input/filtergen/glue.c:137-166 | `input` and `output` give their direction |
| SyntaxMeaning.OptionMeans | input/filtergen/glue.c:472-498 | a rule that says `local`, wherever it says it, decides for no forwarded packet and for others as the rule without it; `forward` the other way round; `oneway` for all |
| SyntaxMeaning.OptionDecides | input/filtergen/glue.c:472-498 | the same for the loaded script: a rule that says `local` forwards nothing, one that says `forward` drops every packet of the machine itself, and otherwise they do what the rule without the option does |
| SyntaxMeaning.LogApplies | input/filtergen/glue.c:487-491 | `log` changes nothing about which packets a rule decides for, nor how |
| SyntaxMeaning.TargetMeans | input/filtergen/glue.c:550-567 | every alternative of a rule that names a target has the verdict and the address rewriting of that name: `masq` on output, `proxy` and `redirect` on input |
| GroupNaming.NamesTell | input/filtergen/glue.c:507-517 | the name of an unnamed group is `chain_` and the digits of its number, so different numbers give different names |
| GroupNaming.RulesTake | input/filtergen/glue.c:500-532 | a name stands in the converted tree at most as often as the source gives it, and once more only if it is that of one of the numbers used |
| GroupNaming.UnnamedNumbered | input/filtergen/glue.c:507-517 | when the source names no group, the names are those of numbers used, each at most once, so no two groups have the same |
| GroupNaming.NamesStayApart | input/filtergen/glue.c:500-532 | the passes keep it so: when no name is given twice nor taken by an unnamed group, the groups of the prepared graph have different names |
| SyntaxForms.RulesShape | input/filtergen/glue.c:659-685 | the converted tree has the shape the passes rely on and no signs yet |
| SyntaxReadings.RulesSay | input/filtergen/glue.c:659-685 | for every syntax tree the converted tree has the Boolean reading, alternatives in source order, of the syntax tree without what an empty front drops |
| SyntaxReadings.RulesSayAll | input/filtergen/glue.c:617-685 | the converted tree has the reading of the syntax tree itself if and only if no list goes on with something after a front that gives nothing |
| SyntaxReadings.SpecifiersSay | input/filtergen/glue.c:617-644 | a specifier list says something exactly when its reading does, and then says the cross product of its members |
| SyntaxReadings.SubrulesSay | input/filtergen/glue.c:43-71 | a list of alternatives says the alternatives of its members one after the other |
| SyntaxReadings.ArgsSay | input/filtergen/glue.c:106-135 | an argument list says one alternative per argument |
| CompiledRules.Compile | gen.c:208-213 | conversion, inlining and preparation succeed exactly when the negations can be expanded; then the rule callback is called once per alternative of the kept rules' reading, in source order, with the entry the alternative gives, up to the first alternative that has none or is not accepted, and the result is negative exactly when there is such a one |
| CompiledRules.KeptForm | filter.c:395-405 | the rules kept by the pass are, in the syntax tree, those up to and including the first that starts with its target and goes on |
| CompiledRules.InlinedReads | filter.c:412-433 | the prepared tree has the alternatives of the kept rules up to the place of a target |
| CompiledRules.PreparedRuns | gen.c:187-213 | the prepared graph can be walked, and walking it is running its alternatives |
| IptablesRules.RuleCommon | output/iptables/fg-iptables.c:82-394 | the commands, their number and the feature bits for every entry and both styles, or the rejection of unsupported NAT, a missing direction or a missing target |
| IptablesRules.EmitScript | output/iptablesrestore/fg-iptablesrestore.c:403-461 | succeeds exactly when no entry is rejected; then the commands are the skeleton, those of the entries in order and the generic rules for the protocols in use |
| RuleMeaning.ForwardMeans | output/iptables/fg-iptables.c:126-250 | reading the words of a rule gives the conjunction of the entry's conditions with their signs; with `checkmatch` no port or type is dropped |
| RuleMeaning.ReverseMeans | output/iptables/fg-iptables.c:126-250 | the reply rule matches a packet exactly when the entry describes the mirrored packet, the connection is established and a tcp packet does not open one |
| RuleMeaning.ReadForward | output/iptablesrestore/fg-iptablesrestore.c:128-248 | the printed words of the rule read as its list of matches, an exclamation mark negating the next option only |
| RuleMeaning.ReadReverse | output/iptablesrestore/fg-iptablesrestore.c:128-248 | the same for the reply rule |
| RuleMeaning.UnprintableNeverAgrees | output/iptablesrestore/fg-iptablesrestore.c:171-177 | where a negation is not printed, no packet satisfies both the entry and the rule |
| LoadedScript.LoadScript | output/iptablesrestore/fg-iptablesrestore.c:417-459 | every script of plain entries loads on top of any ruleset, and each chain then holds the generic rules, the reply rules, the check for invalid packets and the rules, in this order |
| LoadedScript.LoadLines | output/iptablesrestore/fg-iptablesrestore.c:355-367 | loading appends and inserts puts the inserted lines in reverse order before a chain and the appended ones behind it |
| LoadedScript.EntryLines | output/iptablesrestore/fg-iptablesrestore.c:260-367 | what the commands of one entry append to each chain and insert at its head |
| LoadedScript.LoadSkeleton | output/iptablesrestore/fg-iptablesrestore.c:417-436 | the skeleton leaves the same five chains and DROP policies whatever was loaded before |
| ScriptVerdicts.ScriptLocal | output/iptablesrestore/fg-iptablesrestore.c:355-360 | the verdict of INPUT and OUTPUT on every packet in every connection state |
| ScriptVerdicts.ScriptForward | output/iptablesrestore/fg-iptablesrestore.c:361-367 | the verdict of FORWARD on every packet, through FORW_OUT and back where it returns |
| ScriptVerdicts.NewConnections | output/iptablesrestore/fg-iptablesrestore.c:356-360 | a new packet is decided by first match over the entries of its direction that are not for forwarded packets only, default drop; reply rules never change it |
| ScriptVerdicts.ForwardingIsConjunction | output/iptablesrestore/fg-iptablesrestore.c:290-315 | in the restore back end a new packet is forwarded if and only if the first matching input entry and the first matching output entry both accept it |
| ScriptVerdicts.IptablesForwarding | output/iptables/fg-iptables.c:310-340 | in the iptables back end it is forwarded if and only if some input entry matches and the first matching output entry accepts it |
| ScriptVerdicts.BackendsAgree | output/iptables/fg-iptables.c:310-340 | the two back ends agree on a new packet if and only if it is not turned away by an input entry and accepted by an output entry |
| ScriptVerdicts.RepliesGetBack | output/iptablesrestore/fg-iptablesrestore.c:178-194 | if the entry that decides for a new packet accepts tcp or udp and is not one-way, the reply is accepted in the opposite chain |
| ScriptVerdicts.ForwardedRepliesGetBack | output/iptablesrestore/fg-iptablesrestore.c:361-366 | a forwarded reply passes FORWARD and FORW_OUT when both deciding entries are such |
| ScriptVerdicts.LightStateRelaxes | output/iptablesrestore/fg-iptablesrestore.c:439-457 | light state mode changes no verdict on new packets, and accepts every packet that is accepted without it |
| ScriptVerdicts.LightStateAdds | output/iptablesrestore/fg-iptablesrestore.c:439-457 | exactly what it adds: established packets of the protocols in use (tcp only when not opening) are accepted, and the verdict on every other packet is the same |
| ScriptVerdicts.WhichFeatures | output/iptablesrestore/fg-iptablesrestore.c:314 | the bit of TCP is set if and only if an entry is about tcp or rejects, that of UDP if and only if an entry is about udp |
| ScriptVerdicts.RejectOpensTcp | output/iptablesrestore/fg-iptablesrestore.c:314 | with one rule that rejects udp an established tcp packet is dropped without light state mode and accepted with it |
| SourceVerdicts.SourceDecidesLocal | output/iptablesrestore/fg-iptablesrestore.c:403-461 | a new packet to or from the machine gets the verdict of the first alternative of the source that applies to it |
| SourceVerdicts.SourceDecidesForwarding | output/iptablesrestore/fg-iptablesrestore.c:403-461 | a new packet is forwarded if and only if the first applying input alternative and the first applying output alternative accept it |
| SourceVerdicts.CompileScript | output/iptablesrestore/fg-iptablesrestore.c:403-461 | from the syntax tree without groups: succeeds exactly when the negations can be expanded and every alternative has a supported entry; then the script is that of these entries |
| SourceVerdicts.FoldSays | gen.c:93-185 | the folded entry describes a packet exactly when every specifier of the alternative does, of several destination ports the last |
| SourceVerdicts.EntrySays | gen.c:30-73 | an ordinary alternative's entry is plain, has its target, and applies to the packets the alternative applies to |
| NatTable.NatMeans | output/iptables/fg-iptables.c:178-262 | a rule of the nat table matches the packets its entry describes, whatever the connection state |
| NatTable.SourceTranslates | output/iptables/fg-iptables.c:279-291 | in both back ends POSTROUTING masquerades exactly the packets that an alternative saying `masq` describes, and PREROUTING redirects exactly those that one saying `redirect` describes |
| NatTable.AllHeading | output/iptablesrestore/fg-iptablesrestore.c:346-353 | in the restore back end every rule stands under the heading of its table, each table is committed before the next begins, and the filter table is open again behind every entry |
| NatTable.RewritesAccepts | output/iptables/fg-iptables.c:294-310 | in the filter table a rule that rewrites addresses is a rule that accepts |
| IptablesRules.CountsRules | output/iptables/fg-iptables.c:259-393 | the number the callback returns is that of the rules it prints |
| OnewayRules.NeverOneway | input/filtergen/glue.c:484-486 | no entry compiled from a source file has the one-way mark |
| OnewayRules.OnewayRepliesGetBack | input/filtergen/glue.c:484-486 | when the first alternative of the source that applies to a new packet accepts tcp or udp, the reply is accepted in the opposite chain, also if the alternative says `oneway` |
| GroupValues.GroupsAsConditions | filter.c:418-433 | taking each group as one condition, decided by first match inside it, changes no first match |
| GroupVerdicts.PathGives | gen.c:93-185 | the one entry that a path with a group gives jumps to the group and describes the packets that the specifiers outside the group describe |
| GroupVerdicts.ChainDecides | gen.c:115-141 | the chain of a group, filled every time its body is walked, decides as the group's alternatives once it was walked in the packet's direction, and decides nothing before |
| GroupVerdicts.MainDecides | gen.c:187-206 | the rules outside groups, with jumps into chains and returns where nothing matches, decide as the whole filter with its groups inlined |
| GroupVerdicts.InlinedDecides | gen.c:93-185 | first match over the entries of alternatives without groups is first match over the alternatives, whatever the flags |
| GroupVerdicts.CompileGroups | gen.c:208-213 | from the syntax tree without inlining: succeeds exactly when the negations can be expanded; then the calls and the result are those of running the paths of the prepared tree, which has the compiled alternatives up to the place of a target; names kept apart in the source give groups different names |
| GroupVerdicts.GroupsInlined | filter.c:418-433 | on orderly filters jumping and returning gives every packet the verdict of the inlined rules |
| GroupCounts.BodyTarget | gen.c:115-141 | when a group's body was walked to the end, there is a target in it |
| InlinedGroups.BothSucceed | filter.c:418-433 | a filter is orderly when both walks succeed, group names are distinct and its alternatives agree with the flags: no group has a target or a direction next to it that its body gives again |
| InlinedGroups.GroupsAreInlined | filter.c:418-433 | groups with distinct names, any flags, repeated destination ports included: when both walks succeed and every alternative that passes a group gives no routing option or that of the flags, every packet gets the same verdict from the rules with jumps into the groups' chains as from the rules with the groups inlined |
| InlinedGroups.AgreementNeeded | gen.c:31-35 | each alternative that does not agree decides, inlined, for packets for which the rule that stands for it decides nothing |
| InlinedGroups.LocalFlagAndForward | gen.c:31-35 | for `input * [ "g" forward accept ]` and the flag for local rules a forwarded packet is accepted with the group inlined and not decided with the jump |
| GroupedScript.GroupedScriptLoads | output/iptablesrestore/fg-iptablesrestore.c:387-393 | on top of the skeleton every command of a walk with groups is accepted if and only if no group is walked twice |
| GroupedPackets.GroupScriptLoads | output/iptablesrestore/fg-iptablesrestore.c:403-461 | the same for the whole script, skeleton and generic rules included, on top of any ruleset |
| GroupedPackets.LoadedChains | output/iptablesrestore/fg-iptablesrestore.c:355-367 | what every chain then holds, for packets of the machine and forwarded ones: generic rules and the check in the built-in ones, the reply rules of its own group before its rules |
| GroupedPackets.GroupReplies | output/iptables/fg-iptables.c:342-348 | for packets of the direction opposite to its rules, the chain of a group lets exactly those through that one of its reply rules, or of the groups below, answers, and does nothing to others |
| GroupedPackets.MainEvaluates | output/iptablesrestore/fg-iptablesrestore.c:355-367 | each of the four main chains makes of a new or known packet what the generic rules, then the reply rules with their jumps, then the rules outside groups with theirs make of it |
| GroupedPackets.DecidedThrough | output/iptables/fg-iptables.c:310-340 | a forwarded packet gets through the input rules and their groups if and only if FORW_OUT accepts it and first match lets it on |
| GroupedSource.LocalPackets | output/iptablesrestore/fg-iptablesrestore.c:403-461 | the verdict of the loaded script on every new or known packet of the machine: accepted by the generic rules or by reply rules, otherwise that of the first alternative of the source that applies |
| GroupedSource.ForwardedPackets | output/iptablesrestore/fg-iptablesrestore.c:361-367 | the same for forwarded packets, through FORWARD and FORW_OUT and the groups of both |
| GroupedSource.GroupedSourceDecides | output/iptablesrestore/fg-iptablesrestore.c:403-461 | from the source: the script of a filter with groups loads if and only if no group is walked twice, and then gives every new packet to or from the machine the verdict of the first alternative of the source that applies to it |
| GroupedSource.GroupedSourceForwards | output/iptables/fg-iptables.c:342-348 | a new packet is forwarded if and only if the first output alternative that applies accepts it and the first input alternative lets it on: by accepting it in the restore back end, by applying in the iptables back end |
| GroupNests.EveryNest | gen.c:115-141 | every alternative of the prepared filter can be read with its groups as brackets, along a path through them |
| GroupNests.NestSays | gen.c:115-141 | an alternative says what its parts inside and outside groups say; its target is the innermost part's, its direction the outermost's |
| GroupNests.ProtocolInside | gen.c:161 | when the innermost part names a protocol, no part around it does |
| GroupedReplies.ReplyPassesExactly | output/iptables/fg-iptables.c:115-117 | reply rules, with their jumps into groups, answer a reply if and only if some alternative that applies to the packet it replies to accepts it and names tcp or udp in its innermost group |
| GroupedReplies.RepliesExactly | output/iptables/fg-iptables.c:342-348 | the verdict of the loaded script on every reply to a packet of the machine: accepted if and only if such an alternative lets it back or, taken as a packet of its own, it is accepted |
| GroupedReplies.ForwardedRepliesExactly | output/iptables/fg-iptables.c:380-386 | a forwarded reply gets through if and only if an input alternative lets it back or an output alternative accepts it, and an output alternative lets it back or an input one lets it on |
| GroupedReplies.GroupedRepliesGetBack | output/iptables/fg-iptables.c:115-117 | replies get back through nested groups: when an alternative of the source applies to a packet, accepts it and names tcp or udp in its innermost group, the reply is accepted in the opposite chain |
| GroupedReplies.ForwardedGroupedRepliesGetBack | output/iptables/fg-iptables.c:380-386 | and through the router, when an input and an output alternative are such |
| GroupedReplies.SourceNest | filter.c:391-410 | every alternative of the source is such an alternative, its target perhaps moved to the end |
| GroupedReplies.ProtocolOutside | gen.c:131-137 | for `input * proto tcp [ "g" accept ]` the loaded script accepts the connection and drops its replies; with the group inlined the replies are accepted |
| GroupedSource.CompileGroupScript | output/iptablesrestore/fg-iptablesrestore.c:403-461 | from the syntax tree, groups kept: succeeds exactly when the negations can be expanded and the walk succeeds; then the script is that of the walk |
| RoundTrip.PrintThenParse | input/filtergen/t/emit.c:26-313 | parsing the printed tokens gives the same tree if and only if no bare name is a star or a keyword, no port list is empty and `proxy` is not used |
| RoundTrip.PrintIsInjective | input/filtergen/t/emit.c:26-313 | no two such trees are printed alike |
| RoundTrip.SpecifiersBack | input/filtergen/parser.y:182-196 | parsing what was printed for a list consumes exactly it, whatever follows |
| RoundTrip.SpecifiersBad | input/filtergen/t/emit.c:277-286 | what was printed for a list that is not such is never parsed as something that starts with it |
| RoundTrip.SubrulesBack | input/filtergen/parser.y:604-618 | the same for alternatives between semicolons |
| RoundTrip.KeywordBack | input/filtergen/t/emit.c:58-267 | a specifier without alternatives is read back exactly when it is reprintable |
| RoundTrip.ParsedPorts | input/filtergen/parser.y:438-462 | the parser never builds an empty port list |
| Grammar.ParsesExactly | input/filtergen/parser.y:154-634 | the parser accepts a text with a tree if and only if the productions of the grammar derive the text from the tree and a brace after a keyword without arguments begins its arguments |
| Grammar.ParsedIsSpelled | input/filtergen/parser.y:154-634 | what the parser accepts with a tree the grammar derives from that tree |
| Grammar.ShiftingLoses | input/filtergen/parser.y:154-634 | `source { accept } ;` is derived by the grammar and rejected by the parser |
| RuleEnds.LastSemicolon | input/filtergen/parser.y:174 | a file that parses is empty or ends with a semicolon |
| FiltergenOutput.EmitFiltergen | output/filtergen/emit.c:98-107 | from the syntax tree: the output is that of the compiled entries, one rule each |
| FiltergenOutput.FileParses | output/filtergen/emit.c:29-95 | the output, whose arguments have no braces, parses rule by rule |
| FiltergenOutput.RuleIsFixed | output/filtergen/emit.c:29-95 | compiling the output of one entry gives the entry back if and only if it has no negation, NAT, log text, `oneway` mark or own routing option, and no source port range next to a destination port |
| FiltergenOutput.NormalForm | output/filtergen/emit.c:98-107 | the output parses, nothing of it is dropped, lost or refused by the compiler, and compiling it gives the same entries in the same order if and only if every entry is such |
| FiltergenOutput.OutputIsFixed | output/filtergen/emit.c:98-107 | the loop closed: emitting the parsed output gives the same tokens again if and only if every rule has a printed target and no source port range next to a destination port |

## Left out

- GroupedSource.GroupedSourceDecides: does not cover rules that start with their target, groups of the same name, NAT, and negations that are not printed.
- GroupedSource.LocalPackets: is about new and known connections; packets in other states are covered for filters without groups (`ScriptVerdicts.ScriptLocal`).
- GroupedSource.GroupedSourceForwards: asks for one more jump than FORWARD and FORW_OUT with all their groups need.
- InlinedGroups.GroupsAreInlined: does not cover rules that start with their target and groups of the same name.
- FilterNegation.NegExpand: does not cover a negation inside a negation whose content has several alternatives and goes on, where the continuation would be shared before the tree is unrolled, and groups there.
- NegationMeaning.KeepsMeaning: asks that no negation stands directly inside another, which the grammar cannot build.
- NAT: what the nat table does to a packet is stated, not how rewritten addresses change what the filter table sees, so the verdicts are about filters without NAT. Loading the restore script's commits is not modelled either.
- Scripts without the skeleton are generated but not loaded. A command of the iptables script that is refused counts as a script that does not load, although a shell would go on.
- Scanner, include handling and the source-file stack: parsing starts from tokens, and a name printed bare is one token. A name with blanks, a name that is the word `include`, and a quotation mark inside a quoted name are not modelled.
- Name resolution and the checks on netmasks: `Lookup` stands for them.
- The byte mask loop for IPv6: only the text of a mask reaches the output.
- Source positions, error texts, memory management.
- The `ipchains`, `cisco` and `ipfilter` back ends and the conversion of iptables-save files: weaker variants of what is modelled, or stubs.
- `filter_noneg`, flush commands, option parsing and the Rust files.
