/** What the chains of a filter with groups hold once its script has been loaded, and what they do to
    a packet that opens a connection. */
module GroupedChains {
  import opened FilterSpec
  import opened FilterEntry
  import opened IptablesRules
  import opened Netfilter
  import opened RuleMeaning
  import opened LoadedScript
  import opened ScriptVerdicts
  import opened RuleWalk
  import opened GroupValues
  import opened GroupVerdicts
  import opened GroupedScript

  /** Every rule handed over, those of the bodies included, in the order of the callbacks. */
  function AllRules(cs: seq<Call>): seq<Entry>
    decreases cs
  {
    if cs == [] then []
    else
      (match cs[0]
       case RuleCall(d) => [d]
       case GroupCall(_, _, _, body) => AllRules(body))
      + AllRules(cs[1..])
  }

  // ----- loading commands that also create chains -----

  /** The command creates a chain, or adds a readable rule with a target the loader knows. */
  ghost predicate Shown(c: Command) {
    c.NewChain? || ((c.Append? || c.Insert?) && Read(c.rule, false).Some?
                    && !c.target.MasqueradeWord? && !c.target.RedirectWord?)
  }

  ghost predicate AllShown(cs: seq<Command>) {
    forall c | c in cs :: Shown(c)
  }

  function Before(rs: Ruleset, ch: Chain): seq<Line> {
    if ch in rs.chains then rs.chains[ch] else []
  }

  lemma OneShown(c: Command, rs: Ruleset)
    requires Shown(c) && Execute(c, rs).Some?
    ensures var r := Execute(c, rs).value;
            && r.policy == rs.policy && rs.chains.Keys <= r.chains.Keys
            && (forall ch | ch in r.chains :: r.chains[ch] == Fronts([c], ch) + Before(rs, ch) + Backs([c], ch))
            && (forall ch | ch !in rs.chains :: Fronts([c], ch) == [] && Backs([c], ch) == [])
  {
    var r := Execute(c, rs).value;
    if !c.NewChain? {
      assert LineOf(c.rule, c.target, rs) == Some(LineFor(c));
    }
    forall ch ensures Fronts([c], ch) == (if c.Insert? && c.chain == ch then [LineFor(c)] else [])
      ensures Backs([c], ch) == (if c.Append? && c.chain == ch then [LineFor(c)] else [])
    {
      BacksOne(c, ch);
    }
    forall ch | ch in r.chains ensures r.chains[ch] == Fronts([c], ch) + Before(rs, ch) + Backs([c], ch) {
      assert [] + Before(rs, ch) == Before(rs, ch);
      assert Before(rs, ch) + [] == Before(rs, ch);
    }
  }

  /** What a chain holds afterwards: inserted lines, what it held before, appended lines. */
  lemma {:induction false} AllLoaded(cs: seq<Command>, rs: Ruleset)
    requires AllShown(cs) && Load(cs, rs).Some?
    ensures var r := Load(cs, rs).value;
            && r.policy == rs.policy && rs.chains.Keys <= r.chains.Keys
            && forall ch | ch in r.chains :: r.chains[ch] == Fronts(cs, ch) + Before(rs, ch) + Backs(cs, ch)
    decreases |cs|
  {
    if cs == [] {
      forall ch | ch in rs.chains ensures [] + Before(rs, ch) + [] == rs.chains[ch] {}
    } else {
      var c, rest := cs[0], cs[1..];
      assert cs == [c] + rest;
      var r1 := Execute(c, rs).value;
      OneShown(c, rs);
      AllLoaded(rest, r1);
      var r := Load(cs, rs).value;
      forall ch | ch in r.chains ensures r.chains[ch] == Fronts(cs, ch) + Before(rs, ch) + Backs(cs, ch) {
        BacksAppend([c], rest, ch);
        if ch in r1.chains {
          Nest(Fronts(rest, ch), Fronts([c], ch), Before(rs, ch), Backs([c], ch), Backs(rest, ch));
        } else {
          assert ch !in rs.chains && Before(rs, ch) == [] && Before(r1, ch) == [];
        }
      }
    }
  }

  lemma EntryShown(style: Style, lstate: bool, e: Entry)
    requires Fit(e)
    ensures AllShown(EntryCommands(style, lstate, e))
  {
    EntryLoads(style, lstate, e, Names(e));
    forall c | c in EntryCommands(style, lstate, e) ensures Shown(c) {
      assert Good(c, Keys(Names(e)));
    }
  }

  lemma {:induction false} CallsShown(style: Style, lstate: bool, cs: seq<Call>)
    requires AllFit(cs)
    ensures AllShown(CallCommands(style, lstate, cs))
    decreases cs
  {
    if cs != [] {
      CallsShown(style, lstate, cs[1..]);
      match cs[0]
      case RuleCall(d) => EntryShown(style, lstate, d);
      case GroupCall(_, _, _, body) => CallsShown(style, lstate, body);
    }
  }

  /** Creating chains adds no line. */
  lemma {:induction false} CreatingAdds(cs: seq<Command>, ch: Chain)
    requires forall c | c in cs :: c.NewChain?
    ensures Backs(cs, ch) == [] && Fronts(cs, ch) == []
    decreases |cs|
  {
    if cs != [] {
      CreatingAdds(cs[1..], ch);
      assert cs[0] in cs;
    }
  }

  lemma GroupAdds(name: string, ch: Chain)
    ensures Backs(GroupCommands(name), ch) == [] && Fronts(GroupCommands(name), ch) == []
  {
    CreatingAdds(GroupCommands(name), ch);
  }

  lemma {:induction false} CommandsAppend(style: Style, lstate: bool, es: seq<Entry>, ds: seq<Entry>)
    ensures AllCommands(style, lstate, es + ds) == AllCommands(style, lstate, es) + AllCommands(style, lstate, ds)
    decreases |es|
  {
    if es == [] {
      assert es + ds == ds;
    } else {
      assert (es + ds)[0] == es[0] && (es + ds)[1..] == es[1..] + ds;
      CommandsAppend(style, lstate, es[1..], ds);
      SeqAssoc(EntryCommands(style, lstate, es[0]), AllCommands(style, lstate, es[1..]),
               AllCommands(style, lstate, ds));
    }
  }

  lemma SameLines(a: seq<Command>, b: seq<Command>, c: seq<Command>, d: seq<Command>, ch: Chain)
    requires Backs(a, ch) == Backs(c, ch) && Fronts(a, ch) == Fronts(c, ch)
    requires Backs(b, ch) == Backs(d, ch) && Fronts(b, ch) == Fronts(d, ch)
    ensures Backs(a + b, ch) == Backs(c + d, ch) && Fronts(a + b, ch) == Fronts(c + d, ch)
  {
    BacksAppend(a, b, ch);
    BacksAppend(c, d, ch);
  }

  lemma OneEntry(style: Style, lstate: bool, e: Entry)
    ensures AllCommands(style, lstate, [e]) == EntryCommands(style, lstate, e)
  {
    assert [e][1..] == [];
    assert EntryCommands(style, lstate, e) + [] == EntryCommands(style, lstate, e);
  }

  lemma GroupLines(style: Style, lstate: bool, name: string, body: seq<Call>, ch: Chain)
    requires var c, d := CallCommands(style, lstate, body), AllCommands(style, lstate, AllRules(body));
             Backs(c, ch) == Backs(d, ch) && Fronts(c, ch) == Fronts(d, ch)
    ensures var c, d := GroupCommands(name) + CallCommands(style, lstate, body),
                        AllCommands(style, lstate, AllRules(body));
            Backs(c, ch) == Backs(d, ch) && Fronts(c, ch) == Fronts(d, ch)
  {
    GroupAdds(name, ch);
    BacksAppend(GroupCommands(name), CallCommands(style, lstate, body), ch);
    assert Fronts(AllCommands(style, lstate, AllRules(body)), ch) + []
        == Fronts(AllCommands(style, lstate, AllRules(body)), ch);
  }

  /** The lines of the whole walk are those of its rules. */
  lemma {:induction false} CallLines(style: Style, lstate: bool, cs: seq<Call>, ch: Chain)
    ensures Backs(CallCommands(style, lstate, cs), ch) == Backs(AllCommands(style, lstate, AllRules(cs)), ch)
    ensures Fronts(CallCommands(style, lstate, cs), ch) == Fronts(AllCommands(style, lstate, AllRules(cs)), ch)
    decreases cs
  {
    if cs != [] {
      var rest, ds := CallCommands(style, lstate, cs[1..]), AllCommands(style, lstate, AllRules(cs[1..]));
      CallLines(style, lstate, cs[1..], ch);
      match cs[0]
      case RuleCall(d) =>
        OneEntry(style, lstate, d);
        CommandsAppend(style, lstate, [d], AllRules(cs[1..]));
        SameLines(EntryCommands(style, lstate, d), rest, EntryCommands(style, lstate, d), ds, ch);
      case GroupCall(name, _, _, body) =>
        CallLines(style, lstate, body, ch);
        GroupLines(style, lstate, name, body, ch);
        CommandsAppend(style, lstate, AllRules(body), AllRules(cs[1..]));
        SameLines(GroupCommands(name) + CallCommands(style, lstate, body), rest,
                  AllCommands(style, lstate, AllRules(body)), ds, ch);
    }
  }

  // ----- the lines of one rule -----

  /** The chain that packets of direction `d` pass: to and from the machine, or, with `fwd`, through it. */
  function BaseFor(d: Direction, fwd: bool): Base {
    if fwd then (if d == Input then FORWARD else FORW_OUT) else if d == Input then INPUT else OUTPUT
  }

  lemma SameBase(e: Entry, d: Direction)
    requires e.direction.Some?
    ensures BaseFor(d, false) == RuleBase(e) <==> e.direction == Some(d)
    ensures BaseFor(d, false) == ReverseBase(e) <==> e.direction != Some(d)
    ensures BaseFor(d, true) == ForwardBase(e) <==> e.direction == Some(d)
    ensures BaseFor(d, true) == ForwardReverseBase(e) <==> e.direction != Some(d)
  {
    if e.direction.value == d {
      assert e.direction == Some(d);
    } else {
      assert e.direction != Some(d);
    }
  }

  /** The rule is about packets to or from the machine, or about forwarded ones. */
  predicate Wanted(e: Entry, fwd: bool) {
    if fwd then IsForward(e) else IsLocal(e)
  }

  function TargetFor(style: Style, e: Entry, fwd: bool): TargetWord {
    if fwd then ForwardTarget(style, e) else RuleTarget(e)
  }

  function ReplyTarget(e: Entry, fwd: bool): TargetWord {
    if fwd then ForwardReverseTarget(e) else ReverseTarget(e)
  }

  /** What a rule appends to the chain of a group. */
  function RuleLines(style: Style, e: Entry, d: Direction, fwd: bool, group: Option<string>): seq<Line> {
    OptLine(LogBit in e.whatsSet && Wanted(e, fwd) && group.None? && e.direction == Some(d),
            Line(ForwardMatches(e), Log))
    + OptLine(Wanted(e, fwd) && e.groupname == group && e.direction == Some(d),
              Line(ForwardMatches(e), ActionFor(TargetFor(style, e, fwd))))
  }

  /** Replies to packets of the other direction are let back. */
  predicate WantsReply(lstate: bool, e: Entry, d: Direction, fwd: bool) {
    WantsReverse(lstate, e) && (fwd ==> IsForward(e)) && e.direction != Some(d)
  }

  /** What a rule inserts at the head of the chain of a group. */
  function ReplyLines(lstate: bool, e: Entry, d: Direction, fwd: bool, group: Option<string>): seq<Line> {
    OptLine(WantsReply(lstate, e, d, fwd) && e.groupname == group,
            Line(ReverseMatches(e), ActionFor(ReplyTarget(e, fwd))))
  }

  lemma LogChains(e: Entry, d: Direction, fwd: bool, group: Option<string>)
    requires e.direction.Some?
    ensures Chain(None, RuleBase(e)) == Chain(group, BaseFor(d, fwd))
        <==> group.None? && !fwd && e.direction == Some(d)
    ensures Chain(None, ForwardBase(e)) == Chain(group, BaseFor(d, fwd))
        <==> group.None? && fwd && e.direction == Some(d)
  {
    SameBase(e, d);
  }

  lemma LogLine(e: Entry, ch: Chain)
    ensures LineFor(Append(ch, ForwardText(e), LogWord(e.logmsg))) == Line(ForwardMatches(e), Log)
  {
    ReadForward(e);
  }

  lemma FitLog(e: Entry, d: Direction, fwd: bool, group: Option<string>)
    requires e.direction.Some?
    ensures Backs(LogCommands(e), Chain(group, BaseFor(d, fwd)))
         == OptLine(LogBit in e.whatsSet && Wanted(e, fwd) && group.None? && e.direction == Some(d),
                    Line(ForwardMatches(e), Log))
    ensures Fronts(LogCommands(e), Chain(group, BaseFor(d, fwd))) == []
  {
    var log := LogBit in e.whatsSet;
    LogLine(e, Chain(None, RuleBase(e)));
    LogLine(e, Chain(None, ForwardBase(e)));
    LogChains(e, d, fwd, group);
    PairLines(log && IsLocal(e), Append(Chain(None, RuleBase(e)), ForwardText(e), LogWord(e.logmsg)),
              log && IsForward(e), Append(Chain(None, ForwardBase(e)), ForwardText(e), LogWord(e.logmsg)),
              Chain(group, BaseFor(d, fwd)));
  }

  lemma FitLocal(lstate: bool, e: Entry, d: Direction, fwd: bool, group: Option<string>)
    requires e.direction.Some?
    ensures Backs(LocalCommands(lstate, e), Chain(group, BaseFor(d, fwd)))
         == OptLine(!fwd && IsLocal(e) && e.groupname == group && e.direction == Some(d),
                    Line(ForwardMatches(e), ActionFor(RuleTarget(e))))
    ensures Fronts(LocalCommands(lstate, e), Chain(group, BaseFor(d, fwd)))
         == OptLine(!fwd && WantsReply(lstate, e, d, fwd) && e.groupname == group,
                    Line(ReverseMatches(e), ActionFor(ReverseTarget(e))))
  {
    ReadForward(e);
    ReadReverse(e);
    SameBase(e, d);
    PairLines(IsLocal(e), Append(Chain(e.groupname, RuleBase(e)), ForwardText(e), RuleTarget(e)),
              WantsReverse(lstate, e), Insert(Chain(e.groupname, ReverseBase(e)), ReverseText(e), ReverseTarget(e)),
              Chain(group, BaseFor(d, fwd)));
  }

  lemma FitForward(style: Style, lstate: bool, e: Entry, d: Direction, fwd: bool, group: Option<string>)
    requires e.direction.Some?
    ensures Backs(ForwardCommands(style, lstate, e), Chain(group, BaseFor(d, fwd)))
         == OptLine(fwd && IsForward(e) && e.groupname == group && e.direction == Some(d),
                    Line(ForwardMatches(e), ActionFor(ForwardTarget(style, e))))
    ensures Fronts(ForwardCommands(style, lstate, e), Chain(group, BaseFor(d, fwd)))
         == OptLine(fwd && WantsReply(lstate, e, d, fwd) && e.groupname == group,
                    Line(ReverseMatches(e), ActionFor(ForwardReverseTarget(e))))
  {
    ReadForward(e);
    ReadReverse(e);
    SameBase(e, d);
    PairLines(IsForward(e), Append(Chain(e.groupname, ForwardBase(e)), ForwardText(e), ForwardTarget(style, e)),
              IsForward(e) && WantsReverse(lstate, e),
              Insert(Chain(e.groupname, ForwardReverseBase(e)), ReverseText(e), ForwardReverseTarget(e)),
              Chain(group, BaseFor(d, fwd)));
  }

  lemma FitCommands(style: Style, lstate: bool, e: Entry)
    requires !IsNat(e)
    ensures EntryCommands(style, lstate, e)
         == LogCommands(e) + (LocalCommands(lstate, e) + ForwardCommands(style, lstate, e))
  {
    assert LogCommands(e) + [] == LogCommands(e);
  }

  /** Of two commands for the same purpose only one is about this chain. */
  lemma ThreeLines(l: seq<Command>, a: seq<Command>, b: seq<Command>, ch: Chain)
    requires Backs(a, ch) == [] || Backs(b, ch) == []
    ensures Backs(l + (a + b), ch) == Backs(l, ch) + (if Backs(a, ch) == [] then Backs(b, ch) else Backs(a, ch))
  {
    BacksAppend(l, a + b, ch);
    BacksAppend(a, b, ch);
    assert Backs(a, ch) + [] == Backs(a, ch) && [] + Backs(b, ch) == Backs(b, ch);
  }

  lemma FitAppends(style: Style, lstate: bool, e: Entry, d: Direction, fwd: bool, group: Option<string>)
    requires Fit(e)
    ensures Backs(EntryCommands(style, lstate, e), Chain(group, BaseFor(d, fwd))) == RuleLines(style, e, d, fwd, group)
  {
    var ch := Chain(group, BaseFor(d, fwd));
    FitCommands(style, lstate, e);
    FitLog(e, d, fwd, group);
    FitLocal(lstate, e, d, fwd, group);
    FitForward(style, lstate, e, d, fwd, group);
    ThreeLines(LogCommands(e), LocalCommands(lstate, e), ForwardCommands(style, lstate, e), ch);
  }

  lemma FitInserts(style: Style, lstate: bool, e: Entry, d: Direction, fwd: bool, group: Option<string>)
    requires Fit(e)
    ensures Fronts(EntryCommands(style, lstate, e), Chain(group, BaseFor(d, fwd)))
        == ReplyLines(lstate, e, d, fwd, group)
  {
    var ch := Chain(group, BaseFor(d, fwd));
    FitCommands(style, lstate, e);
    FitLog(e, d, fwd, group);
    FitLocal(lstate, e, d, fwd, group);
    FitForward(style, lstate, e, d, fwd, group);
    BacksAppend(LogCommands(e), LocalCommands(lstate, e) + ForwardCommands(style, lstate, e), ch);
    BacksAppend(LocalCommands(lstate, e), ForwardCommands(style, lstate, e), ch);
  }

  lemma FitLines(style: Style, lstate: bool, e: Entry, d: Direction, fwd: bool, group: Option<string>)
    requires Fit(e)
    ensures Backs(EntryCommands(style, lstate, e), Chain(group, BaseFor(d, fwd))) == RuleLines(style, e, d, fwd, group)
    ensures Fronts(EntryCommands(style, lstate, e), Chain(group, BaseFor(d, fwd)))
        == ReplyLines(lstate, e, d, fwd, group)
  {
    FitAppends(style, lstate, e, d, fwd, group);
    FitInserts(style, lstate, e, d, fwd, group);
  }

  /** The lines of several rules: those appended, and those inserted at the head. */
  ghost function AllRuleLines(style: Style, es: seq<Entry>, d: Direction, fwd: bool, group: Option<string>): seq<Line> {
    if es == [] then [] else RuleLines(style, es[0], d, fwd, group) + AllRuleLines(style, es[1..], d, fwd, group)
  }

  ghost function AllReplyLines(lstate: bool, es: seq<Entry>, d: Direction, fwd: bool,
                               group: Option<string>): seq<Line> {
    if es == [] then [] else AllReplyLines(lstate, es[1..], d, fwd, group) + ReplyLines(lstate, es[0], d, fwd, group)
  }

  lemma {:induction false} AllFitLines(style: Style, lstate: bool, es: seq<Entry>, d: Direction, fwd: bool,
                                       group: Option<string>)
    requires forall e | e in es :: Fit(e)
    ensures Backs(AllCommands(style, lstate, es), Chain(group, BaseFor(d, fwd)))
        == AllRuleLines(style, es, d, fwd, group)
    ensures Fronts(AllCommands(style, lstate, es), Chain(group, BaseFor(d, fwd)))
        == AllReplyLines(lstate, es, d, fwd, group)
    decreases |es|
  {
    if es != [] {
      FitLines(style, lstate, es[0], d, fwd, group);
      AllFitLines(style, lstate, es[1..], d, fwd, group);
      BacksAppend(EntryCommands(style, lstate, es[0]), AllCommands(style, lstate, es[1..]),
                  Chain(group, BaseFor(d, fwd)));
    }
  }

  // ----- what the rules do to a packet -----

  /** A rule the results are about: complete, without NAT and without negations that are not printed. */
  ghost predicate Regular(e: Entry, env: Env) {
    Fit(e) && Complete(e) && Printable(e) && WellNamed(e, env)
  }

  ghost predicate AllRegular(es: seq<Entry>, env: Env) {
    forall e | e in es :: Regular(e, env)
  }

  function InGroup(es: seq<Entry>, group: Option<string>): seq<Entry> {
    if es == [] then [] else (if es[0].groupname == group then [es[0]] else []) + InGroup(es[1..], group)
  }

  /** The packet belongs to a connection that is new or known. */
  predicate Tracked(w: View) { w.p.state == New || w.p.state == Established }

  /** Where a rule goes for a packet: the chain of its group for such packets. */
  function Aim(e: Entry, w: View): Chain { Chain(e.subgroup, BaseFor(w.d, w.fwd)) }

  /** The number of jumps a packet sent to FORW_OUT may need there; -1 if it is not sent there. */
  type Jumps = i: int | -1 <= i

  /** What becomes of a packet sent to FORW_OUT, whatever has been jumped to before (`lim` bounds it). */
  ghost predicate Sends(rs: Ruleset, w: View, out: Option<Verdict>, lim: Jumps) {
    w.fwd && w.d == Input ==>
      lim >= 0 && FORW_OUT_CHAIN in rs.chains
      && forall depth: nat | depth >= lim :: Evaluate(rs.chains[FORW_OUT_CHAIN], rs, w.p, w.env, depth) == out
  }

  /** What a rule with a target of its own makes of the packet: input rules that let it through, and in
      the iptables back end the others too, send it to FORW_OUT. */
  function OutcomeOf(style: Style, e: Entry, w: View, out: Option<Verdict>): Option<Verdict> {
    if w.fwd && w.d == Input && (Accepts(e) || style == Iptables) then out else Some(VerdictOf(e))
  }

  /** First match with jumps, a rule with a target of its own giving its outcome, which may be none. */
  function Decided(style: Style, out: Option<Verdict>, es: seq<Entry>, cs: seq<Call>, w: View,
                   depth: nat): Option<Verdict>
    decreases depth, |es|
  {
    if es == [] then None
    else if !Meets(es[0], w) then Decided(style, out, es[1..], cs, w, depth)
    else if es[0].target != Some(ToSubgroup) || es[0].subgroup.None? then
      OrNext(OutcomeOf(style, es[0], w, out), Decided(style, out, es[1..], cs, w, depth))
    else if depth == 0 then Some(Dropped)
    else
      OrNext(Decided(style, out, ChainIn(cs, es[0].subgroup.value), cs, w, depth - 1),
             Decided(style, out, es[1..], cs, w, depth))
  }

  lemma {:induction false} DecidedAppend(style: Style, out: Option<Verdict>, es: seq<Entry>, ds: seq<Entry>,
                                         cs: seq<Call>,
                                         w: View, depth: nat)
    ensures Decided(style, out, es + ds, cs, w, depth)
         == OrNext(Decided(style, out, es, cs, w, depth), Decided(style, out, ds, cs, w, depth))
    decreases |es|
  {
    if es == [] {
      assert es + ds == ds;
    } else {
      assert (es + ds)[0] == es[0] && (es + ds)[1..] == es[1..] + ds;
      DecidedAppend(style, out, es[1..], ds, cs, w, depth);
    }
  }

  lemma DecidedOne(style: Style, out: Option<Verdict>, e: Entry, cs: seq<Call>, w: View, depth: nat)
    ensures Decided(style, out, [e], cs, w, depth)
         == if !Meets(e, w) then None
            else if e.target != Some(ToSubgroup) || e.subgroup.None? then OutcomeOf(style, e, w, out)
            else if depth == 0 then Some(Dropped)
            else Decided(style, out, ChainIn(cs, e.subgroup.value), cs, w, depth - 1)
  {
    assert [e][1..] == [];
  }

  /** The chain a rule jumps to decides as the rules of the group. */
  ghost predicate JumpsWell(style: Style, out: Option<Verdict>, e: Entry, cs: seq<Call>, rs: Ruleset, w: View,
                            depth: nat) {
    e.target == Some(ToSubgroup) && e.direction == Some(w.d) && depth > 0 ==>
      && e.subgroup.Some? && Aim(e, w) in rs.chains
      && Evaluate(rs.chains[Aim(e, w)], rs, w.p, w.env, depth - 1)
         == Decided(style, out, ChainIn(cs, e.subgroup.value), cs, w, depth - 1)
  }

  lemma MatchedRule(style: Style, out: Option<Verdict>, e: Entry, cs: seq<Call>, rs: Ruleset, w: View, lim: Jumps,
                    depth: nat)
    requires Regular(e, w.env) && Meets(e, w) && JumpsWell(style, out, e, cs, rs, w, depth)
    requires Sends(rs, w, out, lim) && depth > lim && MatchAll(ForwardMatches(e), w.p, w.env)
    ensures Evaluate([Line(ForwardMatches(e), ActionFor(TargetFor(style, e, w.fwd)))], rs, w.p, w.env, depth)
         == Decided(style, out, [e], cs, w, depth)
  {
    EvaluateOne(Line(ForwardMatches(e), ActionFor(TargetFor(style, e, w.fwd))), rs, w.p, w.env, depth);
    DecidedOne(style, out, e, cs, w, depth);
    SameBase(e, w.d);
  }

  lemma RuleDecides(style: Style, out: Option<Verdict>, e: Entry, cs: seq<Call>, rs: Ruleset, w: View, lim: Jumps,
                    depth: nat)
    requires Regular(e, w.env) && Tracked(w) && JumpsWell(style, out, e, cs, rs, w, depth)
    requires Sends(rs, w, out, lim) && depth > lim
    ensures Evaluate(RuleLines(style, e, w.d, w.fwd, e.groupname), rs, w.p, w.env, depth)
         == Decided(style, out, [e], cs, w, depth)
  {
    var ms := ForwardMatches(e);
    var l0, l1 := Line(ms, Log), Line(ms, ActionFor(TargetFor(style, e, w.fwd)));
    var b0 := LogBit in e.whatsSet && Wanted(e, w.fwd) && e.groupname.None? && e.direction == Some(w.d);
    var b1 := Wanted(e, w.fwd) && e.direction == Some(w.d);
    EvaluateAppend(OptLine(b0, l0), OptLine(b1, l1), rs, w.p, w.env, depth);
    EvaluateOpt(b0, l0, rs, w.p, w.env, depth);
    EvaluateOpt(b1, l1, rs, w.p, w.env, depth);
    EvaluateOne(l0, rs, w.p, w.env, depth);
    ForwardMeans(e, w.p, w.env);
    assert Meets(e, w) <==> b1 && MatchAll(ms, w.p, w.env);
    if Meets(e, w) {
      MatchedRule(style, out, e, cs, rs, w, lim, depth);
    } else {
      EvaluateOne(l1, rs, w.p, w.env, depth);
      DecidedOne(style, out, e, cs, w, depth);
    }
  }

  lemma OtherRule(style: Style, e: Entry, group: Option<string>, rs: Ruleset, w: View, depth: nat)
    requires e.groupname != group
    ensures Evaluate(RuleLines(style, e, w.d, w.fwd, group), rs, w.p, w.env, depth) == None
  {
    var l0 := Line(ForwardMatches(e), Log);
    var b0 := LogBit in e.whatsSet && Wanted(e, w.fwd) && group.None? && e.direction == Some(w.d);
    assert RuleLines(style, e, w.d, w.fwd, group) == OptLine(b0, l0);
    EvaluateOpt(b0, l0, rs, w.p, w.env, depth);
    EvaluateOne(l0, rs, w.p, w.env, depth);
  }

  lemma {:induction false} RulesDecide(style: Style, out: Option<Verdict>, es: seq<Entry>, group: Option<string>,
                                       cs: seq<Call>, rs: Ruleset, w: View, lim: Jumps, depth: nat)
    requires AllRegular(es, w.env) && Tracked(w) && Sends(rs, w, out, lim) && depth > lim
    requires forall e | e in es && e.groupname == group :: JumpsWell(style, out, e, cs, rs, w, depth)
    ensures Evaluate(AllRuleLines(style, es, w.d, w.fwd, group), rs, w.p, w.env, depth)
         == Decided(style, out, InGroup(es, group), cs, w, depth)
    decreases |es|
  {
    if es != [] {
      var e := es[0];
      RulesDecide(style, out, es[1..], group, cs, rs, w, lim, depth);
      EvaluateAppend(RuleLines(style, e, w.d, w.fwd, group), AllRuleLines(style, es[1..], w.d, w.fwd, group), rs, w.p,
                     w.env,
                     depth);
      assert e in es;
      if e.groupname == group {
        RuleDecides(style, out, e, cs, rs, w, lim, depth);
        DecidedAppend(style, out, [e], InGroup(es[1..], group), cs, w, depth);
      } else {
        OtherRule(style, e, group, rs, w, depth);
        assert [] + InGroup(es[1..], group) == InGroup(es[1..], group);
      }
    }
  }

  // ----- what the reply rules do to it -----

  /** What a reply rule with a target of its own makes of a packet. */
  function BackOutcome(w: View, out: Option<Verdict>): Option<Verdict> {
    if w.fwd && w.d == Input then out else Some(Accepted)
  }

  /** A reply rule of the chain matches the packet, and, if it jumps, so does one where it jumps to. */
  ghost predicate Replied(es: seq<Entry>, group: Option<string>, lstate: bool, w: View, n: nat)
    decreases n, 1
  {
    exists e | e in es :: e.groupname == group && Replies(es, e, lstate, w, n)
  }

  ghost predicate Replies(es: seq<Entry>, e: Entry, lstate: bool, w: View, n: nat)
    decreases n, 0
  {
    && WantsReply(lstate, e, w.d, w.fwd) && MatchAll(ReverseMatches(e), w.p, w.env)
    && (e.target == Some(ToSubgroup) ==> n > 0 && Replied(es, e.subgroup, lstate, w, n - 1))
  }

  /** The chain a reply rule jumps to lets the packet through if one of its reply rules answers. */
  ghost predicate JumpsBack(es: seq<Entry>, e: Entry, lstate: bool, out: Option<Verdict>, rs: Ruleset, w: View, n: nat,
                            depth: nat) {
    e.target == Some(ToSubgroup) && e.direction != Some(w.d) ==>
      && n > 0 && depth > 0 && Aim(e, w) in rs.chains
      && Evaluate(rs.chains[Aim(e, w)], rs, w.p, w.env, depth - 1)
         == if Replied(es, e.subgroup, lstate, w, n - 1) then BackOutcome(w, out) else None
  }

  lemma FinalReply(e: Entry, out: Option<Verdict>, rs: Ruleset, w: View, lim: Jumps, depth: nat)
    requires e.direction.Some? && e.direction != Some(w.d) && e.target != Some(ToSubgroup)
    requires Sends(rs, w, out, lim) && depth > lim && MatchAll(ReverseMatches(e), w.p, w.env)
    ensures Evaluate([Line(ReverseMatches(e), ActionFor(ReplyTarget(e, w.fwd)))], rs, w.p, w.env, depth)
         == BackOutcome(w, out)
  {
    EvaluateOne(Line(ReverseMatches(e), ActionFor(ReplyTarget(e, w.fwd))), rs, w.p, w.env, depth);
    if e.direction.value == Input {
      assert e.direction == Some(Input);
    } else {
      assert e.direction == Some(Output);
    }
  }

  lemma JumpingReply(es: seq<Entry>, e: Entry, lstate: bool, out: Option<Verdict>, rs: Ruleset, w: View, n: nat,
                     depth: nat)
    requires e.direction.Some? && e.direction != Some(w.d) && e.target == Some(ToSubgroup)
    requires JumpsBack(es, e, lstate, out, rs, w, n, depth) && MatchAll(ReverseMatches(e), w.p, w.env)
    ensures Evaluate([Line(ReverseMatches(e), ActionFor(ReplyTarget(e, w.fwd)))], rs, w.p, w.env, depth)
         == if Replied(es, e.subgroup, lstate, w, n - 1) then BackOutcome(w, out) else None
  {
    EvaluateOne(Line(ReverseMatches(e), ActionFor(ReplyTarget(e, w.fwd))), rs, w.p, w.env, depth);
    SameBase(e, w.d);
  }

  lemma ReplyDoes(es: seq<Entry>, e: Entry, group: Option<string>, lstate: bool, out: Option<Verdict>, rs: Ruleset,
                  w: View,
                  n: nat, lim: Jumps, depth: nat)
    requires Regular(e, w.env) && (e.groupname == group ==> JumpsBack(es, e, lstate, out, rs, w, n, depth))
    requires Sends(rs, w, out, lim) && depth > lim
    ensures Evaluate(ReplyLines(lstate, e, w.d, w.fwd, group), rs, w.p, w.env, depth)
         == if e.groupname == group && Replies(es, e, lstate, w, n) then BackOutcome(w, out) else None
  {
    var l := Line(ReverseMatches(e), ActionFor(ReplyTarget(e, w.fwd)));
    var b := WantsReply(lstate, e, w.d, w.fwd) && e.groupname == group;
    EvaluateOpt(b, l, rs, w.p, w.env, depth);
    if !MatchAll(ReverseMatches(e), w.p, w.env) {
      EvaluateOne(l, rs, w.p, w.env, depth);
    } else if b {
      if e.target == Some(ToSubgroup) {
        JumpingReply(es, e, lstate, out, rs, w, n, depth);
      } else {
        FinalReply(e, out, rs, w, lim, depth);
      }
    }
  }

  ghost predicate AnyReplies(ds: seq<Entry>, es: seq<Entry>, group: Option<string>, lstate: bool, w: View, n: nat) {
    exists e | e in ds :: e.groupname == group && Replies(es, e, lstate, w, n)
  }

  lemma {:induction false} RepliesDo(ds: seq<Entry>, es: seq<Entry>, group: Option<string>, lstate: bool,
                                     out: Option<Verdict>,
                                     rs: Ruleset, w: View, n: nat, lim: Jumps, depth: nat)
    requires AllRegular(ds, w.env) && Sends(rs, w, out, lim) && depth > lim
    requires forall e | e in ds && e.groupname == group :: JumpsBack(es, e, lstate, out, rs, w, n, depth)
    ensures Evaluate(AllReplyLines(lstate, ds, w.d, w.fwd, group), rs, w.p, w.env, depth)
         == if AnyReplies(ds, es, group, lstate, w, n) then BackOutcome(w, out) else None
    decreases |ds|
  {
    if ds != [] {
      var e := ds[0];
      assert e in ds;
      RepliesDo(ds[1..], es, group, lstate, out, rs, w, n, lim, depth);
      ReplyDoes(es, e, group, lstate, out, rs, w, n, lim, depth);
      EvaluateAppend(AllReplyLines(lstate, ds[1..], w.d, w.fwd, group), ReplyLines(lstate, e, w.d, w.fwd, group), rs,
                     w.p,
                     w.env, depth);
      AnyFirst(ds, es, group, lstate, w, n);
    }
  }

  lemma AnyFirst(ds: seq<Entry>, es: seq<Entry>, group: Option<string>, lstate: bool, w: View, n: nat)
    requires ds != []
    ensures AnyReplies(ds, es, group, lstate, w, n)
       <==> (ds[0].groupname == group && Replies(es, ds[0], lstate, w, n))
            || AnyReplies(ds[1..], es, group, lstate, w, n)
  {
    assert ds == [ds[0]] + ds[1..];
  }

  /** No reply rule that accepts matches a packet that opens a connection. */
  lemma {:induction false} NewIsUnanswered(es: seq<Entry>, group: Option<string>, lstate: bool, w: View, n: nat)
    requires AllRegular(es, w.env) && w.p.state == New
    ensures !Replied(es, group, lstate, w, n)
    decreases n
  {
    forall e | e in es && e.groupname == group ensures !Replies(es, e, lstate, w, n) {
      assert Regular(e, w.env);
      if WantsReply(lstate, e, w.d, w.fwd) {
        if e.target != Some(ToSubgroup) {
          ReverseMeans(e, w.p, w.env);
        } else if n > 0 {
          NewIsUnanswered(es, e.subgroup, lstate, w, n - 1);
        }
      }
    }
  }

  // ----- chains of rules of one direction -----

  lemma {:induction false} NoReplies(lstate: bool, es: seq<Entry>, d: Direction, fwd: bool, group: Option<string>)
    requires forall e | e in es && e.groupname == group :: e.direction == Some(d)
    ensures AllReplyLines(lstate, es, d, fwd, group) == []
    decreases |es|
  {
    if es != [] {
      assert es[0] in es;
      NoReplies(lstate, es[1..], d, fwd, group);
    }
  }

  lemma {:induction false} NoRules(style: Style, es: seq<Entry>, d: Direction, fwd: bool, group: Option<string>)
    requires group.Some? && forall e | e in es && e.groupname == group :: e.direction != Some(d)
    ensures AllRuleLines(style, es, d, fwd, group) == []
    decreases |es|
  {
    if es != [] {
      assert es[0] in es;
      NoRules(style, es[1..], d, fwd, group);
    }
  }
}
