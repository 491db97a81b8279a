/** What the chains hold once a whole script has been loaded. */
module LoadedScript {
  import opened FilterSpec
  import opened FilterEntry
  import opened IptablesRules
  import opened Netfilter
  import opened RuleMeaning

  // ----- loading rules in general -----

  function ActionFor(t: TargetWord): Action {
    match t
    case AcceptWord => Decide(Accepted)
    case DropWord => Decide(Dropped)
    case RejectWord => Decide(Rejected)
    case ChainWord(c) => Jump(c)
    case _ => Log
  }

  function LineFor(c: Command): Line
    requires c.Append? || c.Insert?
  {
    Line(match Read(c.rule, false) case Some(ms) => ms case None => [], ActionFor(c.target))
  }

  /** The command adds a readable rule to one of the chains `keys`, with a target the loader knows. */
  ghost predicate Good(c: Command, keys: set<Chain>) {
    && (c.Append? || c.Insert?) && c.chain in keys && Read(c.rule, false).Some?
    && !c.target.MasqueradeWord? && !c.target.RedirectWord?
    && (c.target.ChainWord? ==> c.target.chain in keys && c.target.chain !in BUILTIN)
  }

  ghost predicate Loadable(cs: seq<Command>, keys: set<Chain>) {
    forall c | c in cs :: Good(c, keys)
  }

  /** The lines appended to a chain, and those inserted at its head, the last one first. */
  ghost function Backs(cs: seq<Command>, ch: Chain): seq<Line> {
    if cs == [] then []
    else (if cs[0].Append? && cs[0].chain == ch then [LineFor(cs[0])] else []) + Backs(cs[1..], ch)
  }

  ghost function Fronts(cs: seq<Command>, ch: Chain): seq<Line> {
    if cs == [] then []
    else Fronts(cs[1..], ch) + (if cs[0].Insert? && cs[0].chain == ch then [LineFor(cs[0])] else [])
  }

  ghost function Grown(cs: seq<Command>, rs: Ruleset): Ruleset {
    rs.(chains := map ch | ch in rs.chains :: Fronts(cs, ch) + rs.chains[ch] + Backs(cs, ch))
  }

  lemma LoadOne(c: Command, rs: Ruleset)
    requires Good(c, rs.chains.Keys)
    ensures Execute(c, rs) == Some(Grown([c], rs))
  {
    assert [c][1..] == [];
    var rs' := Grown([c], rs);
    assert LineOf(c.rule, c.target, rs) == Some(LineFor(c));
    forall ch | ch in rs.chains
      ensures rs'.chains[ch]
          == if ch != c.chain then rs.chains[ch] else if c.Insert? then [LineFor(c)] + rs.chains[ch]
              else rs.chains[ch] + [LineFor(c)]
    {
      assert [] + rs.chains[ch] + [] == rs.chains[ch];
      assert [] + rs.chains[ch] == rs.chains[ch];
      assert Fronts([c], ch) == if c.Insert? && c.chain == ch then [LineFor(c)] else [];
      assert Backs([c], ch) == if c.Append? && c.chain == ch then [LineFor(c)] else [];
    }
    assert rs'.chains
        == rs.chains[c.chain := if c.Insert? then [LineFor(c)] + rs.chains[c.chain]
                     else rs.chains[c.chain] + [LineFor(c)]];
  }

  lemma GrownTwice(c: Command, cs: seq<Command>, rs: Ruleset)
    ensures Grown(cs, Grown([c], rs)) == Grown([c] + cs, rs)
  {
    var a, b := Grown(cs, Grown([c], rs)), Grown([c] + cs, rs);
    forall ch | ch in rs.chains ensures a.chains[ch] == b.chains[ch] {
      var f, k := Fronts([c], ch), Backs([c], ch);
      BacksAppend([c], cs, ch);
      Nest(Fronts(cs, ch), f, rs.chains[ch], k, Backs(cs, ch));
    }
  }

  lemma Nest(a: seq<Line>, b: seq<Line>, c: seq<Line>, d: seq<Line>, e: seq<Line>)
    ensures a + (b + c + d) + e == (a + b) + c + (d + e)
  {
  }

  lemma {:induction false} LoadLines(cs: seq<Command>, rs: Ruleset)
    requires Loadable(cs, rs.chains.Keys)
    ensures Load(cs, rs) == Some(Grown(cs, rs))
    decreases |cs|
  {
    if cs == [] {
      forall ch | ch in rs.chains ensures [] + rs.chains[ch] + [] == rs.chains[ch] {}
      assert Grown([], rs).chains == rs.chains;
    } else {
      assert cs == [cs[0]] + cs[1..];
      LoadOne(cs[0], rs);
      assert Grown([cs[0]], rs).chains.Keys == rs.chains.Keys;
      LoadLines(cs[1..], Grown([cs[0]], rs));
      GrownTwice(cs[0], cs[1..], rs);
    }
  }

  lemma {:induction false} BacksAppend(cs: seq<Command>, ds: seq<Command>, ch: Chain)
    ensures Backs(cs + ds, ch) == Backs(cs, ch) + Backs(ds, ch)
    ensures Fronts(cs + ds, ch) == Fronts(ds, ch) + Fronts(cs, ch)
    decreases |cs|
  {
    if cs == [] {
      assert cs + ds == ds;
    } else {
      assert (cs + ds)[0] == cs[0] && (cs + ds)[1..] == cs[1..] + ds;
      BacksAppend(cs[1..], ds, ch);
      SeqAssoc(if cs[0].Append? && cs[0].chain == ch then [LineFor(cs[0])] else [], Backs(cs[1..], ch), Backs(ds, ch));
      SeqAssoc(Fronts(ds, ch), Fronts(cs[1..], ch),
               if cs[0].Insert? && cs[0].chain == ch then [LineFor(cs[0])] else []);
    }
  }

  lemma BacksOne(c: Command, ch: Chain)
    ensures Backs([c], ch) == if c.Append? && c.chain == ch then [LineFor(c)] else []
    ensures Fronts([c], ch) == if c.Insert? && c.chain == ch then [LineFor(c)] else []
  {
    assert [c][1..] == [];
  }

  // ----- the lines of one entry -----

  /** An entry the main results are about: outside groups, without NAT, passed by `checkmatch`, and
      without the two negations that the back ends do not print. */
  predicate Plain(e: Entry) {
    && e.groupname.None? && e.subgroup.None?
    && (e.target == Some(Final(Accept)) || e.target == Some(Final(Drop)) || e.target == Some(Final(Reject)))
    && Complete(e) && Printable(e)
  }

  function VerdictOf(e: Entry): Verdict {
    match e.target
    case Some(Final(Drop)) => Dropped
    case Some(Final(Reject)) => Rejected
    case _ => Accepted
  }

  const FORW_OUT_CHAIN := Chain(None, FORW_OUT)

  function ForwardAction(style: Style, e: Entry): Action {
    if e.direction == Some(Input) && (Accepts(e) || style == Iptables) then Jump(FORW_OUT_CHAIN)
      else Decide(VerdictOf(e))
  }

  function OptLine(b: bool, l: Line): seq<Line> { if b then [l] else [] }

  /** The lines a plain entry appends to a chain: one that logs, one of its own, one for forwarded packets. */
  function Added(style: Style, e: Entry, base: Base): seq<Line> {
    OptLine(LogBit in e.whatsSet && ((base == RuleBase(e) && IsLocal(e)) || (base == ForwardBase(e) && IsForward(e))),
            Line(ForwardMatches(e), Log))
    + (OptLine(base == RuleBase(e) && IsLocal(e), Line(ForwardMatches(e), Decide(VerdictOf(e))))
       + OptLine(base == ForwardBase(e) && IsForward(e), Line(ForwardMatches(e), ForwardAction(style, e))))
  }

  /** The lines it inserts at the head of a chain, for replies. */
  function InsertedFor(lstate: bool, e: Entry, base: Base): seq<Line> {
    OptLine(base == ForwardReverseBase(e) && IsForward(e) && WantsReverse(lstate, e),
            Line(ReverseMatches(e), if e.direction == Some(Output) then Jump(FORW_OUT_CHAIN) else Decide(Accepted)))
    + OptLine(base == ReverseBase(e) && WantsReverse(lstate, e), Line(ReverseMatches(e), Decide(Accepted)))
  }

  lemma WhenLines(b: bool, c: Command, ch: Chain)
    ensures Backs(When(b, c), ch) == if b && c.Append? && c.chain == ch then [LineFor(c)] else []
    ensures Fronts(When(b, c), ch) == if b && c.Insert? && c.chain == ch then [LineFor(c)] else []
  {
    BacksOne(c, ch);
  }

  /** The lines the six possible commands of a plain entry stand for. */
  lemma CommandLines(style: Style, e: Entry, ch: Chain)
    requires Plain(e)
    ensures LineFor(Append(ch, ForwardText(e), LogWord(e.logmsg))) == Line(ForwardMatches(e), Log)
    ensures LineFor(Append(ch, ForwardText(e), RuleTarget(e))) == Line(ForwardMatches(e), Decide(VerdictOf(e)))
    ensures LineFor(Append(ch, ForwardText(e), ForwardTarget(style, e)))
        == Line(ForwardMatches(e), ForwardAction(style, e))
    ensures LineFor(Insert(ch, ReverseText(e), ReverseTarget(e))) == Line(ReverseMatches(e), Decide(Accepted))
    ensures LineFor(Insert(ch, ReverseText(e), ForwardReverseTarget(e)))
         == Line(ReverseMatches(e), if e.direction == Some(Output) then Jump(FORW_OUT_CHAIN) else Decide(Accepted))
  {
    ReadForward(e);
    ReadReverse(e);
  }

  /** Two optional commands: what they add to a chain. */
  lemma PairLines(b1: bool, c: Command, b2: bool, d: Command, ch: Chain)
    ensures (c.Append? && d.Append?) ==>
      && Backs(When(b1, c) + When(b2, d), ch)
          == OptLine(b1 && c.chain == ch, LineFor(c)) + OptLine(b2 && d.chain == ch, LineFor(d))
      && Fronts(When(b1, c) + When(b2, d), ch) == []
    ensures (c.Append? && d.Insert?) ==>
      && Backs(When(b1, c) + When(b2, d), ch) == OptLine(b1 && c.chain == ch, LineFor(c))
      && Fronts(When(b1, c) + When(b2, d), ch) == OptLine(b2 && d.chain == ch, LineFor(d))
  {
    BacksAppend(When(b1, c), When(b2, d), ch);
    WhenLines(b1, c, ch);
    WhenLines(b2, d, ch);
  }

  lemma LogLines(e: Entry, base: Base)
    requires Plain(e)
    ensures Backs(LogCommands(e), Chain(None, base))
         == OptLine(LogBit in e.whatsSet
             && ((base == RuleBase(e) && IsLocal(e)) || (base == ForwardBase(e) && IsForward(e))),
             Line(ForwardMatches(e), Log))
    ensures Fronts(LogCommands(e), Chain(None, base)) == []
  {
    var b := LogBit in e.whatsSet;
    CommandLines(Restore, e, Chain(None, RuleBase(e)));
    CommandLines(Restore, e, Chain(None, ForwardBase(e)));
    PairLines(b && IsLocal(e), Append(Chain(None, RuleBase(e)), ForwardText(e), LogWord(e.logmsg)),
              b && IsForward(e), Append(Chain(None, ForwardBase(e)), ForwardText(e), LogWord(e.logmsg)),
              Chain(None, base));
  }

  lemma LocalLines(lstate: bool, e: Entry, base: Base)
    requires Plain(e)
    ensures Backs(LocalCommands(lstate, e), Chain(None, base))
         == OptLine(base == RuleBase(e) && IsLocal(e), Line(ForwardMatches(e), Decide(VerdictOf(e))))
    ensures Fronts(LocalCommands(lstate, e), Chain(None, base))
         == OptLine(base == ReverseBase(e) && WantsReverse(lstate, e), Line(ReverseMatches(e), Decide(Accepted)))
  {
    CommandLines(Restore, e, Chain(None, RuleBase(e)));
    CommandLines(Restore, e, Chain(None, ReverseBase(e)));
    PairLines(IsLocal(e), Append(Chain(None, RuleBase(e)), ForwardText(e), RuleTarget(e)),
              WantsReverse(lstate, e), Insert(Chain(None, ReverseBase(e)), ReverseText(e), ReverseTarget(e)),
              Chain(None, base));
  }

  lemma ForwardLines(style: Style, lstate: bool, e: Entry, base: Base)
    requires Plain(e)
    ensures Backs(ForwardCommands(style, lstate, e), Chain(None, base))
         == OptLine(base == ForwardBase(e) && IsForward(e), Line(ForwardMatches(e), ForwardAction(style, e)))
    ensures Fronts(ForwardCommands(style, lstate, e), Chain(None, base))
         == OptLine(base == ForwardReverseBase(e) && IsForward(e) && WantsReverse(lstate, e),
                    Line(ReverseMatches(e),
                         if e.direction == Some(Output) then Jump(FORW_OUT_CHAIN) else Decide(Accepted)))
  {
    CommandLines(style, e, Chain(None, ForwardBase(e)));
    CommandLines(style, e, Chain(None, ForwardReverseBase(e)));
    PairLines(IsForward(e), Append(Chain(None, ForwardBase(e)), ForwardText(e), ForwardTarget(style, e)),
              IsForward(e) && WantsReverse(lstate, e),
              Insert(Chain(None, ForwardReverseBase(e)), ReverseText(e), ForwardReverseTarget(e)), Chain(None, base));
  }

  lemma PlainCommands(style: Style, lstate: bool, e: Entry)
    requires Plain(e)
    ensures EntryCommands(style, lstate, e)
        == LogCommands(e) + (LocalCommands(lstate, e) + ForwardCommands(style, lstate, e))
  {
    assert LogCommands(e) + [] == LogCommands(e);
  }

  lemma ThreeParts(l: seq<Command>, a: seq<Command>, b: seq<Command>, ch: Chain)
    ensures Backs(l + (a + b), ch) == Backs(l, ch) + (Backs(a, ch) + Backs(b, ch))
    ensures Fronts(l + (a + b), ch) == (Fronts(b, ch) + Fronts(a, ch)) + Fronts(l, ch)
  {
    BacksAppend(l, a + b, ch);
    BacksAppend(a, b, ch);
  }

  /** What the commands of one entry append to a chain, and what they insert at its head. */
  lemma EntryLines(style: Style, lstate: bool, e: Entry, base: Base)
    requires Plain(e)
    ensures Backs(EntryCommands(style, lstate, e), Chain(None, base)) == Added(style, e, base)
    ensures Fronts(EntryCommands(style, lstate, e), Chain(None, base)) == InsertedFor(lstate, e, base)
  {
    PlainCommands(style, lstate, e);
    ThreeParts(LogCommands(e), LocalCommands(lstate, e), ForwardCommands(style, lstate, e), Chain(None, base));
    LogLines(e, base);
    LocalLines(lstate, e, base);
    ForwardLines(style, lstate, e, base);
    assert InsertedFor(lstate, e, base) + [] == InsertedFor(lstate, e, base);
  }

  // ----- the whole script -----

  ghost predicate AllPlain(es: seq<Entry>) {
    forall e | e in es :: Plain(e)
  }

  function InvalidLine(): Line {
    Line([Match(false, StateIn({Invalid}))], Jump(INVALID_CHAIN))
  }

  /** The ruleset after the skeleton, whatever was loaded before. */
  function AfterSkeleton(policy: map<Base, Verdict>): Ruleset {
    Ruleset(map[Chain(None, INPUT) := [InvalidLine()], Chain(None, OUTPUT) := [InvalidLine()],
                Chain(None, FORWARD) := [InvalidLine()],
                FORW_OUT_CHAIN := [], INVALID_CHAIN := [Line([], Decide(Dropped))]],
            policy[INPUT := Dropped][OUTPUT := Dropped][FORWARD := Dropped])
  }

  lemma ReadInvalid()
    ensures Read(InvalidText(), false) == Some([Match(false, StateIn({Invalid}))])
  {
    ReadStates({Invalid}, [JumpOpt]);
    ReadEnd();
    assert [Match(false, StateIn({Invalid}))] + [] == [Match(false, StateIn({Invalid}))];
  }

  lemma LoadCons(c: Command, cs: seq<Command>, rs: Ruleset)
    ensures Load([c] + cs, rs) == match Execute(c, rs) case None => None case Some(rs') => Load(cs, rs')
  {
    assert ([c] + cs)[0] == c && ([c] + cs)[1..] == cs;
  }

  function SkeletonChains(): seq<Command> {
    [NewChain(FORW_OUT_CHAIN), NewChain(INVALID_CHAIN), Append(INVALID_CHAIN, [JumpOpt], DropWord)]
  }

  function SkeletonChecks(): seq<Command> {
    [Insert(Chain(None, INPUT), InvalidText(), ChainWord(INVALID_CHAIN)),
     Insert(Chain(None, OUTPUT), InvalidText(), ChainWord(INVALID_CHAIN)),
     Insert(Chain(None, FORWARD), InvalidText(), ChainWord(INVALID_CHAIN))]
  }

  lemma SkeletonParts(style: Style)
    ensures Skeleton(style) == SkeletonHead(style) + (SkeletonChains() + SkeletonChecks())
  {
    SeqAssoc(SkeletonHead(style), SkeletonChains(), SkeletonChecks());
  }

  lemma LoadSkeleton(style: Style, rs: Ruleset)
    ensures Load(Skeleton(style), rs) == Some(AfterSkeleton(rs.policy))
  {
    var p := rs.policy[INPUT := Dropped][OUTPUT := Dropped][FORWARD := Dropped];
    SkeletonParts(style);
    LoadHead(style, rs);
    LoadBody(p);
    LoadAppend(SkeletonHead(style), SkeletonChains() + SkeletonChecks(), rs);
    assert AfterSkeleton(rs.policy) == Ruleset(AfterSkeleton(p).chains, p);
  }

  lemma LoadBody(p: map<Base, Verdict>)
    ensures Load(SkeletonChains() + SkeletonChecks(), Ruleset(EMPTIED, p)) == Some(Ruleset(AfterSkeleton(p).chains, p))
  {
    var c := EMPTIED[FORW_OUT_CHAIN := []][INVALID_CHAIN := [Line([], Decide(Dropped))]];
    LoadChains(p);
    LoadChecks(c, p);
    LoadAppend(SkeletonChains(), SkeletonChecks(), Ruleset(EMPTIED, p));
    SkeletonChainsAre(p);
  }

  lemma SkeletonChainsAre(p: map<Base, Verdict>)
    ensures var c := EMPTIED[FORW_OUT_CHAIN := []][INVALID_CHAIN := [Line([], Decide(Dropped))]];
            AfterSkeleton(p).chains
            == c[Chain(None, INPUT) := [InvalidLine()]][Chain(None, OUTPUT) := [InvalidLine()]][Chain(None,
                FORWARD) := [InvalidLine()]]
  {
  }

  function SkeletonHead(style: Style): seq<Command> {
    if style == Iptables then [DropPolicy(INPUT), DropPolicy(OUTPUT), DropPolicy(FORWARD), Flush]
    else [Table(false), DropPolicy(INPUT), DropPolicy(OUTPUT), DropPolicy(FORWARD)]
  }

  lemma LoadHead(style: Style, rs: Ruleset)
    ensures Load(SkeletonHead(style), rs)
        == Some(Ruleset(EMPTIED, rs.policy[INPUT := Dropped][OUTPUT := Dropped][FORWARD := Dropped]))
  {
    var d1, d2, d3 := DropPolicy(INPUT), DropPolicy(OUTPUT), DropPolicy(FORWARD);
    var p1 := rs.policy[INPUT := Dropped];
    var p2 := p1[OUTPUT := Dropped];
    var p3 := p2[FORWARD := Dropped];
    if style == Iptables {
      LoadThree(d1, d2, d3, rs, rs.(policy := p1), rs.(policy := p2), rs.(policy := p3));
      LoadAppend([d1, d2, d3], [Flush], rs);
      LoadCons(Flush, [], rs.(policy := p3));
      assert [d1, d2, d3] + [Flush] == SkeletonHead(style) && [Flush] == [Flush] + [];
    } else {
      var r1 := Ruleset(EMPTIED, rs.policy);
      LoadCons(Table(false), [d1, d2, d3], rs);
      LoadThree(d1, d2, d3, r1, r1.(policy := p1), r1.(policy := p2), r1.(policy := p3));
      assert [Table(false)] + [d1, d2, d3] == SkeletonHead(style);
    }
  }

  /** The chains that are created, and the one rule that drops invalid packets. */
  lemma LoadChains(p: map<Base, Verdict>)
    ensures Load(SkeletonChains(), Ruleset(EMPTIED, p))
         == Some(Ruleset(EMPTIED[FORW_OUT_CHAIN := []][INVALID_CHAIN := [Line([], Decide(Dropped))]], p))
  {
    var drop := Append(INVALID_CHAIN, [JumpOpt], DropWord);
    var c1 := EMPTIED[FORW_OUT_CHAIN := []];
    var c2 := c1[INVALID_CHAIN := []];
    var c3 := c2[INVALID_CHAIN := [Line([], Decide(Dropped))]];
    ReadEnd();
    assert [] + [Line([], Decide(Dropped))] == [Line([], Decide(Dropped))];
    assert LineOf([JumpOpt], DropWord, Ruleset(c2, p)) == Some(Line([], Decide(Dropped)));
    LoadThree(NewChain(FORW_OUT_CHAIN), NewChain(INVALID_CHAIN), drop, Ruleset(EMPTIED, p), Ruleset(c1, p),
              Ruleset(c2, p), Ruleset(c3, p));
    assert c3 == c1[INVALID_CHAIN := [Line([], Decide(Dropped))]];
  }

  /** The checks at the head of the built-in chains. */
  lemma LoadChecks(c: map<Chain, seq<Line>>, p: map<Base, Verdict>)
    requires INVALID_CHAIN in c && (forall ch | ch in BUILTIN :: ch in c && c[ch] == [])
    ensures Load(SkeletonChecks(), Ruleset(c, p))
         == Some(Ruleset(c[Chain(None, INPUT) := [InvalidLine()]][Chain(None, OUTPUT) := [InvalidLine()]][Chain(None,
             FORWARD) := [InvalidLine()]], p))
  {
    var inv := ChainWord(INVALID_CHAIN);
    var i1 := Insert(Chain(None, INPUT), InvalidText(), inv);
    var i2 := Insert(Chain(None, OUTPUT), InvalidText(), inv);
    var i3 := Insert(Chain(None, FORWARD), InvalidText(), inv);
    assert BUILTIN[0] == Chain(None, INPUT) && BUILTIN[1] == Chain(None, OUTPUT) && BUILTIN[2] == Chain(None, FORWARD);
    var c1 := c[Chain(None, INPUT) := [InvalidLine()]];
    var c2 := c1[Chain(None, OUTPUT) := [InvalidLine()]];
    var c3 := c2[Chain(None, FORWARD) := [InvalidLine()]];
    InsertInvalid(Ruleset(c, p), INPUT);
    InsertInvalid(Ruleset(c1, p), OUTPUT);
    InsertInvalid(Ruleset(c2, p), FORWARD);
    LoadThree(i1, i2, i3, Ruleset(c, p), Ruleset(c1, p), Ruleset(c2, p), Ruleset(c3, p));
  }

  lemma LoadThree(a: Command, b: Command, c: Command, r0: Ruleset, r1: Ruleset, r2: Ruleset, r3: Ruleset)
    requires Execute(a, r0) == Some(r1) && Execute(b, r1) == Some(r2) && Execute(c, r2) == Some(r3)
    ensures Load([a, b, c], r0) == Some(r3)
  {
    LoadCons(a, [b, c], r0);
    LoadCons(b, [c], r1);
    LoadCons(c, [], r2);
    assert [a, b, c] == [a] + [b, c] && [b, c] == [b] + [c] && [c] == [c] + [];
  }

  lemma InsertInvalid(rs: Ruleset, base: Base)
    requires INVALID_CHAIN in rs.chains && Chain(None, base) in rs.chains && rs.chains[Chain(None, base)] == []
    ensures Execute(Insert(Chain(None, base), InvalidText(), ChainWord(INVALID_CHAIN)), rs)
         == Some(rs.(chains := rs.chains[Chain(None, base) := [InvalidLine()]]))
  {
    ReadInvalid();
    assert [InvalidLine()] + [] == [InvalidLine()];
  }

  /** The rules of light state mode. */
  function StateMatches(tcp: bool): seq<Match> {
    [Match(false, ProtoIs(if tcp then "tcp" else "udp"))] + (if tcp then [Match(true, IsSyn)] else [])
        + [Match(false, StateIn({Established}))]
  }

  lemma ReadStateTexts()
    ensures Read(TcpStateText(), false) == Some(StateMatches(true))
    ensures Read(UdpStateText(), false) == Some(StateMatches(false))
  {
    var r := [JumpOpt];
    var st := StatesText({Established}) + r;
    ReadEnd();
    ReadStates({Established}, r);
    var m := Match(false, StateIn({Established}));
    assert [m] + [] == [m];
    ReadNotSyn(st);
    ReadOption(ProtoOpt, Word("tcp"), [Bang, SynOpt] + st, false, ProtoIs("tcp"));
    assert TcpStateText() == [ProtoOpt, Word("tcp")] + ([Bang, SynOpt] + st);
    assert StateMatches(true) == [Match(false, ProtoIs("tcp"))] + ([Match(true, IsSyn)] + [m]);
    ReadOption(ProtoOpt, Word("udp"), st, false, ProtoIs("udp"));
    assert UdpStateText() == [ProtoOpt, Word("udp")] + st;
    assert StateMatches(false) == [Match(false, ProtoIs("udp"))] + [m];
  }

  /** The lines of light state mode at the head of each built-in chain. */
  function StateLines(lstate: bool, feat: set<nat>, base: Base): seq<Line> {
    if !lstate || base == FORW_OUT then []
    else OptLine(A_UDP in feat, Line(StateMatches(false), Decide(Accepted)))
         + OptLine(A_TCP in feat, Line(StateMatches(true), Decide(Accepted)))
  }

  function AllAdded(style: Style, es: seq<Entry>, base: Base): seq<Line> {
    if es == [] then [] else Added(style, es[0], base) + AllAdded(style, es[1..], base)
  }

  function AllInserted(lstate: bool, es: seq<Entry>, base: Base): seq<Line> {
    if es == [] then [] else AllInserted(lstate, es[1..], base) + InsertedFor(lstate, es[0], base)
  }

  lemma {:induction false} AllLines(style: Style, lstate: bool, es: seq<Entry>, base: Base)
    requires AllPlain(es)
    ensures Backs(AllCommands(style, lstate, es), Chain(None, base)) == AllAdded(style, es, base)
    ensures Fronts(AllCommands(style, lstate, es), Chain(None, base)) == AllInserted(lstate, es, base)
  {
    if es != [] {
      EntryLines(style, lstate, es[0], base);
      AllLines(style, lstate, es[1..], base);
      BacksAppend(EntryCommands(style, lstate, es[0]), AllCommands(style, lstate, es[1..]), Chain(None, base));
    }
  }

  // ----- loading the rules -----

  /** The chains that rules are added to. */
  const RULE_CHAINS := {Chain(None, INPUT), Chain(None, OUTPUT), Chain(None, FORWARD), FORW_OUT_CHAIN}

  lemma CommandsGood(style: Style, e: Entry, base: Base)
    requires Plain(e) && Chain(None, base) in RULE_CHAINS
    ensures Good(Append(Chain(None, base), ForwardText(e), LogWord(e.logmsg)), RULE_CHAINS)
    ensures Good(Append(Chain(None, base), ForwardText(e), RuleTarget(e)), RULE_CHAINS)
    ensures Good(Append(Chain(None, base), ForwardText(e), ForwardTarget(style, e)), RULE_CHAINS)
    ensures Good(Insert(Chain(None, base), ReverseText(e), ReverseTarget(e)), RULE_CHAINS)
    ensures Good(Insert(Chain(None, base), ReverseText(e), ForwardReverseTarget(e)), RULE_CHAINS)
  {
    ReadForward(e);
    ReadReverse(e);
  }

  lemma LoadableWhen(b1: bool, c: Command, b2: bool, d: Command, keys: set<Chain>)
    requires Good(c, keys) && Good(d, keys)
    ensures Loadable(When(b1, c) + When(b2, d), keys)
  {
  }

  lemma LoadableAppend(cs: seq<Command>, ds: seq<Command>, keys: set<Chain>)
    requires Loadable(cs, keys) && Loadable(ds, keys)
    ensures Loadable(cs + ds, keys)
  {
  }

  lemma EntryLoadable(style: Style, lstate: bool, e: Entry)
    requires Plain(e)
    ensures Loadable(EntryCommands(style, lstate, e), RULE_CHAINS)
  {
    PlainCommands(style, lstate, e);
    CommandsGood(style, e, RuleBase(e));
    CommandsGood(style, e, ReverseBase(e));
    CommandsGood(style, e, ForwardBase(e));
    CommandsGood(style, e, ForwardReverseBase(e));
    var b := LogBit in e.whatsSet;
    LoadableWhen(b && IsLocal(e), Append(Chain(None, RuleBase(e)), ForwardText(e), LogWord(e.logmsg)),
                 b && IsForward(e), Append(Chain(None, ForwardBase(e)), ForwardText(e), LogWord(e.logmsg)),
                 RULE_CHAINS);
    LoadableWhen(IsLocal(e), Append(Chain(None, RuleBase(e)), ForwardText(e), RuleTarget(e)),
                 WantsReverse(lstate, e), Insert(Chain(None, ReverseBase(e)), ReverseText(e), ReverseTarget(e)),
                 RULE_CHAINS);
    LoadableWhen(IsForward(e), Append(Chain(None, ForwardBase(e)), ForwardText(e), ForwardTarget(style, e)),
                 IsForward(e) && WantsReverse(lstate, e),
                 Insert(Chain(None, ForwardReverseBase(e)), ReverseText(e), ForwardReverseTarget(e)), RULE_CHAINS);
    LoadableAppend(LocalCommands(lstate, e), ForwardCommands(style, lstate, e), RULE_CHAINS);
    LoadableAppend(LogCommands(e), LocalCommands(lstate, e) + ForwardCommands(style, lstate, e), RULE_CHAINS);
  }

  lemma {:induction false} AllLoadable(style: Style, lstate: bool, es: seq<Entry>)
    requires AllPlain(es)
    ensures Loadable(AllCommands(style, lstate, es), RULE_CHAINS)
  {
    if es != [] {
      EntryLoadable(style, lstate, es[0]);
      AllLoadable(style, lstate, es[1..]);
      LoadableAppend(EntryCommands(style, lstate, es[0]), AllCommands(style, lstate, es[1..]), RULE_CHAINS);
    }
  }

  lemma StateRulesLoadable(lstate: bool, feat: set<nat>)
    ensures Loadable(StateRules(lstate, feat), RULE_CHAINS)
  {
    ReadStateTexts();
    assert Loadable(InsertAll(TcpStateText()), RULE_CHAINS);
    assert Loadable(InsertAll(UdpStateText()), RULE_CHAINS);
  }

  lemma LoadableMore(cs: seq<Command>, keys: set<Chain>, more: set<Chain>)
    requires Loadable(cs, keys) && keys <= more
    ensures Loadable(cs, more)
  {
    forall c | c in cs ensures Good(c, more) {
      assert Good(c, keys);
    }
  }

  lemma InsertAllLines(rule: Text, base: Base)
    ensures Backs(InsertAll(rule), Chain(None, base)) == []
    ensures Fronts(InsertAll(rule), Chain(None, base))
         == OptLine(base == INPUT || base == OUTPUT || base == FORWARD,
                    LineFor(Insert(Chain(None, base), rule, AcceptWord)))
  {
    var ch := Chain(None, base);
    var a, b, c := Insert(Chain(None, INPUT), rule, AcceptWord), Insert(Chain(None, OUTPUT), rule, AcceptWord),
        Insert(Chain(None, FORWARD), rule, AcceptWord);
    assert InsertAll(rule) == [a] + ([b] + [c]);
    BacksAppend([a], [b] + [c], ch);
    BacksAppend([b], [c], ch);
    BacksOne(a, ch);
    BacksOne(b, ch);
    BacksOne(c, ch);
  }

  lemma StateRulesLines(lstate: bool, feat: set<nat>, base: Base)
    requires base == INPUT || base == OUTPUT || base == FORWARD || base == FORW_OUT
    ensures Backs(StateRules(lstate, feat), Chain(None, base)) == []
    ensures Fronts(StateRules(lstate, feat), Chain(None, base)) == StateLines(lstate, feat, base)
  {
    var ch := Chain(None, base);
    ReadStateTexts();
    InsertAllLines(TcpStateText(), base);
    InsertAllLines(UdpStateText(), base);
    var a := if A_TCP in feat then InsertAll(TcpStateText()) else [];
    var b := if A_UDP in feat then InsertAll(UdpStateText()) else [];
    BacksAppend(a, b, ch);
  }

  /** A chain of the loaded script: the generic rules, the reply rules, the check for invalid packets
      and the rules of the filter, in this order. */
  function Contents(style: Style, lstate: bool, es: seq<Entry>, base: Base): seq<Line> {
    StateLines(lstate, AllFeatures(es), base) + AllInserted(lstate, es, base)
    + (if base == FORW_OUT then [] else [InvalidLine()])
    + AllAdded(style, es, base)
  }

  ghost predicate IsLoaded(style: Style, lstate: bool, es: seq<Entry>, rs: Ruleset) {
    && (forall base | base in {INPUT, OUTPUT, FORWARD, FORW_OUT} ::
          Chain(None, base) in rs.chains && rs.chains[Chain(None, base)] == Contents(style, lstate, es, base))
    && INVALID_CHAIN in rs.chains && rs.chains[INVALID_CHAIN] == [Line([], Decide(Dropped))]
    && (forall base | base in {INPUT, OUTPUT, FORWARD} :: base in rs.policy && rs.policy[base] == Dropped)
  }

  /** Rules do not touch a chain they are not added to. */
  lemma {:induction false} Untouched(cs: seq<Command>, keys: set<Chain>, ch: Chain)
    requires Loadable(cs, keys) && ch !in keys
    ensures Backs(cs, ch) == [] && Fronts(cs, ch) == []
  {
    if cs != [] {
      assert Good(cs[0], keys);
      assert Loadable(cs[1..], keys);
      Untouched(cs[1..], keys, ch);
    }
  }

  lemma ContentsOf(style: Style, lstate: bool, es: seq<Entry>, base: Base, rs: Ruleset)
    requires AllPlain(es) && base in {INPUT, OUTPUT, FORWARD, FORW_OUT} && rs.chains == AfterSkeleton(rs.policy).chains
    ensures var cs := RulesOf(style, lstate, es);
            Grown(cs, rs).chains[Chain(None, base)] == Contents(style, lstate, es, base)
  {
    var a, b := AllCommands(style, lstate, es), StateRules(lstate, AllFeatures(es));
    BacksAppend(a, b, Chain(None, base));
    AllLines(style, lstate, es, base);
    StateRulesLines(lstate, AllFeatures(es), base);
    assert AllAdded(style, es, base) + [] == AllAdded(style, es, base);
  }

  /** The rules of the filter and of light state mode. */
  function RulesOf(style: Style, lstate: bool, es: seq<Entry>): seq<Command> {
    AllCommands(style, lstate, es) + StateRules(lstate, AllFeatures(es))
  }

  lemma RulesLoadable(style: Style, lstate: bool, es: seq<Entry>)
    requires AllPlain(es)
    ensures Loadable(RulesOf(style, lstate, es), RULE_CHAINS)
  {
    AllLoadable(style, lstate, es);
    StateRulesLoadable(lstate, AllFeatures(es));
    LoadableAppend(AllCommands(style, lstate, es), StateRules(lstate, AllFeatures(es)), RULE_CHAINS);
  }

  /** The chain that drops invalid packets stays as it is. */
  lemma InvalidKept(style: Style, lstate: bool, es: seq<Entry>, policy: map<Base, Verdict>)
    requires AllPlain(es)
    ensures var rs := Grown(RulesOf(style, lstate, es), AfterSkeleton(policy));
            INVALID_CHAIN in rs.chains && rs.chains[INVALID_CHAIN] == [Line([], Decide(Dropped))]
  {
    var rs := AfterSkeleton(policy);
    RulesLoadable(style, lstate, es);
    Untouched(RulesOf(style, lstate, es), RULE_CHAINS, INVALID_CHAIN);
    assert [] + rs.chains[INVALID_CHAIN] + [] == rs.chains[INVALID_CHAIN];
  }

  lemma GrownIsLoaded(style: Style, lstate: bool, es: seq<Entry>, policy: map<Base, Verdict>)
    requires AllPlain(es)
    ensures IsLoaded(style, lstate, es, Grown(RulesOf(style, lstate, es), AfterSkeleton(policy)))
  {
    var rs := AfterSkeleton(policy);
    ContentsOf(style, lstate, es, INPUT, rs);
    ContentsOf(style, lstate, es, OUTPUT, rs);
    ContentsOf(style, lstate, es, FORWARD, rs);
    ContentsOf(style, lstate, es, FORW_OUT, rs);
    InvalidKept(style, lstate, es, policy);
  }

  /** Loaded on top of the skeleton. */
  lemma LoadRules(style: Style, lstate: bool, es: seq<Entry>, policy: map<Base, Verdict>)
    requires AllPlain(es)
    ensures var cs := RulesOf(style, lstate, es);
            Load(cs, AfterSkeleton(policy)).Some? && IsLoaded(style, lstate, es, Load(cs, AfterSkeleton(policy)).value)
  {
    var rs := AfterSkeleton(policy);
    RulesLoadable(style, lstate, es);
    LoadableMore(RulesOf(style, lstate, es), RULE_CHAINS, rs.chains.Keys);
    LoadLines(RulesOf(style, lstate, es), rs);
    GrownIsLoaded(style, lstate, es, policy);
  }

  /** Every script of plain entries loads, on top of whatever was loaded before. */
  lemma LoadScript(style: Style, lstate: bool, es: seq<Entry>, rs: Ruleset)
    requires AllPlain(es)
    ensures Load(Script(style, true, lstate, es), rs).Some?
    ensures IsLoaded(style, lstate, es, Load(Script(style, true, lstate, es), rs).value)
  {
    var a, b := AllCommands(style, lstate, es), StateRules(lstate, AllFeatures(es));
    var end := if style == Restore then [Commit] else [];
    SeqAssoc(Skeleton(style), a, b);
    LoadSkeleton(style, rs);
    LoadRules(style, lstate, es, rs.policy);
    LoadAppend(Skeleton(style), a + b, rs);
    LoadAppend(Skeleton(style) + (a + b), end, rs);
    LoadCommit(style, Load(a + b, AfterSkeleton(rs.policy)).value);
  }

  lemma LoadCommit(style: Style, rs: Ruleset)
    ensures Load(if style == Restore then [Commit] else [], rs) == Some(rs)
  {
    if style == Restore {
      LoadCons(Commit, [], rs);
    }
  }
}
