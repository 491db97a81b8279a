/** What the loaded script of a filter with groups does to packets, by way of its jumps into the groups'
    chains. */
module GroupedPackets {
  import opened FilterSpec
  import opened FilterEntry
  import opened IptablesRules
  import opened Netfilter
  import opened RuleMeaning
  import opened LoadedScript
  import opened ScriptVerdicts
  import opened RuleWalk
  import opened GroupValues
  import opened GroupVerdicts
  import opened GroupedScript
  import opened GroupedChains

  // ----- the script -----

  /** The script of a walk: the skeleton, the commands of the callbacks and the generic rules. */
  function GroupScript(style: Style, skeleton: bool, lstate: bool, cs: seq<Call>): seq<Command> {
    (if skeleton then Skeleton(style) else [])
    + CallCommands(style, lstate, cs)
    + (if skeleton then StateRules(lstate, AllFeatures(AllRules(cs))) else [])
    + (if style == Restore then [Commit] else [])
  }

  /** The commands between the skeleton and the end. */
  function Middle(style: Style, lstate: bool, cs: seq<Call>): seq<Command> {
    CallCommands(style, lstate, cs) + StateRules(lstate, AllFeatures(AllRules(cs)))
  }

  ghost function NameSet(cs: seq<Call>): set<string> {
    set n | n in GroupNames(cs)
  }

  lemma StateRulesLoad(lstate: bool, feat: set<nat>, rs: Ruleset)
    requires RULE_CHAINS <= rs.chains.Keys
    ensures Load(StateRules(lstate, feat), rs).Some?
  {
    StateRulesLoadable(lstate, feat);
    LoadableMore(StateRules(lstate, feat), RULE_CHAINS, rs.chains.Keys);
    LoadLines(StateRules(lstate, feat), rs);
  }

  lemma MiddleLoads(style: Style, lstate: bool, cs: seq<Call>, policy: map<Base, Verdict>)
    requires Announced(cs, {}) && AllFit(cs)
    ensures Load(Middle(style, lstate, cs), AfterSkeleton(policy)).Some? <==> Once(GroupNames(cs))
    ensures Once(GroupNames(cs)) ==>
      Load(Middle(style, lstate, cs), AfterSkeleton(policy)).value.chains.Keys >= Keys(NameSet(cs))
  {
    var a, b := CallCommands(style, lstate, cs), StateRules(lstate, AllFeatures(AllRules(cs)));
    var rs := AfterSkeleton(policy);
    GroupedScriptLoads(style, lstate, cs, policy);
    LoadAppend(a, b, rs);
    if Once(GroupNames(cs)) {
      WalkKeys(style, lstate, cs, policy);
      StateRulesLoad(lstate, AllFeatures(AllRules(cs)), Load(a, rs).value);
      CallsShown(style, lstate, cs);
      StateRulesShown(lstate, AllFeatures(AllRules(cs)));
      AllLoaded(b, Load(a, rs).value);
    }
  }

  lemma WalkKeys(style: Style, lstate: bool, cs: seq<Call>, policy: map<Base, Verdict>)
    requires Announced(cs, {}) && AllFit(cs) && Once(GroupNames(cs))
    requires Load(CallCommands(style, lstate, cs), AfterSkeleton(policy)).Some?
    ensures Load(CallCommands(style, lstate, cs), AfterSkeleton(policy)).value.chains.Keys
         == Keys(NameSet(cs))
  {
    var rs := AfterSkeleton(policy);
    assert ChainsOf({}) == {};
    assert rs.chains.Keys == Keys({});
    FreshIsOnce(cs, {});
    CallsLoad(style, lstate, cs, {}, rs);
    assert After(cs, {}) == NameSet(cs);
  }

  lemma StateRulesShown(lstate: bool, feat: set<nat>)
    ensures AllShown(StateRules(lstate, feat))
  {
    StateRulesLoadable(lstate, feat);
    forall c | c in StateRules(lstate, feat) ensures Shown(c) {
      assert Good(c, RULE_CHAINS);
    }
  }

  /** The whole script loads exactly when no group is walked twice, and its end changes nothing. */
  lemma GroupScriptLoads(style: Style, lstate: bool, cs: seq<Call>, before: Ruleset)
    requires Announced(cs, {}) && AllFit(cs)
    ensures Load(GroupScript(style, true, lstate, cs), before).Some? <==> Once(GroupNames(cs))
    ensures Load(GroupScript(style, true, lstate, cs), before)
         == Load(Middle(style, lstate, cs), AfterSkeleton(before.policy))
  {
    var a, b := CallCommands(style, lstate, cs), StateRules(lstate, AllFeatures(AllRules(cs)));
    var end := if style == Restore then [Commit] else [];
    SeqAssoc(Skeleton(style), a, b);
    LoadSkeleton(style, before);
    LoadAppend(Skeleton(style), a + b, before);
    LoadAppend(Skeleton(style) + (a + b), end, before);
    MiddleLoads(style, lstate, cs, before.policy);
    if Once(GroupNames(cs)) {
      LoadCommit(style, Load(a + b, AfterSkeleton(before.policy)).value);
    }
  }

  // ----- what its chains hold -----

  /** The chain of a group holds its rules behind their reply rules. */
  ghost predicate GroupHolds(rs: Ruleset, style: Style, lstate: bool, es: seq<Entry>, n: string, d: Direction,
                             fwd: bool) {
    var ch := Chain(Some(n), BaseFor(d, fwd));
    && ch in rs.chains
    && rs.chains[ch] == AllReplyLines(lstate, es, d, fwd, Some(n)) + AllRuleLines(style, es, d, fwd, Some(n))
  }

  function CheckLines(base: Base): seq<Line> { if base == FORW_OUT then [] else [InvalidLine()] }

  /** A main chain has the generic rules before them and, but for FORW_OUT, the check for invalid
      packets between. */
  ghost predicate MainHolds(rs: Ruleset, style: Style, lstate: bool, es: seq<Entry>, d: Direction, fwd: bool) {
    var base := BaseFor(d, fwd);
    && Chain(None, base) in rs.chains
    && rs.chains[Chain(None, base)]
        == StateLines(lstate, AllFeatures(es), base) + AllReplyLines(lstate, es, d, fwd, None)
                                       + CheckLines(base) + AllRuleLines(style, es, d, fwd, None)
    && (base != FORW_OUT ==> base in rs.policy && rs.policy[base] == Dropped)
  }

  /** What the chains hold. */
  ghost predicate Holding(rs: Ruleset, style: Style, lstate: bool, es: seq<Entry>, names: set<string>) {
    && (forall n, d: Direction, fwd: bool | n in names :: GroupHolds(rs, style, lstate, es, n, d, fwd))
    && (forall d: Direction, fwd: bool :: MainHolds(rs, style, lstate, es, d, fwd))
  }

  lemma {:induction false} FitRules(cs: seq<Call>)
    requires AllFit(cs)
    ensures forall e | e in AllRules(cs) :: Fit(e)
    decreases cs
  {
    if cs != [] {
      FitRules(cs[1..]);
      if cs[0].GroupCall? {
        FitRules(cs[0].body);
      }
    }
  }

  lemma StateRulesElsewhere(cs: seq<Command>, n: string, base: Base)
    requires Loadable(cs, RULE_CHAINS)
    ensures Backs(cs, Chain(Some(n), base)) == [] && Fronts(cs, Chain(Some(n), base)) == []
  {
    Untouched(cs, RULE_CHAINS, Chain(Some(n), base));
  }

  lemma MiddleLines(style: Style, lstate: bool, cs: seq<Call>, d: Direction, fwd: bool, group: Option<string>)
    requires AllFit(cs)
    ensures var es, ch := AllRules(cs), Chain(group, BaseFor(d, fwd));
            && Backs(Middle(style, lstate, cs), ch) == AllRuleLines(style, es, d, fwd, group)
            && Fronts(Middle(style, lstate, cs), ch)
               == (if group.None? then StateLines(lstate, AllFeatures(es), BaseFor(d, fwd)) else [])
                  + AllReplyLines(lstate, es, d, fwd, group)
  {
    var es, ch := AllRules(cs), Chain(group, BaseFor(d, fwd));
    var st := StateRules(lstate, AllFeatures(es));
    FitRules(cs);
    CallLines(style, lstate, cs, ch);
    AllFitLines(style, lstate, es, d, fwd, group);
    BacksAppend(CallCommands(style, lstate, cs), st, ch);
    if group.None? {
      StateRulesLines(lstate, AllFeatures(es), BaseFor(d, fwd));
    } else {
      StateRulesLoadable(lstate, AllFeatures(es));
      StateRulesElsewhere(st, group.value, BaseFor(d, fwd));
    }
    assert AllRuleLines(style, es, d, fwd, group) + [] == AllRuleLines(style, es, d, fwd, group);
  }

  /** What loading leaves in every chain. */
  ghost predicate LoadFills(rs0: Ruleset, rs: Ruleset, cs: seq<Command>) {
    && rs.policy == rs0.policy && rs0.chains.Keys <= rs.chains.Keys
    && forall ch | ch in rs.chains :: rs.chains[ch] == Fronts(cs, ch) + GroupedChains.Before(rs0, ch) + Backs(cs, ch)
  }

  lemma GroupChain(style: Style, lstate: bool, cs: seq<Call>, policy: map<Base, Verdict>, rs: Ruleset, n: string,
                   d: Direction, fwd: bool)
    requires AllFit(cs) && n in NameSet(cs) && Keys(NameSet(cs)) <= rs.chains.Keys
    requires LoadFills(AfterSkeleton(policy), rs, Middle(style, lstate, cs))
    ensures GroupHolds(rs, style, lstate, AllRules(cs), n, d, fwd)
  {
    var ch := Chain(Some(n), BaseFor(d, fwd));
    ChainOfNames(NameSet(cs), n, BaseFor(d, fwd));
    assert ch in Keys(NameSet(cs));
    NothingBefore(policy, n, BaseFor(d, fwd));
    MiddleLines(style, lstate, cs, d, fwd, Some(n));
    var r := AllReplyLines(lstate, AllRules(cs), d, fwd, Some(n));
    assert [] + r + [] == r;
  }

  lemma NothingBefore(policy: map<Base, Verdict>, n: string, base: Base)
    ensures GroupedChains.Before(AfterSkeleton(policy), Chain(Some(n), base)) == []
  {
  }

  lemma MainChain(style: Style, lstate: bool, cs: seq<Call>, policy: map<Base, Verdict>, rs: Ruleset, d: Direction,
                  fwd: bool)
    requires AllFit(cs) && LoadFills(AfterSkeleton(policy), rs, Middle(style, lstate, cs))
    ensures MainHolds(rs, style, lstate, AllRules(cs), d, fwd)
  {
    SkeletonBefore(policy, d, fwd);
    MiddleLines(style, lstate, cs, d, fwd, None);
  }

  lemma SkeletonBefore(policy: map<Base, Verdict>, d: Direction, fwd: bool)
    ensures var rs, base := AfterSkeleton(policy), BaseFor(d, fwd);
            && Chain(None, base) in rs.chains && GroupedChains.Before(rs, Chain(None, base)) == CheckLines(base)
            && (base != FORW_OUT ==> base in rs.policy && rs.policy[base] == Dropped)
  {
  }

  lemma LoadedChains(style: Style, lstate: bool, cs: seq<Call>, policy: map<Base, Verdict>)
    requires Announced(cs, {}) && AllFit(cs) && Once(GroupNames(cs))
    ensures Load(Middle(style, lstate, cs), AfterSkeleton(policy)).Some?
    ensures Holding(Load(Middle(style, lstate, cs), AfterSkeleton(policy)).value, style, lstate, AllRules(cs),
                    NameSet(cs))
  {
    var rs := MiddleFills(style, lstate, cs, policy);
    FilledHolds(style, lstate, cs, policy, rs, NameSet(cs));
  }

  lemma FilledHolds(style: Style, lstate: bool, cs: seq<Call>, policy: map<Base, Verdict>, rs: Ruleset,
                    names: set<string>)
    requires AllFit(cs) && Keys(NameSet(cs)) <= rs.chains.Keys && names == NameSet(cs)
    requires LoadFills(AfterSkeleton(policy), rs, Middle(style, lstate, cs))
    ensures Holding(rs, style, lstate, AllRules(cs), names)
  {
    forall n, d: Direction, fwd: bool | n in names ensures GroupHolds(rs, style, lstate, AllRules(cs), n, d, fwd) {
      GroupChain(style, lstate, cs, policy, rs, n, d, fwd);
    }
    forall d: Direction, fwd: bool ensures MainHolds(rs, style, lstate, AllRules(cs), d, fwd) {
      MainChain(style, lstate, cs, policy, rs, d, fwd);
    }
  }

  lemma MiddleFills(style: Style, lstate: bool, cs: seq<Call>, policy: map<Base, Verdict>) returns (rs: Ruleset)
    requires Announced(cs, {}) && AllFit(cs) && Once(GroupNames(cs))
    ensures Load(Middle(style, lstate, cs), AfterSkeleton(policy)) == Some(rs)
    ensures Keys(NameSet(cs)) <= rs.chains.Keys
    ensures LoadFills(AfterSkeleton(policy), rs, Middle(style, lstate, cs))
  {
    MiddleLoads(style, lstate, cs, policy);
    CallsShown(style, lstate, cs);
    StateRulesShown(lstate, AllFeatures(AllRules(cs)));
    AllLoaded(Middle(style, lstate, cs), AfterSkeleton(policy));
    rs := Load(Middle(style, lstate, cs), AfterSkeleton(policy)).value;
  }

  // ----- the walks of groups and the rules that jump to them -----

  /** A group that was walked, the direction its body inherited, and a rank below that of what jumps to it. */
  datatype Walk = Walk(name: string, dir: Option<Direction>, rank: nat)

  /** The rule jumps to a group walked in its direction, of a rank below the bound. */
  ghost predicate Placed(e: Entry, W: set<Walk>, bound: nat) {
    e.target == Some(ToSubgroup) ==>
      e.subgroup.Some? && exists k | k in W :: k.name == e.subgroup.value && k.dir == e.direction && k.rank < bound
  }

  ghost predicate PlacedIn(e: Entry, W: set<Walk>, top: nat) {
    if e.groupname.None? then Placed(e, W, top)
    else exists k | k in W :: k.name == e.groupname.value && k.dir == e.direction && Placed(e, W, k.rank)
  }

  ghost predicate AllPlaced(es: seq<Entry>, W: set<Walk>, top: nat) {
    forall e | e in es :: PlacedIn(e, W, top)
  }

  /** No two walks have the same name. */
  ghost predicate Single(W: set<Walk>) {
    forall k, k' | k in W && k' in W && k.name == k'.name :: k == k'
  }

  ghost function NamesOf(W: set<Walk>): set<string> {
    set k | k in W :: k.name
  }

  /** The rules of a walk with its groups: where they stand and where they jump. */
  ghost predicate Sorted(es: seq<Entry>, W: set<Walk>, top: nat, cs: seq<Call>) {
    && AllPlaced(es, W, top) && Single(W)
    && (forall n: string :: InGroup(es, Some(n)) == ChainIn(cs, n)) && InGroup(es, None) == Rules(cs)
  }

  /** What the evaluation of a loaded script rests on. */
  ghost predicate Ready(rs: Ruleset, style: Style, lstate: bool, es: seq<Entry>, W: set<Walk>, top: nat, cs: seq<Call>,
                        w: View) {
    && Holding(rs, style, lstate, es, NamesOf(W)) && Sorted(es, W, top, cs) && AllRegular(es, w.env) && Tracked(w)
  }

  lemma OwnWalk(e: Entry, es: seq<Entry>, W: set<Walk>, top: nat, k: Walk)
    requires AllPlaced(es, W, top) && Single(W) && k in W && e in es && e.groupname == Some(k.name)
    ensures e.direction == k.dir && Placed(e, W, k.rank)
  {
    assert PlacedIn(e, W, top);
  }

  // ----- rules -----

  /** A rule of a group walked in the packet's direction jumps to another. */
  lemma {:induction false} GroupRule(rs: Ruleset, style: Style, lstate: bool, es: seq<Entry>, W: set<Walk>, top: nat,
                                     cs: seq<Call>, w: View, out: Option<Verdict>, lim: Jumps, k: Walk, depth: nat,
                                     e: Entry)
    requires Ready(rs, style, lstate, es, W, top, cs, w) && k in W && k.dir == Some(w.d)
    requires Sends(rs, w, out, lim) && depth > k.rank + lim && e in es && e.groupname == Some(k.name)
    ensures e.direction == Some(w.d) && JumpsWell(style, out, e, cs, rs, w, depth)
    decreases depth, 0
  {
    OwnWalk(e, es, W, top, k);
    if e.target == Some(ToSubgroup) {
      var j :| j in W && j.name == e.subgroup.value && j.dir == e.direction && j.rank < k.rank;
      GroupEvaluates(rs, style, lstate, es, W, top, cs, w, out, lim, j, depth - 1);
    }
  }

  /** The chain of a group walked in the packet's direction decides as the rules of the group. */
  lemma {:induction false} GroupEvaluates(rs: Ruleset, style: Style, lstate: bool, es: seq<Entry>, W: set<Walk>,
                                          top: nat,
                                          cs: seq<Call>, w: View, out: Option<Verdict>, lim: Jumps, k: Walk, depth: nat)
    requires Ready(rs, style, lstate, es, W, top, cs, w) && k in W && k.dir == Some(w.d)
    requires Sends(rs, w, out, lim) && depth > k.rank + lim
    ensures var ch := Chain(Some(k.name), BaseFor(w.d, w.fwd));
            && ch in rs.chains
            && Evaluate(rs.chains[ch], rs, w.p, w.env, depth) == Decided(style, out, ChainIn(cs, k.name), cs, w, depth)
    decreases depth, 1
  {
    var group := Some(k.name);
    assert k.name in NamesOf(W) && GroupHolds(rs, style, lstate, es, k.name, w.d, w.fwd);
    forall e | e in es && e.groupname == group
      ensures e.direction == Some(w.d) && JumpsWell(style, out, e, cs, rs, w, depth)
    {
      GroupRule(rs, style, lstate, es, W, top, cs, w, out, lim, k, depth, e);
    }
    NoReplies(lstate, es, w.d, w.fwd, group);
    assert [] + AllRuleLines(style, es, w.d, w.fwd, group) == AllRuleLines(style, es, w.d, w.fwd, group);
    RulesDecide(style, out, es, group, cs, rs, w, lim, depth);
  }

  // ----- reply rules -----

  lemma {:induction false} BackRule(rs: Ruleset, style: Style, lstate: bool, es: seq<Entry>, W: set<Walk>, top: nat,
                                    cs: seq<Call>, w: View, out: Option<Verdict>, lim: Jumps, k: Walk, n: nat,
                                    depth: nat,
                                    e: Entry)
    requires Ready(rs, style, lstate, es, W, top, cs, w) && k in W && k.dir != Some(w.d) && n >= k.rank
    requires Sends(rs, w, out, lim) && depth > n + lim && e in es && e.groupname == Some(k.name)
    ensures e.direction != Some(w.d) && JumpsBack(es, e, lstate, out, rs, w, n, depth)
    decreases depth, 0
  {
    OwnWalk(e, es, W, top, k);
    if e.target == Some(ToSubgroup) {
      var j :| j in W && j.name == e.subgroup.value && j.dir == e.direction && j.rank < k.rank;
      GroupReplies(rs, style, lstate, es, W, top, cs, w, out, lim, j, n - 1, depth - 1);
    }
  }

  /** The chain for the packet of a group walked in the other direction lets it through when a reply
      rule answers it, and does nothing else to it. */
  lemma {:induction false} GroupReplies(rs: Ruleset, style: Style, lstate: bool, es: seq<Entry>, W: set<Walk>, top: nat,
                                        cs: seq<Call>, w: View, out: Option<Verdict>, lim: Jumps, k: Walk, n: nat,
                                        depth: nat)
    requires Ready(rs, style, lstate, es, W, top, cs, w) && k in W && k.dir != Some(w.d) && n >= k.rank
    requires Sends(rs, w, out, lim) && depth > n + lim
    ensures var ch := Chain(Some(k.name), BaseFor(w.d, w.fwd));
            && ch in rs.chains
            && Evaluate(rs.chains[ch], rs, w.p, w.env, depth)
               == if Replied(es, Some(k.name), lstate, w, n) then BackOutcome(w, out) else None
    decreases depth, 1
  {
    var group := Some(k.name);
    assert k.name in NamesOf(W) && GroupHolds(rs, style, lstate, es, k.name, w.d, w.fwd);
    forall e | e in es && e.groupname == group
      ensures e.direction != Some(w.d) && JumpsBack(es, e, lstate, out, rs, w, n, depth)
    {
      BackRule(rs, style, lstate, es, W, top, cs, w, out, lim, k, n, depth, e);
    }
    NoRules(style, es, w.d, w.fwd, group);
    assert AllReplyLines(lstate, es, w.d, w.fwd, group) + [] == AllReplyLines(lstate, es, w.d, w.fwd, group);
    RepliesDo(es, es, group, lstate, out, rs, w, n, lim, depth);
  }

  // ----- the main chains -----

  lemma MainRule(rs: Ruleset, style: Style, lstate: bool, es: seq<Entry>, W: set<Walk>, top: nat, cs: seq<Call>,
                 w: View,
                 out: Option<Verdict>, lim: Jumps, depth: nat, e: Entry)
    requires Ready(rs, style, lstate, es, W, top, cs, w) && Sends(rs, w, out, lim) && depth > top + lim
    requires e in es && e.groupname == None
    ensures JumpsWell(style, out, e, cs, rs, w, depth)
  {
    if e.target == Some(ToSubgroup) && e.direction == Some(w.d) {
      var j := MainWalk(es, W, top, e);
      GroupEvaluates(rs, style, lstate, es, W, top, cs, w, out, lim, j, depth - 1);
    }
  }

  lemma MainWalk(es: seq<Entry>, W: set<Walk>, top: nat, e: Entry) returns (j: Walk)
    requires AllPlaced(es, W, top) && e in es && e.groupname == None && e.target == Some(ToSubgroup)
    ensures e.subgroup == Some(j.name) && j in W && j.dir == e.direction && j.rank < top
  {
    assert PlacedIn(e, W, top);
    j :| j in W && j.name == e.subgroup.value && j.dir == e.direction && j.rank < top;
  }

  lemma MainReply(rs: Ruleset, style: Style, lstate: bool, es: seq<Entry>, W: set<Walk>, top: nat, cs: seq<Call>,
                  w: View,
                  out: Option<Verdict>, lim: Jumps, depth: nat, e: Entry)
    requires Ready(rs, style, lstate, es, W, top, cs, w) && Sends(rs, w, out, lim) && depth > top + lim
    requires e in es && e.groupname == None
    ensures JumpsBack(es, e, lstate, out, rs, w, top, depth)
  {
    if e.target == Some(ToSubgroup) && e.direction != Some(w.d) {
      var j := MainWalk(es, W, top, e);
      GroupReplies(rs, style, lstate, es, W, top, cs, w, out, lim, j, top - 1, depth - 1);
    }
  }

  lemma NotInvalid(rs: Ruleset, w: View, base: Base, depth: nat)
    requires Tracked(w)
    ensures Evaluate(CheckLines(base), rs, w.p, w.env, depth) == None
  {
    EvaluateOne(InvalidLine(), rs, w.p, w.env, depth);
    MatchOne(Match(false, StateIn({Invalid})), w.p, w.env);
  }

  lemma FourParts(a: seq<Line>, b: seq<Line>, c: seq<Line>, d: seq<Line>, rs: Ruleset, p: Packet, env: Env, depth: nat)
    ensures Evaluate(a + b + c + d, rs, p, env, depth)
         == OrNext(Evaluate(a, rs, p, env, depth),
                   OrNext(Evaluate(b, rs, p, env, depth),
                          OrNext(Evaluate(c, rs, p, env, depth), Evaluate(d, rs, p, env, depth))))
  {
    EvaluateAppend(a, b, rs, p, env, depth);
    EvaluateAppend(a + b, c, rs, p, env, depth);
    EvaluateAppend(a + b + c, d, rs, p, env, depth);
  }

  /** What a main chain makes of a packet: the generic rules of light state mode, then the reply rules,
      then the rules outside groups, the latter two with their jumps. */
  ghost function MainOutcome(style: Style, lstate: bool, es: seq<Entry>, top: nat, cs: seq<Call>, w: View,
                             out: Option<Verdict>, depth: nat): Option<Verdict> {
    OrNext(if BaseFor(w.d, w.fwd) != FORW_OUT && LightAccepts(lstate, AllFeatures(es), w.p, w.env) then Some(Accepted)
           else None,
           OrNext(if Replied(es, None, lstate, w, top) then BackOutcome(w, out) else None,
                  Decided(style, out, Rules(cs), cs, w, depth)))
  }

  lemma MainEvaluates(rs: Ruleset, style: Style, lstate: bool, es: seq<Entry>, W: set<Walk>, top: nat, cs: seq<Call>,
                      w: View, out: Option<Verdict>, lim: Jumps, depth: nat)
    requires Ready(rs, style, lstate, es, W, top, cs, w) && Sends(rs, w, out, lim) && depth > top + lim
    ensures var ch := Chain(None, BaseFor(w.d, w.fwd));
            && ch in rs.chains
            && Evaluate(rs.chains[ch], rs, w.p, w.env, depth) == MainOutcome(style, lstate, es, top, cs, w, out, depth)
  {
    var base := BaseFor(w.d, w.fwd);
    assert MainHolds(rs, style, lstate, es, w.d, w.fwd);
    forall e | e in es && e.groupname == None
      ensures JumpsWell(style, out, e, cs, rs, w, depth) && JumpsBack(es, e, lstate, out, rs, w, top, depth)
    {
      MainRule(rs, style, lstate, es, W, top, cs, w, out, lim, depth, e);
      MainReply(rs, style, lstate, es, W, top, cs, w, out, lim, depth, e);
    }
    EvaluateState(lstate, AllFeatures(es), base, rs, w.p, w.env, depth);
    RepliesDo(es, es, None, lstate, out, rs, w, top, lim, depth);
    NotInvalid(rs, w, base, depth);
    RulesDecide(style, out, es, None, cs, rs, w, lim, depth);
    FourParts(StateLines(lstate, AllFeatures(es), base), AllReplyLines(lstate, es, w.d, w.fwd, None), CheckLines(base),
              AllRuleLines(style, es, w.d, w.fwd, None), rs, w.p, w.env, depth);
  }

  // ----- deciding with and without FORW_OUT -----

  /** Where no rule sends the packet on to FORW_OUT, it is decided by first match. */
  lemma {:induction false} DecidedAtOnce(style: Style, out: Option<Verdict>, es: seq<Entry>, cs: seq<Call>, w: View,
                                         depth: nat)
    requires !(w.fwd && w.d == Input)
    ensures Decided(style, out, es, cs, w, depth) == Decision(es, cs, w, depth)
    decreases depth, |es|
  {
    if es != [] {
      DecidedAtOnce(style, out, es[1..], cs, w, depth);
      if depth > 0 && es[0].target == Some(ToSubgroup) && es[0].subgroup.Some? {
        DecidedAtOnce(style, out, ChainIn(cs, es[0].subgroup.value), cs, w, depth - 1);
      }
    }
  }

  /** What first match over the input rules has to be for the packet to get through FORW_OUT. */
  predicate LetsOn(style: Style, v: Option<Verdict>) {
    if style == Iptables then v.Some? else v == Some(Accepted)
  }

  ghost predicate AllPlacedAt(ds: seq<Entry>, W: set<Walk>, bound: nat) {
    forall e | e in ds :: Placed(e, W, bound)
  }

  lemma InGroupIn(es: seq<Entry>, group: Option<string>, e: Entry)
    requires e in InGroup(es, group)
    ensures e in es && e.groupname == group
  {
  }

  lemma OwnVerdict(e: Entry)
    requires Fit(e) && e.target != Some(ToSubgroup)
    ensures VerdictOf(e) == Accepted <==> Accepts(e)
  {
    if e.target.value.Final? {
      match e.target.value.target
      case Accept => assert e.target == Some(Final(Accept));
      case _ =>
    }
  }

  /** A forwarded packet that FORW_OUT accepts is accepted if and only if the input rules let it on; one
      that FORW_OUT does not accept is not accepted. */
  lemma {:induction false} DecidedThrough(style: Style, out: Option<Verdict>, ds: seq<Entry>, es: seq<Entry>,
                                          W: set<Walk>,
                                          top: nat, cs: seq<Call>, w: View, bound: nat, depth: nat)
    requires w.fwd && w.d == Input && Sorted(es, W, top, cs) && AllPlacedAt(ds, W, bound) && depth >= bound
    requires forall e | e in es :: Fit(e)
    requires forall e | e in ds :: e in es
    ensures Decided(style, out, ds, cs, w, depth) == Some(Accepted)
       <==> out == Some(Accepted) && LetsOn(style, Decision(ds, cs, w, depth))
    ensures out == Some(Accepted)
        ==> (Decision(ds, cs, w, depth).None? <==> Decided(style, out, ds, cs, w, depth).None?)
    decreases depth, |ds|
  {
    if ds != [] {
      var e := ds[0];
      assert e in ds && e in es;
      DecidedThrough(style, out, ds[1..], es, W, top, cs, w, bound, depth);
      if Meets(e, w) && e.target == Some(ToSubgroup) {
        assert Placed(e, W, bound);
        var j :| j in W && j.name == e.subgroup.value && j.dir == e.direction && j.rank < bound;
        GroupPlaced(es, W, top, cs, j);
        DecidedThrough(style, out, ChainIn(cs, j.name), es, W, top, cs, w, j.rank, depth - 1);
      } else if e.target != Some(ToSubgroup) {
        OwnVerdict(e);
      }
    }
  }

  lemma GroupPlaced(es: seq<Entry>, W: set<Walk>, top: nat, cs: seq<Call>, j: Walk)
    requires Sorted(es, W, top, cs) && j in W
    ensures AllPlacedAt(ChainIn(cs, j.name), W, j.rank) && forall e | e in ChainIn(cs, j.name) :: e in es
  {
    assert InGroup(es, Some(j.name)) == ChainIn(cs, j.name);
    forall e | e in ChainIn(cs, j.name) ensures Placed(e, W, j.rank) && e in es {
      InGroupIn(es, Some(j.name), e);
      OwnWalk(e, es, W, top, j);
    }
  }
}
