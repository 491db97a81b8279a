/** From the source of a filter with groups to packets, by way of the walk that keeps its groups. */
module GroupedSource {
  import GroupNaming
  import opened FilterSpec
  import opened FilterEntry
  import opened FilterGraph
  import opened FilterSyntax
  import opened FilterTree
  import opened FilterNegation
  import opened SyntaxForms
  import opened Readings
  import opened CompiledRules
  import opened IptablesRules
  import opened Netfilter
  import opened RuleMeaning
  import opened LoadedScript
  import opened ScriptVerdicts
  import opened RuleWalk
  import opened GroupValues
  import opened GroupVerdicts
  import opened GroupedScript
  import opened GroupedChains
  import opened GroupedPackets
  import opened GroupSplits
  import opened InlinedGroups
  import opened SourceVerdicts

  // ----- the rules of a trace, chain by chain -----

  lemma {:induction false} InGroupAppend(es: seq<Entry>, ds: seq<Entry>, group: Option<string>)
    ensures InGroup(es + ds, group) == InGroup(es, group) + InGroup(ds, group)
    decreases |es|
  {
    if es == [] {
      assert es + ds == ds;
    } else {
      assert (es + ds)[0] == es[0] && (es + ds)[1..] == es[1..] + ds;
      InGroupAppend(es[1..], ds, group);
      SeqAssoc(if es[0].groupname == group then [es[0]] else [], InGroup(es[1..], group), InGroup(ds, group));
    }
  }

  lemma InGroupOne(e: Entry, group: Option<string>)
    ensures InGroup([e], group) == if e.groupname == group then [e] else []
  {
    assert [e][1..] == [];
  }

  lemma {:induction false} ChainRules(cs: seq<Call>, n: string)
    ensures InGroup(AllRules(cs), Some(n)) == ChainIn(cs, n)
    decreases cs
  {
    if cs != [] {
      ChainRules(cs[1..], n);
      match cs[0]
      case RuleCall(d) =>
        InGroupOne(d, Some(n));
        InGroupAppend([d], AllRules(cs[1..]), Some(n));
      case GroupCall(_, _, _, body) =>
        ChainRules(body, n);
        InGroupAppend(AllRules(body), AllRules(cs[1..]), Some(n));
    }
  }

  lemma {:induction false} MainRules(cs: seq<Call>, group: Option<string>, known: Known, g: Graph, rk: Rank, b: Backend,
                                     bound: nat)
    requires Ranked(g, rk) && Trace(cs, group, known, g, rk, b, true, bound)
    ensures InGroup(AllRules(cs), None) == if group.None? then Rules(cs) else []
    decreases cs
  {
    if cs != [] {
      match cs[0]
      case RuleCall(d) =>
        MainRules(cs[1..], group, known, g, rk, b, bound);
        InGroupOne(d, None);
        InGroupAppend([d], AllRules(cs[1..]), None);
      case GroupCall(name, at, from, body) =>
        MainRules(body, Some(name), {}, g, rk, b, rk[at]);
        MainRules(cs[1..], group, known + {(name, from.direction)}, g, rk, b, bound);
        InGroupAppend(AllRules(body), AllRules(cs[1..]), None);
    }
  }

  // ----- the walks of a trace -----

  ghost function WalkOf(c: Call, rk: Rank): Walk
    requires c.GroupCall?
  {
    Walk(c.name, c.from.direction, if c.at in rk then rk[c.at] else 0)
  }

  ghost function Walks(cs: seq<Call>, rk: Rank): set<Walk>
    decreases cs
  {
    if cs == [] then {}
    else
      (match cs[0]
       case RuleCall(_) => {}
       case GroupCall(_, _, _, body) => {WalkOf(cs[0], rk)} + Walks(body, rk))
      + Walks(cs[1..], rk)
  }

  lemma {:induction false} WalkNames(cs: seq<Call>, rk: Rank)
    ensures NamesOf(Walks(cs, rk)) == NameSet(cs)
    decreases cs
  {
    if cs != [] {
      WalkNames(cs[1..], rk);
      match cs[0]
      case RuleCall(_) =>
        assert [] + GroupNames(cs[1..]) == GroupNames(cs[1..]);
      case GroupCall(name, _, _, body) =>
        WalkNames(body, rk);
        NamesJoin({WalkOf(cs[0], rk)} + Walks(body, rk), Walks(cs[1..], rk));
        NamesJoin({WalkOf(cs[0], rk)}, Walks(body, rk));
        assert GroupNames(cs) == [name] + GroupNames(body) + GroupNames(cs[1..]);
    }
  }

  lemma NamesJoin(A: set<Walk>, B: set<Walk>)
    ensures NamesOf(A + B) == NamesOf(A) + NamesOf(B)
  {
    forall n | n in NamesOf(A) + NamesOf(B) ensures n in NamesOf(A + B) {
      var k :| k in A + B && k.name == n;
    }
  }

  lemma SingleJoin(A: set<Walk>, B: set<Walk>)
    requires Single(A) && Single(B) && NamesOf(A) !! NamesOf(B)
    ensures Single(A + B)
  {
    assert forall k | k in A :: k.name in NamesOf(A);
    assert forall k | k in B :: k.name in NamesOf(B);
  }

  /** When no group is walked twice, its name tells the walk. */
  lemma {:induction false} WalksSingle(cs: seq<Call>, rk: Rank)
    requires Once(GroupNames(cs))
    ensures Single(Walks(cs, rk))
    decreases cs
  {
    if cs != [] {
      var rest := GroupNames(cs[1..]);
      match cs[0]
      case RuleCall(_) =>
        assert [] + rest == rest;
        WalksSingle(cs[1..], rk);
      case GroupCall(name, _, _, body) =>
        OnceAppend([name] + GroupNames(body), rest);
        OnceAppend([name], GroupNames(body));
        WalksSingle(body, rk);
        WalksSingle(cs[1..], rk);
        WalkNames(body, rk);
        WalkNames(cs[1..], rk);
        NamesJoin({WalkOf(cs[0], rk)}, Walks(body, rk));
        SingleJoin({WalkOf(cs[0], rk)}, Walks(body, rk));
        SingleJoin({WalkOf(cs[0], rk)} + Walks(body, rk), Walks(cs[1..], rk));
    }
  }

  ghost predicate WalkedBelow(W: set<Walk>, n: string, d: Option<Direction>, bound: nat) {
    exists k | k in W :: k.name == n && k.dir == d && k.rank < bound
  }

  lemma MoreWalks(W: set<Walk>, V: set<Walk>, n: string, d: Option<Direction>, bound: nat, more: nat)
    requires WalkedBelow(W, n, d, bound) && W <= V && bound <= more
    ensures WalkedBelow(V, n, d, more)
  {
    var k :| k in W && k.name == n && k.dir == d && k.rank < bound;
    assert k in V;
  }

  lemma {:induction false} CalledBelow(cs: seq<Call>, group: Option<string>, known: Known, g: Graph, rk: Rank,
                                       b: Backend, bound: nat, n: string, d: Option<Direction>)
    requires Ranked(g, rk) && Trace(cs, group, known, g, rk, b, true, bound) && (n, d) in Called(cs)
    ensures WalkedBelow(Walks(cs, rk), n, d, bound)
    decreases cs
  {
    match cs[0]
    case RuleCall(_) =>
      CalledBelow(cs[1..], group, known, g, rk, b, bound, n, d);
      MoreWalks(Walks(cs[1..], rk), Walks(cs, rk), n, d, bound, bound);
    case GroupCall(name, at, from, body) =>
      if (n, d) == (name, from.direction) {
        assert WalkOf(cs[0], rk) in Walks(cs, rk);
      } else if (n, d) in Called(body) {
        CalledBelow(body, Some(name), {}, g, rk, b, rk[at], n, d);
        MoreWalks(Walks(body, rk), Walks(cs, rk), n, d, rk[at], bound);
      } else {
        CalledBelow(cs[1..], group, known + {(name, from.direction)}, g, rk, b, bound, n, d);
        MoreWalks(Walks(cs[1..], rk), Walks(cs, rk), n, d, bound, bound);
      }
  }

  // ----- the rules of one level of the walk -----

  /** What is known of every rule handed over by a walk that succeeds. */
  ghost predicate Made(d: Entry, b: Backend) {
    Complete(d) && b.rule(d) >= 0 && (d.target == Some(ToSubgroup) ==> d.subgroup.Some?)
  }

  lemma LevelMakes(g: Graph, rk: Rank, b: Backend, e: Entry, l: Filter?, d: Entry) returns (q: Path)
    requires Ranked(g, rk) && In(g, l) && Fresh(e) && RunList(g, rk, b, e, l).result >= 0
    requires d in RunList(g, rk, b, e, l).rules
    ensures Made(d, b) && q in ListPaths(g, rk, l) && Gives(g, b, e, e, q, d)
  {
    var h := Height(rk, l);
    ListBelow(g, rk, l, h);
    q := RunFrom(g, rk, b, e, ListPaths(g, rk, l), h, d);
    PathGives(g, rk, b, e, e, q, h);
  }

  /** A rule of a group's body has the direction the body inherited. */
  lemma BodyMakes(g: Graph, rk: Rank, b: Backend, c: Call, d: Entry)
    requires Ranked(g, rk) && GroupsTidy(g, rk) && c.GroupCall? && IsBody(g, rk, b, c, true) && d in Rules(c.body)
    ensures Made(d, b) && d.direction == c.from.direction && d.iface.None?
  {
    var e := GroupEntry(c.from, c.name);
    FreshEntries(c.from, c.name);
    var q := LevelMakes(g, rk, b, e, g[c.at].u.list, d);
    assert DirectionOf(Outer(g, q)).None?;
    PathMeets(g, b, e, q, d, SOMEVIEW);
  }

  lemma {:induction false} RulesOrBodies(cs: seq<Call>, e: Entry) returns (i: nat)
    requires e in AllRules(cs)
    ensures e in Rules(cs) || (i < |cs| && cs[i].GroupCall? && e in AllRules(cs[i].body))
    decreases |cs|
  {
    i := 0;
    if cs[0].GroupCall? && e in AllRules(cs[0].body) {
    } else if cs[0].RuleCall? && e == cs[0].entry {
    } else {
      i := RulesOrBodies(cs[1..], e);
      i := i + 1;
    }
  }

  /** A group's call in a trace. */
  lemma {:induction false} CallIn(cs: seq<Call>, group: Option<string>, known: Known, g: Graph, rk: Rank, b: Backend,
                                  bound: nat, i: nat)
    requires Ranked(g, rk) && Trace(cs, group, known, g, rk, b, true, bound) && i < |cs| && cs[i].GroupCall?
    ensures var c := cs[i];
            && IsBody(g, rk, b, c, true) && rk[c.at] < bound
                && Trace(c.body, Some(c.name), {}, g, rk, b, true, rk[c.at])
            && WalkOf(c, rk) in Walks(cs, rk) && Walks(c.body, rk) <= Walks(cs, rk)
    decreases |cs|
  {
    if i > 0 {
      match cs[0]
      case RuleCall(_) => CallIn(cs[1..], group, known, g, rk, b, bound, i - 1);
      case GroupCall(name, _, from, _) =>
        CallIn(cs[1..], group, known + {(name, from.direction)}, g, rk, b, bound, i - 1);
    }
  }

  /** Every rule of a trace is made by the walk. */
  lemma {:induction false} TraceMakes(xs: seq<Call>, group: Option<string>, g: Graph, rk: Rank, b: Backend, bound: nat,
                                      e: Entry)
    requires Ranked(g, rk) && Trace(xs, group, {}, g, rk, b, true, bound) && e in AllRules(xs)
    requires forall d | d in Rules(xs) :: Made(d, b)
    ensures Made(e, b)
    decreases xs
  {
    var i := RulesOrBodies(xs, e);
    if e !in Rules(xs) {
      var c := xs[i];
      CallIn(xs, group, {}, g, rk, b, bound, i);
      FreshEntries(c.from, c.name);
      forall d | d in Rules(c.body) ensures Made(d, b) {
        var q := LevelMakes(g, rk, b, GroupEntry(c.from, c.name), g[c.at].u.list, d);
      }
      TraceMakes(c.body, Some(c.name), g, rk, b, rk[c.at], e);
    }
  }

  lemma WalkMakes(calls: seq<Call>, root: Tree, g: Graph, rk: Rank, b: Backend)
    requires Ranked(g, rk) && In(g, Root(root)) && Trace(calls, None, {}, g, rk, b, true, Height(rk, Root(root)))
    requires RunList(g, rk, b, EMPTY, Root(root)).result >= 0
    requires RunList(g, rk, b, EMPTY, Root(root)).rules == Rules(calls)
    ensures forall e | e in AllRules(calls) :: Made(e, b)
  {
    FreshEntries(EMPTY, "");
    forall d | d in Rules(calls) ensures Made(d, b) {
      var q := LevelMakes(g, rk, b, EMPTY, Root(root), d);
    }
    forall e | e in AllRules(calls) ensures Made(e, b) {
      TraceMakes(calls, None, g, rk, b, Height(rk, Root(root)), e);
    }
  }

  // ----- the rules of a trace are placed -----

  /** A rule jumps to a group of the same level, walked in its direction. */
  lemma LevelPlaced(root: Tree, xs: seq<Call>, group: Option<string>, g: Graph, rk: Rank, b: Backend, bound: nat,
                    d: Entry)
    requires Grouped(root, g, rk, b) && Walkable(g) && GroupVerdicts.Filled(g)
    requires Trace(xs, group, {}, g, rk, b, true, bound) && d in Rules(xs)
    requires Made(d, b) && (group.Some? ==> d.iface.None?)
    ensures d.groupname == group && Placed(d, Walks(xs, rk), bound)
  {
    RuleAims(xs, group, {}, g, rk, b, bound, d);
    if d.target == Some(ToSubgroup) {
      CallsDirected(root, xs, group, {}, g, rk, b, bound);
      var k :| (d.subgroup.value, k) in {} + Called(xs)
          && (k == d.direction || k.None? || (d.groupname.Some? && d.iface.Some?));
      assert (d.subgroup.value, k).1.Some?;
      CalledBelow(xs, group, {}, g, rk, b, bound, d.subgroup.value, k);
    }
  }

  lemma MorePlaced(d: Entry, W: set<Walk>, V: set<Walk>, bound: nat)
    requires Placed(d, W, bound) && W <= V
    ensures Placed(d, V, bound)
  {
  }

  /** The rule stands in a group walked in its direction. */
  ghost predicate Inside(e: Entry, W: set<Walk>) {
    e.groupname.Some? && exists k | k in W ::
        k.name == e.groupname.value && k.dir == e.direction && Placed(e, W, k.rank)
  }

  lemma MoreInside(e: Entry, W: set<Walk>, V: set<Walk>)
    requires Inside(e, W) && W <= V
    ensures Inside(e, V)
  {
    var k :| k in W && k.name == e.groupname.value && k.dir == e.direction && Placed(e, W, k.rank);
    MorePlaced(e, W, V, k.rank);
    assert k in V;
  }

  lemma {:induction false} TracePlaced(root: Tree, xs: seq<Call>, group: Option<string>, g: Graph, rk: Rank, b: Backend,
                                       bound: nat, e: Entry)
    requires Grouped(root, g, rk, b) && Walkable(g) && GroupVerdicts.Filled(g)
    requires Trace(xs, group, {}, g, rk, b, true, bound) && e in AllRules(xs)
    requires forall d | d in Rules(xs) :: Made(d, b) && (group.Some? ==> d.iface.None?)
    ensures (e in Rules(xs) && e.groupname == group && Placed(e, Walks(xs, rk), bound)) || Inside(e, Walks(xs, rk))
    decreases xs
  {
    var i := RulesOrBodies(xs, e);
    if e in Rules(xs) {
      LevelPlaced(root, xs, group, g, rk, b, bound, e);
    } else {
      var c := xs[i];
      CallIn(xs, group, {}, g, rk, b, bound, i);
      BodyPlaced(root, c, g, rk, b, e);
      MoreInside(e, {WalkOf(c, rk)} + Walks(c.body, rk), Walks(xs, rk));
    }
  }

  lemma {:induction false} BodyPlaced(root: Tree, c: Call, g: Graph, rk: Rank, b: Backend, e: Entry)
    requires Grouped(root, g, rk, b) && Walkable(g) && GroupVerdicts.Filled(g)
    requires c.GroupCall? && IsBody(g, rk, b, c, true) && Trace(c.body, Some(c.name), {}, g, rk, b, true, rk[c.at])
    requires e in AllRules(c.body)
    ensures Inside(e, {WalkOf(c, rk)} + Walks(c.body, rk))
    decreases c
  {
    forall d | d in Rules(c.body) ensures Made(d, b) && d.direction == c.from.direction && d.iface.None? {
      BodyMakes(g, rk, b, c, d);
    }
    TracePlaced(root, c.body, Some(c.name), g, rk, b, rk[c.at], e);
    var W, V := Walks(c.body, rk), {WalkOf(c, rk)} + Walks(c.body, rk);
    if Inside(e, W) {
      MoreInside(e, W, V);
    } else {
      MorePlaced(e, W, V, rk[c.at]);
      assert WalkOf(c, rk) in V;
    }
  }

  // ----- from the source to packets -----

  function GroupBackend(v6: bool, lstate: bool, fl: Flags): Backend {
    Backend(RuleValue(v6, lstate), true, fl)
  }

  lemma {:induction false} FitCalls(cs: seq<Call>)
    requires forall e | e in AllRules(cs) :: Fit(e)
    ensures AllFit(cs)
    decreases cs
  {
    if cs != [] {
      FitCalls(cs[1..]);
      match cs[0]
      case RuleCall(d) => assert d in AllRules(cs);
      case GroupCall(_, _, _, body) => FitCalls(body);
    }
  }

  /** No rule of the walk has NAT or a negation that is not printed. */
  ghost predicate Deployed(calls: seq<Call>, env: Env) {
    forall e | e in AllRules(calls) :: !IsNat(e) && Printable(e) && WellNamed(e, env)
  }

  lemma WalkFits(calls: seq<Call>, root: Tree, g: Graph, rk: Rank, v6: bool, lstate: bool, fl: Flags, env: Env)
    requires Ranked(g, rk) && In(g, Root(root)) && Deployed(calls, env)
    requires var b := GroupBackend(v6, lstate, fl);
             && Trace(calls, None, {}, g, rk, b, true, Height(rk, Root(root)))
             && RunList(g, rk, b, EMPTY, Root(root)).result >= 0
             && RunList(g, rk, b, EMPTY, Root(root)).rules == Rules(calls)
    ensures AllFit(calls) && AllRegular(AllRules(calls), env) && Announced(calls, {})
  {
    var b := GroupBackend(v6, lstate, fl);
    WalkMakes(calls, root, g, rk, b);
    RuleValueNonzero(v6, lstate);
    forall e | e in AllRules(calls) ensures Regular(e, env) {
      assert Made(e, b);
    }
    FitCalls(calls);
    TraceAnnounced(calls, None, {}, {}, g, rk, b, true, Height(rk, Root(root)));
  }

  lemma WalkPlaced(calls: seq<Call>, root: Tree, g: Graph, rk: Rank, b: Backend)
    requires Grouped(root, g, rk, b) && Walkable(g) && GroupVerdicts.Filled(g) && In(g, Root(root))
    requires Trace(calls, None, {}, g, rk, b, true, Height(rk, Root(root)))
    requires RunList(g, rk, b, EMPTY, Root(root)).result >= 0
    requires RunList(g, rk, b, EMPTY, Root(root)).rules == Rules(calls)
    ensures AllPlaced(AllRules(calls), Walks(calls, rk), Height(rk, Root(root)))
  {
    var top := Height(rk, Root(root));
    FreshEntries(EMPTY, "");
    forall d | d in Rules(calls) ensures Made(d, b) {
      var q := LevelMakes(g, rk, b, EMPTY, Root(root), d);
    }
    forall e | e in AllRules(calls) ensures PlacedIn(e, Walks(calls, rk), top) {
      TracePlaced(root, calls, None, g, rk, b, top, e);
    }
  }

  /** First match over the inlined rules is the verdict of the first alternative that applies. */
  lemma {:induction false} InlinedIsFirst(xs: seq<Alternative>, fl: Flags, w: View)
    requires Entries(EMPTY, xs, fl).Some?
    ensures VerdictVal(FirstVal(xs, fl, w)) == FirstOf(xs, fl, w.d, w.fwd, w.p, w.env)
    decreases |xs|
  {
    if xs != [] {
      InlinedIsFirst(xs[1..], fl, w);
      AlternativeGiven(xs[0], fl);
    }
  }

  lemma AlternativeGiven(a: Alternative, fl: Flags)
    requires EntryOf(EMPTY, a, fl).Some?
    ensures DirectionOf(a).Some? && TargetIn(a).Some?
  {
    assert SourceVerdicts.Whole(EMPTY);
    FoldKeys(EMPTY, a);
  }

  /** The flags do not come between the parts of an alternative. */
  ghost predicate FlagsAgree(root: Tree, fl: Flags, fwd: bool) {
    Default(fl) != Some(if fwd then LocalOnly else RoutedOnly) || AllAgree(root, fl)
  }

  /** The rules of the walk with their jumps decide as the first alternative of the source that applies. */
  lemma WalkDecides(ast: RuleList, k: Lookup, b: Backend, calls: seq<Call>, root: Tree, g: Graph, rk: Rank, w: View,
                    depth: nat)
    requires BothWalk(ast, k, b, calls, root, g, rk) && FlagsAgree(root, b.flags, w.fwd)
    requires depth >= Height(rk, Root(root))
    ensures Decision(Rules(calls), calls, w, depth) == FirstOf(Compiled(ast, k), b.flags, w.d, w.fwd, w.p, w.env)
  {
    BothWalked(ast, k, b, calls, root, g, rk);
    BothSucceed(root, g, rk, b, w);
    GroupsInlined(ast, k, b, calls, root, g, rk, w, depth);
    InlinedDecides(Compiled(ast, k), b.flags, w);
    InlinedIsFirst(Compiled(ast, k), b.flags, w);
  }

  /** The script of the walk has been loaded over `before`, and gave `rs`. */
  ghost predicate Loads(ast: RuleList, k: Lookup, v6: bool, lstate: bool, fl: Flags, calls: seq<Call>, root: Tree,
                        g: Graph, rk: Rank, style: Style, before: Ruleset, env: Env, rs: Ruleset) {
    && BothWalk(ast, k, GroupBackend(v6, lstate, fl), calls, root, g, rk) && Deployed(calls, env)
    && Load(GroupScript(style, true, lstate, calls), before) == Some(rs)
  }

  /** It loads exactly when no group is walked twice. */
  lemma LoadsExactly(ast: RuleList, k: Lookup, v6: bool, lstate: bool, fl: Flags, calls: seq<Call>, root: Tree,
                     g: Graph, rk: Rank, style: Style, before: Ruleset, env: Env)
    requires BothWalk(ast, k, GroupBackend(v6, lstate, fl), calls, root, g, rk) && Deployed(calls, env)
    ensures Load(GroupScript(style, true, lstate, calls), before).Some? <==> Once(GroupNames(calls))
  {
    BothWalked(ast, k, GroupBackend(v6, lstate, fl), calls, root, g, rk);
    WalkFits(calls, root, g, rk, v6, lstate, fl, env);
    GroupScriptLoads(style, lstate, calls, before);
  }

  lemma LoadedReady(ast: RuleList, k: Lookup, v6: bool, lstate: bool, fl: Flags, calls: seq<Call>, root: Tree,
                    g: Graph, rk: Rank, style: Style, before: Ruleset, w: View, rs: Ruleset)
    requires Loads(ast, k, v6, lstate, fl, calls, root, g, rk, style, before, w.env, rs) && Tracked(w)
    ensures GroupedPackets.Ready(rs, style, lstate, AllRules(calls), Walks(calls, rk), Height(rk, Root(root)), calls, w)
  {
    var b := GroupBackend(v6, lstate, fl);
    BothWalked(ast, k, b, calls, root, g, rk);
    GroupsAreTidy(root, g, rk, b);
    LoadsExactly(ast, k, v6, lstate, fl, calls, root, g, rk, style, before, w.env);
    WalkFits(calls, root, g, rk, v6, lstate, fl, w.env);
    WalkPlaced(calls, root, g, rk, b);
    GroupScriptLoads(style, lstate, calls, before);
    LoadedChains(style, lstate, calls, before.policy);
    WalkReady(rs, style, lstate, calls, root, g, rk, b, w);
  }

  lemma WalkReady(rs: Ruleset, style: Style, lstate: bool, calls: seq<Call>, root: Tree, g: Graph, rk: Rank, b: Backend,
                  w: View)
    requires Ranked(g, rk) && Trace(calls, None, {}, g, rk, b, true, Height(rk, Root(root))) && Once(GroupNames(calls))
    requires Holding(rs, style, lstate, AllRules(calls), NameSet(calls)) && Tracked(w)
    requires AllRegular(AllRules(calls), w.env)
    requires AllPlaced(AllRules(calls), Walks(calls, rk), Height(rk, Root(root)))
    ensures GroupedPackets.Ready(rs, style, lstate, AllRules(calls), Walks(calls, rk), Height(rk, Root(root)), calls, w)
  {
    WalkNames(calls, rk);
    WalksSingle(calls, rk);
    forall n: string ensures InGroup(AllRules(calls), Some(n)) == ChainIn(calls, n) { ChainRules(calls, n); }
    MainRules(calls, None, {}, g, rk, b, Height(rk, Root(root)));
  }

  /** Reply rules, with their jumps, let the packet through. */
  ghost predicate ReplyPasses(calls: seq<Call>, lstate: bool, w: View, top: nat) {
    Replied(AllRules(calls), None, lstate, w, top)
  }

  /** What the chain for a packet to or from the machine, or FORW_OUT for a forwarded one, makes of it. */
  lemma ChainDoes(ast: RuleList, k: Lookup, v6: bool, lstate: bool, fl: Flags, calls: seq<Call>, root: Tree, g: Graph,
                  rk: Rank, style: Style, before: Ruleset, w: View, rs: Ruleset, depth: nat)
    requires Loads(ast, k, v6, lstate, fl, calls, root, g, rk, style, before, w.env, rs) && Tracked(w)
    requires FlagsAgree(root, fl, w.fwd) && depth >= Height(rk, Root(root)) && !(w.fwd && w.d == Input)
    ensures Chain(None, BaseFor(w.d, w.fwd)) in rs.chains
    ensures Evaluate(rs.chains[Chain(None, BaseFor(w.d, w.fwd))], rs, w.p, w.env, depth)
         == if !w.fwd && LightAccepts(lstate, AllFeatures(AllRules(calls)), w.p, w.env) then Some(Accepted)
            else if ReplyPasses(calls, lstate, w, Height(rk, Root(root))) then Some(Accepted)
            else FirstOf(Compiled(ast, k), fl, w.d, w.fwd, w.p, w.env)
  {
    var es, W, top := AllRules(calls), Walks(calls, rk), Height(rk, Root(root));
    LoadedReady(ast, k, v6, lstate, fl, calls, root, g, rk, style, before, w, rs);
    MainEvaluates(rs, style, lstate, es, W, top, calls, w, None, -1, depth);
    DecidedAtOnce(style, None, Rules(calls), calls, w, depth);
    WalkDecides(ast, k, GroupBackend(v6, lstate, fl), calls, root, g, rk, w, depth);
  }

  /** The verdict of the loaded script on a packet to or from the machine, of a new connection or a known one. */
  lemma LocalPackets(ast: RuleList, k: Lookup, v6: bool, lstate: bool, fl: Flags, calls: seq<Call>, root: Tree,
                     g: Graph, rk: Rank, style: Style, before: Ruleset, w: View, rs: Ruleset, depth: nat)
    requires Loads(ast, k, v6, lstate, fl, calls, root, g, rk, style, before, w.env, rs) && Tracked(w) && !w.fwd
    requires FlagsAgree(root, fl, false) && depth >= Height(rk, Root(root))
    ensures Filtered(rs, BaseFor(w.d, false), w.p, w.env, depth)
         == Some(if LightAccepts(lstate, AllFeatures(AllRules(calls)), w.p, w.env)
                    || ReplyPasses(calls, lstate, w, Height(rk, Root(root))) then Accepted
                 else OrDrop(FirstOf(Compiled(ast, k), fl, w.d, false, w.p, w.env)))
  {
    ChainDoes(ast, k, v6, lstate, fl, calls, root, g, rk, style, before, w, rs, depth);
    LoadedReady(ast, k, v6, lstate, fl, calls, root, g, rk, style, before, w, rs);
    assert MainHolds(rs, style, lstate, AllRules(calls), w.d, false);
  }

  /** What becomes of a packet in FORW_OUT. */
  ghost function Onward(ast: RuleList, k: Lookup, lstate: bool, fl: Flags, calls: seq<Call>, top: nat, p: Packet,
                        env: Env): Option<Verdict> {
    if ReplyPasses(calls, lstate, View(Output, true, p, env), top) then Some(Accepted)
    else FirstOf(Compiled(ast, k), fl, Output, true, p, env)
  }

  lemma OnwardSends(ast: RuleList, k: Lookup, v6: bool, lstate: bool, fl: Flags, calls: seq<Call>, root: Tree, g: Graph,
                    rk: Rank, style: Style, before: Ruleset, p: Packet, env: Env, rs: Ruleset)
    requires Loads(ast, k, v6, lstate, fl, calls, root, g, rk, style, before, env, rs)
    requires Tracked(View(Input, true, p, env)) && FlagsAgree(root, fl, true)
    ensures Sends(rs, View(Input, true, p, env), Onward(ast, k, lstate, fl, calls, Height(rk, Root(root)), p, env),
                  Height(rk, Root(root)))
  {
    var o, top := View(Output, true, p, env), Height(rk, Root(root));
    ChainDoes(ast, k, v6, lstate, fl, calls, root, g, rk, style, before, o, rs, top);
    forall n: nat | n >= top
      ensures Evaluate(rs.chains[FORW_OUT_CHAIN], rs, p, env, n) == Onward(ast, k, lstate, fl, calls, top, p, env)
    {
      ChainDoes(ast, k, v6, lstate, fl, calls, root, g, rk, style, before, o, rs, n);
    }
  }

  /** The verdict of the loaded script on a forwarded packet: without the generic rules it has to get
      through FORW_OUT, and to be sent there. */
  lemma ForwardedPackets(ast: RuleList, k: Lookup, v6: bool, lstate: bool, fl: Flags, calls: seq<Call>, root: Tree,
                         g: Graph, rk: Rank, style: Style, before: Ruleset, p: Packet, env: Env, rs: Ruleset,
                         depth: nat)
    requires Loads(ast, k, v6, lstate, fl, calls, root, g, rk, style, before, env, rs)
    requires Tracked(View(Input, true, p, env)) && FlagsAgree(root, fl, true) && depth > 2 * Height(rk, Root(root))
    ensures var i, o, top, xs := View(Input, true, p, env), View(Output, true, p, env), Height(rk, Root(root)),
                                 Compiled(ast, k);
            Filtered(rs, FORWARD, p, env, depth) == Some(Accepted) <==>
              || LightAccepts(lstate, AllFeatures(AllRules(calls)), p, env)
              || ((ReplyPasses(calls, lstate, o, top) || FirstOf(xs, fl, Output, true, p, env) == Some(Accepted))
                  && (ReplyPasses(calls, lstate, i, top) || LetsOn(style, FirstOf(xs, fl, Input, true, p, env))))
  {
    var i, o, top := View(Input, true, p, env), View(Output, true, p, env), Height(rk, Root(root));
    var out := Onward(ast, k, lstate, fl, calls, top, p, env);
    OnwardSends(ast, k, v6, lstate, fl, calls, root, g, rk, style, before, p, env, rs);
    var es, W := AllRules(calls), Walks(calls, rk);
    LoadedReady(ast, k, v6, lstate, fl, calls, root, g, rk, style, before, i, rs);
    MainEvaluates(rs, style, lstate, es, W, top, calls, i, out, top, depth);
    assert MainHolds(rs, style, lstate, es, Input, true);
    SentThrough(rs, style, lstate, es, W, top, calls, i, out, depth);
    WalkDecides(ast, k, GroupBackend(v6, lstate, fl), calls, root, g, rk, i, depth);
  }

  lemma SentThrough(rs: Ruleset, style: Style, lstate: bool, es: seq<Entry>, W: set<Walk>, top: nat, cs: seq<Call>,
                    w: View, out: Option<Verdict>, depth: nat)
    requires GroupedPackets.Ready(rs, style, lstate, es, W, top, cs, w) && w.fwd && w.d == Input && depth >= top
    ensures Decided(style, out, Rules(cs), cs, w, depth) == Some(Accepted)
       <==> out == Some(Accepted) && LetsOn(style, Decision(Rules(cs), cs, w, depth))
  {
    forall e | e in Rules(cs) ensures e in es && Placed(e, W, top) {
      InGroupIn(es, None, e);
      assert PlacedIn(e, W, top);
    }
    forall e | e in es ensures Fit(e) {
      assert Regular(e, w.env);
    }
    DecidedThrough(style, out, Rules(cs), es, W, top, cs, w, top, depth);
  }

  /** The script of a filter with groups, loaded, gives a packet that opens a connection to or from the
      machine the verdict of the first alternative of the source that applies to it; it loads exactly
      when no group is walked twice.  (The rest is what groups as chains need to decide as groups
      inlined, and that no rule has NAT or a negation that is not printed.) */
  lemma GroupedSourceDecides(ast: RuleList, k: Lookup, v6: bool, lstate: bool, fl: Flags, calls: seq<Call>, root: Tree,
                             g: Graph, rk: Rank, style: Style, before: Ruleset, d: Direction, p: Packet, env: Env,
                             depth: nat)
    requires BothWalk(ast, k, GroupBackend(v6, lstate, fl), calls, root, g, rk) && Deployed(calls, env)
    requires FlagsAgree(root, fl, false) && p.state == New && depth >= Height(rk, Root(root))
    ensures Load(GroupScript(style, true, lstate, calls), before).Some? <==> Once(GroupNames(calls))
    ensures Once(GroupNames(calls)) ==>
      Filtered(Load(GroupScript(style, true, lstate, calls), before).value, if d == Input then INPUT else OUTPUT, p,
               env,
               depth)
      == Some(OrDrop(FirstOf(Compiled(ast, k), fl, d, false, p, env)))
  {
    var w := View(d, false, p, env);
    LoadsExactly(ast, k, v6, lstate, fl, calls, root, g, rk, style, before, env);
    if Once(GroupNames(calls)) {
      var rs := Load(GroupScript(style, true, lstate, calls), before).value;
      LocalPackets(ast, k, v6, lstate, fl, calls, root, g, rk, style, before, w, rs, depth);
      NewIsNoAnswer(ast, k, v6, lstate, fl, calls, root, g, rk, w);
    }
  }

  lemma NewIsNoAnswer(ast: RuleList, k: Lookup, v6: bool, lstate: bool, fl: Flags, calls: seq<Call>, root: Tree,
                      g: Graph, rk: Rank, w: View)
    requires BothWalk(ast, k, GroupBackend(v6, lstate, fl), calls, root, g, rk) && Deployed(calls, w.env)
    requires w.p.state == New
    ensures !ReplyPasses(calls, lstate, w, Height(rk, Root(root)))
  {
    BothWalked(ast, k, GroupBackend(v6, lstate, fl), calls, root, g, rk);
    WalkFits(calls, root, g, rk, v6, lstate, fl, w.env);
    NewIsUnanswered(AllRules(calls), None, lstate, w, Height(rk, Root(root)));
  }

  /** A packet that opens a connection through the router is forwarded by the loaded script exactly when
      the first output alternative that applies accepts it and the first input alternative lets it on:
      in the restore back end by accepting it, in the iptables back end by applying at all. */
  lemma GroupedSourceForwards(ast: RuleList, k: Lookup, v6: bool, lstate: bool, fl: Flags, calls: seq<Call>, root: Tree,
                              g: Graph, rk: Rank, style: Style, before: Ruleset, p: Packet, env: Env, depth: nat)
    requires BothWalk(ast, k, GroupBackend(v6, lstate, fl), calls, root, g, rk) && Deployed(calls, env)
    requires FlagsAgree(root, fl, true) && p.state == New && depth > 2 * Height(rk, Root(root))
    requires Once(GroupNames(calls))
    ensures Load(GroupScript(style, true, lstate, calls), before).Some?
    ensures Filtered(Load(GroupScript(style, true, lstate, calls), before).value, FORWARD, p, env, depth)
        == Some(Accepted)
       <==> FirstOf(Compiled(ast, k), fl, Output, true, p, env) == Some(Accepted)
            && if style == Iptables then FirstOf(Compiled(ast, k), fl, Input, true, p, env).Some?
               else FirstOf(Compiled(ast, k), fl, Input, true, p, env) == Some(Accepted)
  {
    LoadsExactly(ast, k, v6, lstate, fl, calls, root, g, rk, style, before, env);
    var rs := Load(GroupScript(style, true, lstate, calls), before).value;
    ForwardedPackets(ast, k, v6, lstate, fl, calls, root, g, rk, style, before, p, env, rs, depth);
    NewIsNoAnswer(ast, k, v6, lstate, fl, calls, root, g, rk, View(Input, true, p, env));
    NewIsNoAnswer(ast, k, v6, lstate, fl, calls, root, g, rk, View(Output, true, p, env));
  }

  // ----- the whole compiler, groups kept -----

  /** The callbacks of a walk, in order: those of the rules and those of the groups. */
  method EmitCalls(style: Style, v6: bool, lstate: bool, calls: seq<Call>, feat: set<nat>)
    returns (cmds: seq<Command>, feat': set<nat>)
    requires forall e | e in AllRules(calls) ::
        !Unsupported(v6, e) && (e.target == Some(ToSubgroup) ==> e.subgroup.Some?)
    ensures cmds == CallCommands(style, lstate, calls) && feat' == feat + AllFeatures(AllRules(calls))
    decreases calls
  {
    if calls == [] {
      return [], feat;
    }
    var first, rest;
    first, feat' := EmitCall(style, v6, lstate, calls[0], feat);
    rest, feat' := EmitCalls(style, v6, lstate, calls[1..], feat');
    CallStep(style, lstate, calls);
    cmds := first + rest;
  }

  /** One callback; that of a group comes before those of its body. */
  method EmitCall(style: Style, v6: bool, lstate: bool, call: Call, feat: set<nat>)
    returns (cmds: seq<Command>, feat': set<nat>)
    requires forall e | e in RulesOfCall(call) ::
        !Unsupported(v6, e) && (e.target == Some(ToSubgroup) ==> e.subgroup.Some?)
    ensures cmds == CommandsOfCall(style, lstate, call) && feat' == feat + AllFeatures(RulesOfCall(call))
    decreases call
  {
    match call
    case RuleCall(d) =>
      var r;
      assert d in RulesOfCall(call);
      cmds, r, feat' := RuleCommon(style, v6, lstate, d, feat);
      OneFeatures(d);
    case GroupCall(name, _, _, body) =>
      cmds, feat' := EmitCalls(style, v6, lstate, body, feat);
      cmds := GroupCommands(name) + cmds;
  }

  function RulesOfCall(c: Call): seq<Entry> {
    match c case RuleCall(d) => [d] case GroupCall(_, _, _, body) => AllRules(body)
  }

  function CommandsOfCall(style: Style, lstate: bool, c: Call): seq<Command> {
    match c
    case RuleCall(d) => EntryCommands(style, lstate, d)
    case GroupCall(name, _, _, body) => GroupCommands(name) + CallCommands(style, lstate, body)
  }

  lemma CallStep(style: Style, lstate: bool, cs: seq<Call>)
    requires cs != []
    ensures AllRules(cs) == RulesOfCall(cs[0]) + AllRules(cs[1..])
    ensures CallCommands(style, lstate, cs)
        == CommandsOfCall(style, lstate, cs[0]) + CallCommands(style, lstate, cs[1..])
    ensures AllFeatures(AllRules(cs)) == AllFeatures(RulesOfCall(cs[0])) + AllFeatures(AllRules(cs[1..]))
  {
    FeaturesAppend(RulesOfCall(cs[0]), AllRules(cs[1..]));
  }

  lemma OneFeatures(e: Entry)
    ensures AllFeatures([e]) == Features(e)
  {
    assert [e][1..] == [];
  }

  lemma {:induction false} FeaturesAppend(es: seq<Entry>, ds: seq<Entry>)
    ensures AllFeatures(es + ds) == AllFeatures(es) + AllFeatures(ds)
    decreases |es|
  {
    if es == [] {
      assert es + ds == ds;
    } else {
      assert (es + ds)[0] == es[0] && (es + ds)[1..] == es[1..] + ds;
      FeaturesAppend(es[1..], ds);
    }
  }

  /** The two iptables back ends for filters with groups. */
  method CompileGroupScript(ast: RuleList, k: Lookup, style: Style, v6: bool, skeleton: bool, lstate: bool, fl: Flags,
                            count: nat)
    returns (ok: bool, cmds: seq<Command>, calls: seq<Call>, ghost root: Tree, ghost g: Graph, ghost rk: Rank)
    requires Unshared(RulesForm(ast, k, count).form, false)
    ensures ok ==> !Fails(RulesForm(ast, k, count).form, false)
    ensures !Fails(RulesForm(ast, k, count).form, false) ==>
      && Ranked(g, rk) && In(g, Root(root)) && AllMoved(Compiled(ast, k), ListReads(root, false))
      && (ok <==> RunList(g, rk, GroupBackend(v6, lstate, fl), EMPTY, Root(root)).result >= 0)
    ensures ok ==> WalkedGroups(ast, k, GroupBackend(v6, lstate, fl), calls, root, g, rk)
    ensures ok ==> cmds == GroupScript(style, skeleton, lstate, calls)
    ensures ok && GroupNaming.NamesApart(ast, k, count) ==> DistinctNames(g)
  {
    cmds := [];
    var b := GroupBackend(v6, lstate, fl);
    RuleValueNonzero(v6, lstate);
    var c;
    ok, calls, c, root, g, rk := CompileGroups(ast, k, b, count);
    if !ok || c < 0 {
      ok := false;
      return;
    }
    WalkMakes(calls, root, g, rk, b);
    forall e | e in AllRules(calls)
      ensures !Unsupported(v6, e) && (e.target == Some(ToSubgroup) ==> e.subgroup.Some?)
    {
      assert Made(e, b);
    }
    var feat;
    cmds, feat := EmitCalls(style, v6, lstate, calls, {});
    cmds := (if skeleton then Skeleton(style) else []) + cmds + (if skeleton then StateRules(lstate, feat) else [])
            + (if style == Restore then [Commit] else []);
    assert feat == AllFeatures(AllRules(calls));
  }
}
