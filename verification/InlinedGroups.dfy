/** Groups as chains of their own and groups inlined decide alike exactly where the flags do not come
    between the parts of a rule. */
module InlinedGroups {
  import opened FilterSpec
  import opened FilterEntry
  import opened EntryOrder
  import opened FilterGraph
  import opened FilterTree
  import opened FilterNegation
  import opened FilterPasses
  import opened FilterSyntax
  import opened SyntaxForms
  import opened SyntaxReadings
  import opened Readings
  import opened RuleWalk
  import opened CompiledRules
  import opened Netfilter
  import IptablesRules
  import opened SourceVerdicts
  import opened GroupValues
  import opened GroupVerdicts
  import opened GroupCounts
  import opened GroupSplits

  // ----- orderly filters, for all flags -----

  /** Every alternative of the filter that passes a group agrees with the flags. */
  ghost predicate AllAgree(root: Tree, fl: Flags) {
    forall s | s in ListSplits(root) :: Agrees(s, fl)
  }

  /** Then so does every alternative of a group. */
  lemma InnerAgree(root: Tree, g: Graph, rk: Rank, b: Backend, n: Filter, s: Split)
    requires Walked(root, g, rk, b) && AllAgree(root, b.flags) && n in g && IsGroup(g, n)
    requires At(root, n).Cons? && s in ListSplits(At(root, n).inner) && OneGroupEach(At(root, n).inner)
    requires OneGroupEach(root)
    ensures Agrees(s, b.flags)
  {
    var t, x := At(root, n).inner, Joined(s);
    GroupList(root, g, rk, b, n);
    AtNode(root, null, g, n);
    if RoutingOf(x).Some? {
      SplitFine(t, s);
      forall m | m in Nodes(root) && At(root, m).Cons? && At(root, m).kind.SubgroupKind?
        ensures OneGroupEach(At(root, m).inner)
      {
        GroupOneEach(root, g, rk, b, m);
      }
      var r := SplitThrough(root, n, x);
      SplitFine(root, r);
      ReadsMost(root, RoutingBit, Joined(r));
      assert RoutingBit in SINGLE;
      ContainsRouting(Joined(r), x);
      assert Agrees(r, b.flags);
    }
  }

  lemma GroupOneEach(root: Tree, g: Graph, rk: Rank, b: Backend, n: Filter)
    requires Walked(root, g, rk, b) && n in Nodes(root) && At(root, n).Cons? && At(root, n).kind.SubgroupKind?
    ensures n in g && IsGroup(g, n) && OneGroupEach(At(root, n).inner)
  {
    AtNode(root, null, g, n);
    GroupList(root, g, rk, b, n);
    GroupsCount(root, g, rk, b, At(root, n).inner);
  }

  lemma PartFaithful(root: Tree, t: Tree, k: Filter?, g: Graph, rk: Rank, b: Backend, e: Entry, h: nat, w: View)
    requires Walked(root, g, rk, b) && Part(root, t, g, rk, b, e, h) && Unrolled(t, k, g)
    requires Default(b.flags) != Some(Barred(w)) || forall s | s in ListSplits(t) :: Agrees(s, b.flags)
    ensures Faithful(t, b.flags, w)
  {
    GroupsCount(root, g, rk, b, t);
    forall s | s in ListSplits(t) && s.inner.Some?
      ensures AltVal(Joined(s), b.flags, w) == Along(AltVal(Outside(s), b.flags, w), AltVal(s.inner.value, b.flags, w))
    {
      SplitsApart(root, t, k, g, rk, b, e, h, s);
      PartsSay(s, b.flags, w);
    }
  }

  lemma GroupFaithful(root: Tree, g: Graph, rk: Rank, b: Backend, n: Filter, w: View)
    requires Walked(root, g, rk, b) && (Default(b.flags) != Some(Barred(w)) || AllAgree(root, b.flags))
    requires n in g && IsGroup(g, n) && OneGroupEach(root)
    ensures Faithful(InnerList(At(root, n)), b.flags, w)
  {
    var e := GroupPart(root, g, rk, b, n);
    GroupList(root, g, rk, b, n);
    AtNode(root, null, g, n);
    GroupOneEach(root, g, rk, b, n);
    if Default(b.flags) == Some(Barred(w)) {
      forall s | s in ListSplits(At(root, n).inner) ensures Agrees(s, b.flags) {
        InnerAgree(root, g, rk, b, n, s);
      }
    }
    PartFaithful(root, At(root, n).inner, null, g, rk, b, e, Height(rk, g[n].u.list), w);
  }

  lemma WholeFaithful(root: Tree, g: Graph, rk: Rank, b: Backend, w: View)
    requires Walked(root, g, rk, b) && (Default(b.flags) != Some(Barred(w)) || AllAgree(root, b.flags))
    ensures AllFaithful(root, g, b.flags, w)
  {
    WalkedPart(root, g, rk, b);
    PartFaithful(root, root, null, g, rk, b, EMPTY, Height(rk, Root(root)), w);
    forall n | n in g && IsGroup(g, n) ensures Faithful(InnerList(At(root, n)), b.flags, w) {
      GroupFaithful(root, g, rk, b, n, w);
    }
  }

  lemma GroupsAreTidy(root: Tree, g: Graph, rk: Rank, b: Backend)
    requires Walked(root, g, rk, b)
    ensures GroupsTidy(g, rk)
  {
    forall n | n in g && IsGroup(g, n)
      ensures forall q | q in ListPaths(g, rk, g[n].u.list) :: Tidy(g, q) && DirectionOf(Outer(g, q)).None?
    {
      forall q | q in ListPaths(g, rk, g[n].u.list) ensures Tidy(g, q) && DirectionOf(Outer(g, q)).None? {
        BodyTidy(root, g, rk, b, n, q);
      }
    }
  }

  /** A filter is orderly when both its walk with groups and its walk with inlined groups succeed, and
      its alternatives agree with the flags. */
  lemma BothSucceed(root: Tree, g: Graph, rk: Rank, b: Backend, w: View)
    requires Walked(root, g, rk, b) && DistinctNames(g)
        && (Default(b.flags) != Some(Barred(w)) || AllAgree(root, b.flags))
    ensures Orderly(root, g, rk, b.flags, w)
  {
    WalkedPart(root, g, rk, b);
    WholeFaithful(root, g, rk, b, w);
    GroupsAreTidy(root, g, rk, b);
    forall p | p in PathsOf(root) ensures Tidy(g, p) {
      PathTidy(root, root, g, rk, b, EMPTY, Height(rk, Root(root)), p);
    }
  }

  /** Both walks succeed: the one that keeps the groups, and the one with the groups inlined. */
  ghost predicate BothWalk(ast: RuleList, k: Lookup, b: Backend, calls: seq<Call>, root: Tree, g: Graph, rk: Rank) {
    && WalkedGroups(ast, k, b, calls, root, g, rk) && !AnyLeadsWithTarget(ast, k) && DistinctNames(g) && Directed(b)
    && Entries(EMPTY, Compiled(ast, k), b.flags).Some?
  }

  lemma BothWalked(ast: RuleList, k: Lookup, b: Backend, calls: seq<Call>, root: Tree, g: Graph, rk: Rank)
    requires BothWalk(ast, k, b, calls, root, g, rk)
    ensures Walked(root, g, rk, b)
    ensures Entries(EMPTY, ListReads(root, false), b.flags) == Entries(EMPTY, Compiled(ast, k), b.flags)
  {
    EntriesMoved(Compiled(ast, k), ListReads(root, false), b.flags);
    InlinedSingle(root, b.flags);
  }

  /** Groups as chains decide as groups inlined: when both walks succeed, for different group names and
      rules that do not start with their targets, every packet gets the same verdict from the rules with
      jumps into the groups' chains as from the inlined rules, provided every alternative that passes a
      group gives no routing option or that of the flags.  (Without a flag there is nothing to provide.) */
  lemma GroupsAreInlined(ast: RuleList, k: Lookup, b: Backend, calls: seq<Call>, root: Tree, g: Graph, rk: Rank,
                         w: View, depth: nat)
    requires BothWalk(ast, k, b, calls, root, g, rk) && AllAgree(root, b.flags) && depth >= Height(rk, Root(root))
    ensures Decision(Rules(calls), calls, w, depth)
        == Decision(Entries(EMPTY, Compiled(ast, k), b.flags).value, [], w, 0)
  {
    BothWalked(ast, k, b, calls, root, g, rk);
    BothSucceed(root, g, rk, b, w);
    GroupsInlined(ast, k, b, calls, root, g, rk, w, depth);
  }

  // ----- without the agreement -----

  lemma {:induction false} RunFrom(g: Graph, rk: Rank, b: Backend, e: Entry, ps: seq<Path>, bound: nat, d: Entry)
    returns (q: Path)
    requires Ranked(g, rk) && PathsBelow(g, rk, ps, bound) && Run(g, rk, b, e, ps, bound).result >= 0
    requires d in Run(g, rk, b, e, ps, bound).rules
    ensures q in ps && PathBelow(g, rk, q, bound) && RunPath(g, rk, b, e, q, bound).result >= 0
    ensures d in RunPath(g, rk, b, e, q, bound).rules
    decreases |ps|
  {
    RunStep(g, rk, b, e, ps, bound);
    if d in RunPath(g, rk, b, e, ps[0], bound).rules {
      q := ps[0];
    } else {
      q := RunFrom(g, rk, b, e, ps[1..], bound, d);
    }
  }

  /** Every rule in a group's chain comes from a walk of its body. */
  lemma {:induction false} ChainEntries(xs: seq<Call>, group: Option<string>, known: Known, g: Graph, rk: Rank,
                                        b: Backend, bound: nat,
                                        n: Filter, d: Entry) returns (from: Entry)
    requires Ranked(g, rk) && DistinctNames(g) && Trace(xs, group, known, g, rk, b, true, bound)
    requires n in g && IsGroup(g, n) && group != Some(g[n].u.name) && d in ChainIn(xs, g[n].u.name)
    ensures var o := RunList(g, rk, b, GroupEntry(from, g[n].u.name), g[n].u.list); o.result >= 0 && d in o.rules
    decreases xs
  {
    var name := g[n].u.name;
    match xs[0]
    case RuleCall(_) =>
      from := ChainEntries(xs[1..], group, known, g, rk, b, bound, n, d);
    case GroupCall(m, at, f, body) =>
      if d in ChainIn(body, name) {
        if m == name {
          assert at == n;
          NotBelow(body, Some(name), {}, g, rk, b, rk[at], n);
          from := f;
        } else {
          from := ChainEntries(body, Some(m), {}, g, rk, b, rk[at], n, d);
        }
      } else {
        from := ChainEntries(xs[1..], group, known + {(m, f.direction)}, g, rk, b, bound, n, d);
      }
  }

  /** It comes from a path of the group's list. */
  lemma ChainPath(root: Tree, calls: seq<Call>, g: Graph, rk: Rank, b: Backend, n: Filter, d: Entry)
    returns (from: Entry, q: Path)
    requires Walked(root, g, rk, b) && DistinctNames(g)
    requires Trace(calls, None, {}, g, rk, b, true, Height(rk, Root(root)))
    requires n in g && IsGroup(g, n) && d in ChainIn(calls, g[n].u.name)
    ensures At(root, n).Cons? && q in PathsOf(At(root, n).inner) && q in ListPaths(g, rk, g[n].u.list)
    ensures Fresh(GroupEntry(from, g[n].u.name)) && PathBelow(g, rk, q, Height(rk, g[n].u.list))
    ensures var o := RunPath(g, rk, b, GroupEntry(from, g[n].u.name), q, Height(rk, g[n].u.list));
        o.result >= 0 && d in o.rules
  {
    var l := g[n].u.list;
    from := ChainEntries(calls, None, {}, g, rk, b, Height(rk, Root(root)), n, d);
    BodyPart(root, g, rk, b, n, from);
    GroupList(root, g, rk, b, n);
    ListBelow(g, rk, l, Height(rk, l));
    q := RunFrom(g, rk, b, GroupEntry(from, g[n].u.name), ListPaths(g, rk, l), Height(rk, l), d);
  }

  /** If a path gives a routing option outside its group, the rules in the group's chain give none. */
  lemma ChainRouting(root: Tree, calls: seq<Call>, g: Graph, rk: Rank, b: Backend, p: Path, d: Entry)
    requires Walked(root, g, rk, b) && DistinctNames(g)
    requires Trace(calls, None, {}, g, rk, b, true, Height(rk, Root(root)))
    requires p in PathsOf(root) && HasGroup(g, p) && RoutingOf(Outer(g, p)).Some?
    requires d in ChainIn(calls, g[GroupIn(g, p)].u.name)
    ensures d.rtype == Default(b.flags)
  {
    var n := GroupIn(g, p);
    var from, q := ChainPath(root, calls, g, rk, b, n, d);
    InnerUnrouted(root, g, rk, b, p, q);
    BodyTidy(root, g, rk, b, n, q);
    PathRouting(g, rk, b, GroupEntry(from, g[n].u.name), q, Height(rk, g[n].u.list), d);
  }

  lemma PathRouting(g: Graph, rk: Rank, b: Backend, e: Entry, q: Path, h: nat, d: Entry)
    requires Ranked(g, rk) && PathBelow(g, rk, q, h) && Fresh(e) && DirectionOf(Outer(g, q)).None?
    requires RunPath(g, rk, b, e, q, h).result >= 0 && d in RunPath(g, rk, b, e, q, h).rules
    ensures d.rtype == Routing(Outer(g, q), b.flags)
  {
    PathGives(g, rk, b, e, e, q, h);
    PathMeets(g, b, e, q, d, SOMEVIEW);
  }

  lemma InnerUnrouted(root: Tree, g: Graph, rk: Rank, b: Backend, p: Path, q: Path)
    requires Walked(root, g, rk, b) && p in PathsOf(root) && HasGroup(g, p) && RoutingOf(Outer(g, p)).Some?
    requires q in PathsOf(InnerList(At(root, GroupIn(g, p))))
    ensures RoutingOf(Outer(g, q)).None?
  {
    var n := GroupIn(g, p);
    WalkedPart(root, g, rk, b);
    PathEntry(root, root, g, rk, b, EMPTY, Height(rk, Root(root)), p);
    PathSum(root, root, p, RoutingBit);
    SumParts(root, g, p, RoutingBit);
    CountRouting(Outer(g, p));
    assert RoutingBit in SINGLE;
    var e := GroupPart(root, g, rk, b, n);
    var t := At(root, n).inner;
    PathEntry(root, t, g, rk, b, e, Height(rk, g[n].u.list), q);
    PathSum(root, t, q, RoutingBit);
    SumParts(root, g, q, RoutingBit);
    CountRouting(Outer(g, q));
  }

  lemma {:induction false} BarredNone(es: seq<Entry>, cs: seq<Call>, w: View, depth: nat)
    requires forall d | d in es :: d.rtype == Some(Barred(w))
    ensures Decision(es, cs, w, depth) == None
    decreases |es|
  {
    if es != [] {
      assert es[0] in es;
      BarredNone(es[1..], cs, w, depth);
    }
  }

  /** When the default of the flags bars the packet, no rule that jumps to a group decides for it. */
  lemma GroupPathIdle(root: Tree, calls: seq<Call>, g: Graph, rk: Rank, b: Backend, p: Path, w: View, depth: nat)
    requires Walked(root, g, rk, b) && DistinctNames(g)
    requires Trace(calls, None, {}, g, rk, b, true, Height(rk, Root(root)))
    requires p in PathsOf(root) && HasGroup(g, p) && Default(b.flags) == Some(Barred(w)) && depth > 0
    ensures PathBelow(g, rk, p, Height(rk, Root(root)))
    ensures RunPath(g, rk, b, EMPTY, p, Height(rk, Root(root))).result >= 0
    ensures Decision(RunPath(g, rk, b, EMPTY, p, Height(rk, Root(root))).rules, calls, w, depth) == None
  {
    var h := Height(rk, Root(root));
    WalkedPart(root, g, rk, b);
    PathEntry(root, root, g, rk, b, EMPTY, h, p);
    PathTidy(root, root, g, rk, b, EMPTY, h, p);
    PathGives(g, rk, b, EMPTY, EMPTY, p, h);
    var d := RunPath(g, rk, b, EMPTY, p, h).rules[0];
    PathMeets(g, b, EMPTY, p, d, w);
    assert RunPath(g, rk, b, EMPTY, p, h).rules == [d] && [d][1..] == [];
    if Meets(d, w) {
      var name := g[GroupIn(g, p)].u.name;
      forall c | c in ChainIn(calls, name) ensures c.rtype == Some(Barred(w)) {
        ChainRouting(root, calls, g, rk, b, p, c);
      }
      BarredNone(ChainIn(calls, name), calls, w, depth - 1);
    }
  }

  /** The agreement is needed: an alternative that passes a group and gives another routing option than
      the flags decides, inlined, for packets it describes that the flags' default bars; kept apart, the
      rule that stands for it decides for none of them. */
  lemma AgreementNeeded(ast: RuleList, k: Lookup, b: Backend, calls: seq<Call>, root: Tree, g: Graph, rk: Rank,
                        w: View, depth: nat, s: Split)
    returns (p: Path)
    requires BothWalk(ast, k, b, calls, root, g, rk) && depth > 0
    requires s in ListSplits(root) && !Agrees(s, b.flags) && Default(b.flags) == Some(Barred(w))
    requires DirectionOf(Joined(s)) == Some(w.d) && AlternativeHolds(Joined(s), w.p, w.env)
    ensures EntryOf(EMPTY, Joined(s), b.flags).Some?
    ensures Decision([EntryOf(EMPTY, Joined(s), b.flags).value], [], w, 0).Some?
    ensures p in PathsOf(root) && Takes(root, g, p, s) && PathBelow(g, rk, p, Height(rk, Root(root)))
    ensures Decision(RunPath(g, rk, b, EMPTY, p, Height(rk, Root(root))).rules, calls, w, depth) == None
  {
    BothWalked(ast, k, b, calls, root, g, rk);
    InlinedDecidesFor(root, g, rk, b, w, s);
    p := PathOfSplit(root, g, rk, b, s);
    GroupPathIdle(root, calls, g, rk, b, p, w, depth);
  }

  lemma InlinedDecidesFor(root: Tree, g: Graph, rk: Rank, b: Backend, w: View, s: Split)
    requires Walked(root, g, rk, b) && Entries(EMPTY, ListReads(root, false), b.flags).Some?
    requires s in ListSplits(root) && !Agrees(s, b.flags) && Default(b.flags) == Some(Barred(w))
    requires DirectionOf(Joined(s)) == Some(w.d) && AlternativeHolds(Joined(s), w.p, w.env)
    ensures EntryOf(EMPTY, Joined(s), b.flags).Some?
    ensures Decision([EntryOf(EMPTY, Joined(s), b.flags).value], [], w, 0).Some?
  {
    GroupsCount(root, g, rk, b, root);
    SplitFine(root, s);
    EntriesOf(ListReads(root, false), Joined(s), b.flags);
    EntryDecides(Joined(s), b.flags, w);
  }

  lemma PathOfSplit(root: Tree, g: Graph, rk: Rank, b: Backend, s: Split) returns (p: Path)
    requires Walked(root, g, rk, b) && s in ListSplits(root)
    ensures p in PathsOf(root) && Takes(root, g, p, s)
  {
    WalkedPart(root, g, rk, b);
    GroupsCount(root, g, rk, b, root);
    var c, l := SplitPath(root, root, null, g, s);
    p := l;
  }

  const INPUT_ANY := Literal(DirectionSpec(Input, "*"), false)
  const FORWARD_ONLY := Literal(RoutingSpec(RoutedOnly), false)
  const ACCEPT_IT := Literal(TargetSpec(Accept), false)
  const LOCALFLAG := Flags(true, false)

  function DirectedEntry(): Entry { EMPTY.(whatsSet := {DirectionBit}, direction := Some(Input), iface := Some("*")) }

  function BodyEntry(e: Entry): Entry {
    e.(rtype := Some(RoutedOnly), whatsSet := e.whatsSet + {TargetBit}, target := Some(Final(Accept)))
  }

  lemma ExampleEntries()
    ensures ApplyLiteral(EMPTY, INPUT_ANY) == Some(DirectedEntry())
    ensures EntryOf(EMPTY, [INPUT_ANY, FORWARD_ONLY, ACCEPT_IT], LOCALFLAG) == Some(BodyEntry(DirectedEntry()))
    ensures EntryOf(GroupEntry(DirectedEntry(), "g"), [FORWARD_ONLY, ACCEPT_IT], LOCALFLAG)
        == Some(BodyEntry(GroupEntry(DirectedEntry(), "g")))
    ensures Finish(AssignGroup(DirectedEntry(), "g"), LOCALFLAG)
        == Some(AssignGroup(DirectedEntry(), "g").(rtype := Some(LocalOnly)))
  {
    assert EMPTY.whatsSet + {DirectionBit} == {DirectionBit};
    FoldStep(EMPTY, INPUT_ANY, [FORWARD_ONLY, ACCEPT_IT]);
    assert [INPUT_ANY] + [FORWARD_ONLY, ACCEPT_IT] == [INPUT_ANY, FORWARD_ONLY, ACCEPT_IT];
    FoldTwo(DirectedEntry(), FORWARD_ONLY, ACCEPT_IT);
    FoldTwo(GroupEntry(DirectedEntry(), "g"), FORWARD_ONLY, ACCEPT_IT);
  }

  /** `input * [ "g" forward accept ]` with the flag for local rules: a forwarded packet is accepted with
      the group inlined, and let through undecided by the rules with the jump. */
  lemma LocalFlagAndForward(n: Filter, p: Packet, env: Env)
    ensures var w, e := View(Input, true, p, env), ApplyLiteral(EMPTY, INPUT_ANY).value;
            var inlined := EntryOf(EMPTY, [INPUT_ANY, FORWARD_ONLY, ACCEPT_IT], LOCALFLAG);
            var body, jump := EntryOf(GroupEntry(e, "g"), [FORWARD_ONLY, ACCEPT_IT], LOCALFLAG),
                Finish(AssignGroup(e, "g"), LOCALFLAG);
            && inlined.Some? && body.Some? && jump.Some?
            && var cs := [GroupCall("g", n, e, [RuleCall(body.value)]), RuleCall(jump.value)];
               Decision(Rules(cs), cs, w, 1) == None && Decision([inlined.value], [], w, 0) == Some(Accepted)
  {
    var w, e := View(Input, true, p, env), DirectedEntry();
    ExampleEntries();
    var jump, body := AssignGroup(e, "g").(rtype := Some(LocalOnly)), BodyEntry(GroupEntry(e, "g"));
    var c0, c1 := GroupCall("g", n, e, [RuleCall(body)]), RuleCall(jump);
    var cs := [c0, c1];
    assert cs[1..] == [c1] && [c1][1..] == [];
    assert Rules([c1]) == [jump] + Rules([]);
    assert Rules(cs) == [] + Rules([c1]) == [jump];
    BarredNone([jump], cs, w, 1);
    var d := BodyEntry(e);
    assert [d][1..] == [] && Meets(d, w);
  }

  lemma FoldTwo(e: Entry, l: Literal, m: Literal)
    ensures Fold(e, [l, m]) == Apply2(e, l, m)
  {
    assert [l, m] == [l] + [m] && [m] == [m] + [];
    FoldStep(e, l, [m]);
    if ApplyLiteral(e, l).Some? {
      FoldStep(ApplyLiteral(e, l).value, m, []);
    }
  }
}
