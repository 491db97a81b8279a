/** From a syntax tree to the calls of the rule callback: conversion, inlining of groups, the passes
    and the walk, end to end. */
module CompiledRules {
  import opened FilterSpec
  import opened FilterEntry
  import opened FilterGraph
  import opened FilterSyntax
  import opened FilterTree
  import opened FilterNegation
  import opened FilterPasses
  import opened SyntaxForms
  import opened Readings
  import opened SyntaxReadings
  import opened RuleWalk
  import opened Conversion

  // ----- what the callback should see -----

  /** The entry of one alternative: fold its specifiers, apply the defaults, check the result. */
  function EntryOf(e: Entry, a: Alternative, fl: Flags): Option<Entry> {
    match Fold(e, a) case None => None case Some(d) => Finish(d, fl)
  }

  function RunOne(b: Backend, e: Entry, a: Alternative): Outcome {
    match EntryOf(e, a, b.flags) case None => Outcome([], -1) case Some(d) => Outcome([d], b.rule(d))
  }

  /** One call per alternative, in order, up to the first failure. */
  function RunAll(b: Backend, e: Entry, xs: seq<Alternative>): Outcome {
    if xs == [] then Outcome([], 0) else Then(RunOne(b, e, xs[0]), RunAll(b, e, xs[1..]))
  }

  /** The entries of all alternatives, if each has one. */
  function Entries(e: Entry, xs: seq<Alternative>, fl: Flags): Option<seq<Entry>> {
    if xs == [] then Some([])
    else
      match (EntryOf(e, xs[0], fl), Entries(e, xs[1..], fl))
      case (Some(d), Some(ds)) => Some([d] + ds)
      case _ => None
  }

  /** What the callback returns for the entries, added up. */
  function Total(b: Backend, ds: seq<Entry>): int {
    if ds == [] then 0 else b.rule(ds[0]) + Total(b, ds[1..])
  }

  predicate AllAccepted(b: Backend, ds: seq<Entry>) {
    ds != [] ==> b.rule(ds[0]) >= 0 && AllAccepted(b, ds[1..])
  }

  /** The run succeeds exactly when every alternative has an entry that the callback accepts; then
      the calls are those entries, one per alternative, and the result is their total. */
  lemma {:induction false} RunAllSucceeds(b: Backend, e: Entry, xs: seq<Alternative>)
    ensures RunAll(b, e, xs).result >= 0
        <==> Entries(e, xs, b.flags).Some? && AllAccepted(b, Entries(e, xs, b.flags).value)
    ensures RunAll(b, e, xs).result >= 0 ==>
      RunAll(b, e, xs) == Outcome(Entries(e, xs, b.flags).value, Total(b, Entries(e, xs, b.flags).value))
      && |RunAll(b, e, xs).rules| == |xs|
  {
    if xs != [] {
      RunAllSucceeds(b, e, xs[1..]);
      if Entries(e, xs, b.flags).Some? {
        var d, ds := EntryOf(e, xs[0], b.flags).value, Entries(e, xs[1..], b.flags).value;
        assert Entries(e, xs, b.flags).value == [d] + ds;
        assert ([d] + ds)[0] == d && ([d] + ds)[1..] == ds;
      }
    }
  }

  // ----- the walk of paths that are spelled out -----

  ghost predicate Spells(g: Graph, p: Path, a: Alternative) {
    |p| == |a| && forall i | 0 <= i < |p| :: p[i] in g && g[p[i]].u == Leaf(a[i].spec) && g[p[i]].negate == a[i].negate
  }

  ghost predicate AllSpell(g: Graph, ps: seq<Path>, xs: seq<Alternative>) {
    |ps| == |xs| && forall i | 0 <= i < |ps| :: Spells(g, ps[i], xs[i])
  }

  lemma ConcatSpells(g: Graph, p: Path, a: Alternative, q: Path, b: Alternative)
    requires Spells(g, p, a) && Spells(g, q, b)
    ensures Spells(g, p + q, a + b)
  {
  }

  lemma PrefixSpells(g: Graph, p: Path, a: Alternative, qs: seq<Path>, ys: seq<Alternative>)
    requires Spells(g, p, a) && AllSpell(g, qs, ys)
    ensures AllSpell(g, Prefix(p, qs), Prefix(a, ys))
  {
    forall i | 0 <= i < |qs| ensures Spells(g, Prefix(p, qs)[i], Prefix(a, ys)[i]) {
      ConcatSpells(g, p, a, qs[i], ys[i]);
    }
  }

  lemma AppendSpells(g: Graph, ps: seq<Path>, xs: seq<Alternative>, qs: seq<Path>, ys: seq<Alternative>)
    requires AllSpell(g, ps, xs) && AllSpell(g, qs, ys)
    ensures AllSpell(g, ps + qs, xs + ys)
  {
  }

  lemma {:induction false} CrossSpells(g: Graph, ps: seq<Path>, xs: seq<Alternative>, qs: seq<Path>,
                                       ys: seq<Alternative>)
    requires AllSpell(g, ps, xs) && AllSpell(g, qs, ys)
    ensures AllSpell(g, Cross(ps, qs), Cross(xs, ys))
  {
    if ps != [] {
      CrossSpells(g, ps[1..], xs[1..], qs, ys);
      PrefixSpells(g, ps[0], xs[0], qs, ys);
      AppendSpells(g, Prefix(ps[0], qs), Prefix(xs[0], ys), Cross(ps[1..], qs), Cross(xs[1..], ys));
    }
  }

  /** A tree of leaves and lists only. */
  ghost predicate ListsAndLeaves<N>(t: TreeOf<N>) {
    t.Cons? ==>
      && (t.kind.LeafKind? || (t.kind.SiblingsKind? && t.inner.Cons?))
      && ListsAndLeaves(t.inner) && ListsAndLeaves(t.child) && ListsAndLeaves(t.next)
  }

  lemma LeafSpells(t: Tree, g: Graph)
    requires t.Cons? && t.kind.LeafKind? && t.node in g && g[t.node].u == Leaf(t.kind.spec)
    requires g[t.node].negate == t.negate
    ensures AllSpell(g, [[t.node]], HeadReads(t, false))
  {
    assert Spells(g, [t.node], HeadReads(t, false)[0]);
  }

  lemma {:induction false} PathsSpell(t: Tree, k: Filter?, g: Graph)
    requires Unrolled(t, k, g) && ListsAndLeaves(t)
    ensures AllSpell(g, ChainOf(t), ChainReads(t, false)) && AllSpell(g, PathsOf(t), ListReads(t, false))
  {
    if t.Nil? {
      assert Spells(g, [], []);
    } else {
      PathsSpell(t.inner, if t.kind.SiblingsKind? then After(t, k) else null, g);
      PathsSpell(t.child, k, g);
      PathsSpell(t.next, k, g);
      if t.kind.LeafKind? {
        LeafSpells(t, g);
      }
      CrossSpells(g, if t.kind.SiblingsKind? then PathsOf(t.inner) else [[t.node]], HeadReads(t, false),
                  ChainOf(t.child), ChainReads(t.child, false));
      AppendSpells(g, ChainOf(t), ChainReads(t, false), PathsOf(t.next), ListReads(t.next, false));
    }
  }

  lemma {:induction false} RunSpelled(g: Graph, rk: Rank, b: Backend, e: Entry, p: Path, a: Alternative, bound: nat)
    requires Ranked(g, rk) && PathBelow(g, rk, p, bound) && Spells(g, p, a)
    ensures RunPath(g, rk, b, e, p, bound) == RunOne(b, e, a)
    decreases |p|
  {
    if p != [] {
      assert Step(g, rk, b, e, p[0]) == match ApplyLiteral(e, a[0]) case None => Stop(-1) case Some(e') => Go(e');
      if ApplyLiteral(e, a[0]).Some? {
        RunSpelled(g, rk, b, ApplyLiteral(e, a[0]).value, p[1..], a[1..], bound);
      }
    }
  }

  lemma {:induction false} RunAllSpelled(g: Graph, rk: Rank, b: Backend, e: Entry, ps: seq<Path>, xs: seq<Alternative>,
                                         bound: nat)
    requires Ranked(g, rk) && PathsBelow(g, rk, ps, bound) && AllSpell(g, ps, xs)
    ensures Run(g, rk, b, e, ps, bound) == RunAll(b, e, xs)
  {
    if ps != [] {
      RunSpelled(g, rk, b, e, ps[0], xs[0], bound);
      RunAllSpelled(g, rk, b, e, ps[1..], xs[1..], bound);
    }
  }

  lemma {:induction false} RunAllMoved(b: Backend, e: Entry, xs: seq<Alternative>, ys: seq<Alternative>)
    requires AllMoved(xs, ys)
    ensures RunAll(b, e, xs) == RunAll(b, e, ys)
  {
    if xs != [] {
      FoldMoved(e, xs[0], ys[0]);
      RunAllMoved(b, e, xs[1..], ys[1..]);
    }
  }

  // ----- the prepared tree can be walked -----

  ghost predicate GroupFree<N>(t: TreeOf<N>) {
    t.Cons? ==> !t.kind.SubgroupKind? && GroupFree(t.inner) && GroupFree(t.child) && GroupFree(t.next)
  }

  lemma {:induction false} TailGroupFree<N>(i: TreeOf<N>, c: TreeOf<N>)
    requires GroupFree(i) && GroupFree(c)
    ensures GroupFree(Tail(i, c))
  {
    if i.Cons? && c.Cons? {
      if i.child.Cons? {
        TailGroupFree(i.child, c);
      } else if i.kind.SiblingsKind? {
        TailGroupFree(i.inner, c);
      }
    }
  }

  lemma {:induction false} ExpandGroupFree<N>(t: TreeOf<N>, neg: bool)
    requires GroupFree(t)
    ensures GroupFree(Expand(t, neg))
  {
    if t.Cons? {
      ExpandGroupFree(t.child, neg);
      ExpandGroupFree(t.next, neg);
      ExpandGroupFree(t.inner, neg != t.kind.NegKind?);
      if t.kind.NegKind? {
        TailGroupFree(Expand(t.inner, !neg), Expand(t.child, neg));
      }
    }
  }

  lemma {:induction false} PlainWithin(t: Tree)
    requires NegFree(t) && Shape(t) && GroupFree(t)
    ensures ListsAndLeaves(t)
  {
    if t.Cons? {
      PlainWithin(t.inner);
      PlainWithin(t.child);
      PlainWithin(t.next);
    }
  }

  lemma {:induction false} ConcatPlain<N>(c: TreeOf<N>, d: TreeOf<N>)
    requires ListsAndLeaves(c) && ListsAndLeaves(d)
    ensures ListsAndLeaves(Concat(c, d))
  {
    if c.Cons? {
      ConcatPlain(c.child, d);
    }
  }

  lemma {:induction false} ToEndPlain<N>(t: TreeOf<N>)
    requires ListsAndLeaves(t)
    ensures ListsAndLeaves(ToEnd(t))
  {
    if t.Cons? {
      if IsTarget(t) && t.child.Cons? {
        ConcatPlain(t.child, t.(child := Nil));
      } else {
        ToEndPlain(t.child);
        ToEndPlain(t.next);
      }
    }
  }

  ghost predicate WalkableOn(g: Graph, A: set<Filter>) {
    forall f | f in A && f in g && g[f].u.Siblings? :: g[f].child == null && g[f].u.siblings != null
  }

  lemma {:induction false} UnrolledWalkable(t: Tree, k: Filter?, g: Graph)
    requires Unrolled(t, k, g) && ListsAndLeaves(t)
    ensures WalkableOn(g, Nodes(t))
  {
    if t.Cons? {
      UnrolledWalkable(t.inner, if t.kind.SiblingsKind? then After(t, k) else null, g);
      UnrolledWalkable(t.child, k, g);
      UnrolledWalkable(t.next, k, g);
    }
  }

  // ----- the rules that are kept -----

  /** A rule that starts with a target, negated or not, and goes on. */
  ghost predicate Leads<N>(t: TreeOf<N>) {
    StartsWithTarget(t) && t.child.Cons?
  }

  ghost predicate StartsWithTarget<N>(t: TreeOf<N>) {
    IsTarget(t) || (t.Cons? && t.kind.NegKind? && IsTarget(t.inner))
  }

  ghost predicate AnyLeads<N>(t: TreeOf<N>) {
    t.Cons? && (Leads(t) || AnyLeads(t.next))
  }

  /** The rules up to and including the first that leads with its target. */
  ghost function UpToLead<N>(t: TreeOf<N>): TreeOf<N> {
    if t.Nil? then Nil else t.(next := if Leads(t) then Nil else UpToLead(t.next))
  }

  lemma ExpandLeads<N>(t: TreeOf<N>)
    requires t.Cons? && Grammatical(t) && Undoubled(t)
    ensures Expand(t, false).Cons? && (IsTarget(Expand(t, false)) && Expand(t, false).child.Cons? <==> Leads(t))
  {
    ExpandNil(t.child, false);
    if t.kind.NegKind? {
      ExpandNil(t.inner, true);
      assert Expand(t.inner, true).child == Expand(t.inner.child, true);
    }
  }

  lemma ExpandNext<N>(t: TreeOf<N>, n: TreeOf<N>)
    requires t.Cons? && Grammatical(t)
    ensures Expand(t, false).Cons? && Expand(t.(next := n), false) == Expand(t, false).(next := Expand(n, false))
  {
    if t.kind.NegKind? {
      ExpandNil(t.inner, true);
    }
  }

  lemma {:induction false} KeptExpand<N>(t: TreeOf<N>)
    requires Grammatical(t) && Undoubled(t)
    ensures Kept(Expand(t, false)) == Expand(UpToLead(t), false)
  {
    if t.Cons? {
      ExpandLeads(t);
      KeptExpand(t.next);
      ExpandNext(t, t.next);
      ExpandNext(t, UpToLead(t).next);
    }
  }

  /** The kept rules can be expanded if all can. */
  lemma {:induction false} KeptNegatable<N>(t: TreeOf<N>)
    requires Negatable(t, false) && Undoubled(t) && !Fails(t, false) && Shape(t) && Unsigned(t)
    ensures var u := UpToLead(t); Negatable(u, false) && Undoubled(u) && !Fails(u, false) && Shape(u) && Unsigned(u)
  {
    if t.Cons? {
      KeptNegatable(t.next);
      var u := UpToLead(t);
      assert !GivesUp(u.next, false) && !Jams(u.next);
      assert !GivesUp(t, false) && !Jams(t);
    }
  }

  lemma {:induction false} UpToLeadUngroup<N>(t: TreeOf<N>)
    ensures UpToLead(Ungroup(t)) == Ungroup(UpToLead(t))
  {
    if t.Cons? {
      UpToLeadUngroup(t.next);
      assert Leads(Ungroup(t)) <==> Leads(t);
    }
  }

  lemma {:induction false} UpToLeadJoin<N>(f: TreeOf<N>, g: TreeOf<N>)
    requires g.Cons? ==> g.next.Nil?
    ensures UpToLead(JoinNext(f, g)) == if AnyLeads(f) then UpToLead(f) else JoinNext(f, g)
    ensures AnyLeads(JoinNext(f, g)) <==> AnyLeads(f) || Leads(g)
  {
    if f.Cons? {
      UpToLeadJoin(f.next, g);
      assert Leads(JoinNext(f, g)) <==> Leads(f);
    }
  }

  /** Some specifier after the first says something. */
  ghost predicate GoesOn(l: Specifiers, k: Lookup) {
    l.SnocSpecifier? && l.front.SnocSpecifier? && (NegatedReading(l.last, k, false).Some? || GoesOn(l.front, k))
  }

  ghost function FirstSpecifier(l: Specifiers): Negated
    requires l.SnocSpecifier?
  {
    if l.front.NoSpecifiers? then l.last else FirstSpecifier(l.front)
  }

  /** The rule starts with a target and goes on. */
  ghost predicate LeadsWithTarget(l: Specifiers, k: Lookup) {
    l.SnocSpecifier? && FirstSpecifier(l).spec.TargetArg? && GoesOn(PrunedSpecifiers(l, k), k)
  }

  ghost predicate AnyLeadsWithTarget(l: RuleList, k: Lookup) {
    l.SnocRule? && (LeadsWithTarget(l.rule, k) || AnyLeadsWithTarget(l.front, k))
  }

  /** The rules up to and including the first that starts with its target. */
  ghost function KeptRules(l: RuleList, k: Lookup): RuleList {
    if l.SnocRule? && AnyLeadsWithTarget(l.front, k) then KeptRules(l.front, k) else l
  }

  lemma {:induction false} FormLeads(l: Specifiers, k: Lookup, n: nat)
    requires l.SnocSpecifier?
    ensures var f := SpecifiersForm(l, k, n).form;
            f.Cons? ==> (StartsWithTarget(f) <==> FirstSpecifier(l).spec.TargetArg?)
                        && (f.child.Cons? <==> GoesOn(PrunedSpecifiers(l, k), k))
  {
    if l.front.NoSpecifiers? {
      SpecifierShape(l.last.spec, k, n);
    } else {
      var r := SpecifiersForm(l.front, k, n);
      FormLeads(l.front, k, n);
      SpecifiersSay(l.front, k, n, false);
      NegatedSays(l.last, k, r.count, false);
      var q := NegatedForm(l.last, k, r.count).form;
      if r.form.Cons? {
        assert Concat(r.form, q).child == Concat(r.form.child, q);
        assert Concat(r.form.child, q).Nil? <==> r.form.child.Nil? && q.Nil?;
        assert PrunedSpecifiers(l, k) == SnocSpecifier(PrunedSpecifiers(l.front, k), PrunedNegated(l.last, k));
      }
    }
  }

  lemma RuleLeads(l: Specifiers, k: Lookup, n: nat)
    ensures Leads(SpecifiersForm(l, k, n).form) <==> LeadsWithTarget(l, k)
  {
    SpecifiersSay(l, k, n, false);
    if l.SnocSpecifier? {
      FormLeads(l, k, n);
      if GoesOn(PrunedSpecifiers(l, k), k) {
        GoesOnSays(PrunedSpecifiers(l, k), k);
      }
    }
  }

  lemma {:induction false} GoesOnSays(l: Specifiers, k: Lookup)
    requires GoesOn(l, k)
    ensures SpecifiersReading(l, k, false).Some?
  {
    if NegatedReading(l.last, k, false).None? {
      GoesOnSays(l.front, k);
    }
  }

  lemma {:induction false} KeptForm(l: RuleList, k: Lookup, n: nat)
    ensures UpToLead(RulesForm(l, k, n).form) == RulesForm(KeptRules(l, k), k, n).form
    ensures AnyLeads(RulesForm(l, k, n).form) <==> AnyLeadsWithTarget(l, k)
  {
    if l.SnocRule? {
      var r := RulesForm(l.front, k, n);
      KeptForm(l.front, k, n);
      RuleLeads(l.rule, k, r.count);
      SpecifiersShape(l.rule, k, r.count);
      UpToLeadJoin(r.form, SpecifiersForm(l.rule, k, r.count).form);
    }
  }

  // ----- trees in the heap and their forms -----

  lemma {:induction false} ErasedShape(t: Tree)
    ensures Shape(Erase(t)) <==> Shape(t)
    ensures Unsigned(Erase(t)) <==> Unsigned(t)
    ensures GroupFree(Erase(t)) <==> GroupFree(t)
    ensures Erase(Ungroup(t)) == Ungroup(Erase(t))
    ensures Erase(UpToLead(t)) == UpToLead(Erase(t))
  {
    if t.Cons? {
      ErasedShape(t.inner);
      ErasedShape(t.child);
      ErasedShape(t.next);
    }
  }

  lemma {:induction false} ErasedNegations(t: Tree, neg: bool)
    ensures Grammatical(Erase(t)) <==> Grammatical(t)
    ensures Undoubled(Erase(t)) <==> Undoubled(t)
    ensures Unshared(Erase(t), neg) <==> Unshared(t, neg)
    ensures Fails(Erase(t), neg) <==> Fails(t, neg)
  {
    ErasedFailures(t, neg);
    if t.Cons? {
      ErasedNegations(t.inner, neg != t.kind.NegKind?);
      ErasedNegations(t.child, neg);
      ErasedNegations(t.next, neg);
      ErasedEnds(t.inner, !neg);
    }
  }

  lemma {:induction false} ErasedEnds(t: Tree, neg: bool)
    ensures Blocks(Erase(t)) <==> Blocks(t)
    ensures Forks(Erase(t), neg) <==> Forks(t, neg)
  {
    if t.Cons? {
      ErasedEnds(t.inner, neg != t.kind.NegKind?);
      ErasedEnds(t.child, neg);
    }
  }

  lemma {:induction false} ErasedFailures(t: Tree, neg: bool)
    ensures GivesUp(Erase(t), neg) <==> GivesUp(t, neg)
    ensures Jams(Erase(t)) <==> Jams(t)
  {
    if t.Cons? {
      ErasedFailures(t.inner, neg != t.kind.NegKind?);
      ErasedFailures(t.child, neg);
      ErasedFailures(t.next, neg);
      ErasedEnds(t.inner, neg);
    }
  }

  lemma {:induction false} ErasedReads(t: Tree, neg: bool)
    ensures ListReads(Erase(t), neg) == ListReads(t, neg)
    ensures ChainReads(Erase(t), neg) == ChainReads(t, neg)
  {
    if t.Cons? {
      ErasedReads(t.inner, neg != t.kind.NegKind?);
      ErasedReads(t.child, neg);
      ErasedReads(t.next, neg);
      assert HeadReads(Erase(t), neg) == HeadReads(t, neg);
    }
  }

  // ----- the whole way -----

  /** The form of the rules once groups are inlined. */
  ghost function InlinedForm(ast: RuleList, k: Lookup, n: nat): Form {
    Ungroup(RulesForm(ast, k, n).form)
  }

  /** The conversion fails on some negation: several alternatives or a group are negated, or something
      follows a negation that cannot be appended to it. */
  ghost predicate Refused(ast: RuleList, k: Lookup, n: nat) {
    Fails(InlinedForm(ast, k, n), false)
  }

  /** What follows a negation never has to be shared by several alternatives, and no group stays below
      a (double) negation. */
  ghost predicate Expandable(ast: RuleList, k: Lookup, n: nat) {
    Unshared(InlinedForm(ast, k, n), false) && (!Refused(ast, k, n) ==> GroupFree(InlinedForm(ast, k, n)))
  }

  /** The alternatives that are compiled. */
  ghost function Compiled(ast: RuleList, k: Lookup): seq<Alternative> {
    RulesReading(Pruned(KeptRules(ast, k), k), k)
  }

  /** A tree the passes expand, and read as the syntax tree it came from. */
  ghost predicate Readable(u: Tree) {
    Shape(u) && Unsigned(u) && Undoubled(u) && Negatable(u, false) && !Fails(u, false)
  }

  lemma InlinedReads(ast: RuleList, k: Lookup, n: nat, t: Tree)
    requires Erase(t) == RulesForm(ast, k, n).form && Distinct(Ungroup(t))
    requires Expandable(ast, k, n) && !Refused(ast, k, n)
    ensures var u := Ungroup(t);
        Readable(u) && GroupFree(u) && AllMoved(Compiled(ast, k), ListReads(Prepared(u), false))
  {
    var u := Ungroup(t);
    TreeOfForm(ast, k, n, t);
    KeptExpand(u);
    KeptNegatable(u);
    ExpandReads(UpToLead(u), false);
    UpToLeadUngroup(t);
    UngroupReads(UpToLead(t), false);
    ErasedReads(UpToLead(t), false);
    ErasedShape(t);
    KeptForm(ast, k, n);
    RulesSay(KeptRules(ast, k), k, n);
    assert ListReads(Kept(Expand(u, false)), false) == Compiled(ast, k);
    ExpandWithin(u, false);
    ListMoved(Expand(u, false), false);
  }

  lemma TreeOfForm(ast: RuleList, k: Lookup, n: nat, t: Tree)
    requires Erase(t) == RulesForm(ast, k, n).form
    ensures var u := Ungroup(t);
            && Shape(t) && Shape(u) && Unsigned(u) && Grammatical(u) && Undoubled(u)
            && (Unshared(u, false) <==> Unshared(InlinedForm(ast, k, n), false))
            && (GroupFree(u) <==> GroupFree(InlinedForm(ast, k, n))) && (Fails(u, false) <==> Refused(ast, k, n))
  {
    var u := Ungroup(t);
    RulesShape(ast, k, n);
    ErasedShape(t);
    ErasedNegations(t, false);
    UngroupShape(t);
    UngroupUnsigned(t);
    ErasedShape(u);
    ErasedNegations(u, false);
  }

  lemma {:induction false} UngroupUnsigned<N>(t: TreeOf<N>)
    requires Unsigned(t) && Grammatical(t) && Undoubled(t)
    ensures Unsigned(Ungroup(t)) && Grammatical(Ungroup(t)) && Undoubled(Ungroup(t)) && (Ungroup(t).Nil? <==> t.Nil?)
  {
    if t.Cons? {
      UngroupUnsigned(t.inner);
      UngroupUnsigned(t.child);
      UngroupUnsigned(t.next);
    }
  }

  /** What the walk may assume of the prepared tree, and the entries its paths give. */
  lemma PreparedRuns(u: Tree, g: Graph, rk: Rank, b: Backend, xs: seq<Alternative>)
    requires Readable(u) && Distinct(u) && GroupFree(u)
    requires Unrolled(Prepared(u), null, g) && g.Keys == Nodes(Prepared(u)) && Ranked(g, rk) && In(g, Root(Prepared(u)))
    requires ListPaths(g, rk, Root(Prepared(u))) == PathsOf(Prepared(u))
    requires AllMoved(xs, ListReads(Prepared(u), false))
    ensures Walkable(g) && RunList(g, rk, b, EMPTY, Root(Prepared(u))) == RunAll(b, EMPTY, xs)
  {
    var p, r := Prepared(u), Root(Prepared(u));
    ExpandWithin(u, false);
    ExpandGroupFree(u, false);
    PlainWithin(Expand(u, false));
    ToEndPlain(Expand(u, false));
    UnrolledWalkable(p, null, g);
    PathsSpell(p, null, g);
    ListBelow(g, rk, r, Height(rk, r));
    RunAllSpelled(g, rk, b, EMPTY, PathsOf(p), ListReads(p, false), Height(rk, r));
    RunAllMoved(b, EMPTY, xs, ListReads(p, false));
  }

  lemma {:induction false} UngroupFree<N>(t: TreeOf<N>)
    requires GroupFree(t)
    ensures Ungroup(t) == t
  {
    if t.Cons? {
      UngroupFree(t.inner);
      UngroupFree(t.child);
      UngroupFree(t.next);
    }
  }

  /** Convert, inline the groups, prepare and walk.  The rule callback is called once for each
      alternative of the rules' reading, in source order, with the entry its specifiers give, up to the
      first that has none or is not accepted.  A back end that has no use for groups inlines them first. */
  method Compile(ast: RuleList, k: Lookup, b: Backend, inline: bool, count: nat)
    returns (ok: bool, calls: seq<Call>, c: int, count': nat)
    requires inline || GroupFree(RulesForm(ast, k, count).form)
    requires Expandable(ast, k, count) && forall d :: b.rule(d) != 0
    ensures count' == RulesForm(ast, k, count).count
    ensures ok <==> !Refused(ast, k, count)
    ensures ok ==> Outcome(Rules(calls), c) == RunAll(b, EMPTY, Compiled(ast, k))
  {
    calls, c := [], 0;
    var f;
    ghost var t, S;
    f, count', t, S := Convert(ast, k, count);
    TreeOfForm(ast, k, count, t);
    ghost var u := Ungroup(t);
    UngroupShape(t);
    if inline {
      NoGroup(f, S, Snap(S), t);
    } else {
      ErasedShape(t);
      UngroupFree(t);
    }
    var r;
    ghost var rk;
    ok, r, rk := PrepareFilter(f, S, u);
    if !ok {
      return;
    }
    ghost var A := Nodes(Prepared(u));
    InlinedReads(ast, k, count, t);
    PreparedRuns(u, Snap(A), rk, b, Compiled(ast, k));
    calls, c := ApplyList(EMPTY, r, b, A, Snap(A), rk, {});
  }
}
