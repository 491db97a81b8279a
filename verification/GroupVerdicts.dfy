/** Groups as chains of their own decide as groups inlined: evaluating the rules of a walk that keeps
    the groups, with jumps into their chains and returns, gives every packet the verdict of first
    match over the rules with the groups inlined. */
module GroupVerdicts {
  import GroupNaming
  import opened FilterSpec
  import opened FilterEntry
  import opened FilterGraph
  import opened FilterTree
  import opened FilterNegation
  import opened FilterPasses
  import opened FilterSyntax
  import opened SyntaxForms
  import opened SyntaxReadings
  import opened Conversion
  import opened Readings
  import opened RuleWalk
  import opened CompiledRules
  import opened Netfilter
  import opened RuleMeaning
  import opened SourceVerdicts
  import opened GroupValues
  import LoadedScript

  // ----- nodes of a tree -----

  /** The part of `t` that starts at the node `n`. */
  ghost function At(t: Tree, n: Filter): Tree {
    if t.Nil? || n == t.node then t
    else if n in Nodes(t.inner) then At(t.inner, n)
    else if n in Nodes(t.child) then At(t.child, n)
    else At(t.next, n)
  }

  lemma {:induction false} AtNode(t: Tree, k: Filter?, g: Graph, n: Filter)
    requires n in Nodes(t) && Unrolled(t, k, g) && Distinct(t) && NegFree(t)
    ensures var s := At(t, n);
            && s.Cons? && s.node == n && n in g && g[n].u == BodyOf(s.kind, Root(s.inner)) && g[n].negate == s.negate
            && Distinct(s.inner) && NegFree(s.inner) && Nodes(s.inner) <= Nodes(t)
            && (s.kind.SubgroupKind? ==> Unrolled(s.inner, null, g))
            && forall m | m in Nodes(s.inner) :: At(t, m) == At(s.inner, m)
    decreases t
  {
    if n == t.node {
    } else if n in Nodes(t.inner) {
      AtNode(t.inner, if t.kind.SiblingsKind? then After(t, k) else null, g, n);
    } else if n in Nodes(t.child) {
      AtNode(t.child, k, g, n);
    } else {
      AtNode(t.next, k, g, n);
    }
  }

  /** What a group's list says. */
  ghost function NodeVal(root: Tree, n: Filter, fl: Flags, w: View): Val {
    if At(root, n).Nil? then None else FirstVal(ListReads(At(root, n).inner, false), fl, w)
  }

  lemma PartsAt(root: Tree, t: Tree)
    requires t.Cons? && Distinct(t) && forall n | n in Nodes(t) :: At(root, n) == At(t, n)
    ensures At(root, t.node) == t
    ensures forall n | n in Nodes(t.inner) :: At(root, n) == At(t.inner, n)
    ensures forall n | n in Nodes(t.child) :: At(root, n) == At(t.child, n)
    ensures forall n | n in Nodes(t.next) :: At(root, n) == At(t.next, n)
  {
    assert t.node in Nodes(t);
  }

  // ----- the entry of one path -----

  ghost predicate IsLeaf(g: Graph, n: Filter) { n in g && g[n].u.Leaf? }

  ghost predicate IsGroup(g: Graph, n: Filter) { n in g && g[n].u.Subgroup? }

  ghost function LitOf(g: Graph, n: Filter): Literal
    requires IsLeaf(g, n)
  {
    Literal(g[n].u.spec, g[n].negate)
  }

  /** The specifiers of a path, its groups left aside. */
  ghost function Outer(g: Graph, p: Path): Alternative {
    if p == [] then [] else (if IsLeaf(g, p[0]) then [LitOf(g, p[0])] else []) + Outer(g, p[1..])
  }

  ghost predicate HasGroup(g: Graph, p: Path) {
    p != [] && (IsGroup(g, p[0]) || HasGroup(g, p[1..]))
  }

  ghost function GroupIn(g: Graph, p: Path): (n: Filter)
    requires HasGroup(g, p)
    ensures IsGroup(g, n)
  {
    if IsGroup(g, p[0]) then p[0] else GroupIn(g, p[1..])
  }

  lemma PathCons(g: Graph, n: Filter, p: Path)
    ensures Outer(g, [n] + p) == (if IsLeaf(g, n) then [LitOf(g, n)] else []) + Outer(g, p)
    ensures HasGroup(g, [n] + p) <==> IsGroup(g, n) || HasGroup(g, p)
    ensures HasGroup(g, [n] + p) ==> GroupIn(g, [n] + p) == if IsGroup(g, n) then n else GroupIn(g, p)
  {
    var q := [n] + p;
    assert q[0] == n && q[1..] == p;
  }

  lemma {:induction false} PathAppend(g: Graph, p: Path, q: Path)
    ensures Outer(g, p + q) == Outer(g, p) + Outer(g, q)
    ensures HasGroup(g, p + q) <==> HasGroup(g, p) || HasGroup(g, q)
    ensures HasGroup(g, p) ==> GroupIn(g, p + q) == GroupIn(g, p)
    ensures !HasGroup(g, p) && HasGroup(g, q) ==> GroupIn(g, p + q) == GroupIn(g, q)
    decreases |p|
  {
    if p == [] {
      assert p + q == q;
    } else {
      PathAppend(g, p[1..], q);
      PathCons(g, p[0], p[1..]);
      PathCons(g, p[0], p[1..] + q);
      assert p == [p[0]] + p[1..] && p + q == [p[0]] + (p[1..] + q);
      SeqAssoc(if IsLeaf(g, p[0]) then [LitOf(g, p[0])] else [], Outer(g, p[1..]), Outer(g, q));
    }
  }

  ghost function PathPair(root: Tree, g: Graph, p: Path, fl: Flags, w: View): Pair {
    Pair(Outer(g, p), if HasGroup(g, p) then Some(NodeVal(root, GroupIn(g, p), fl, w)) else None)
  }

  ghost function PathPairs(root: Tree, g: Graph, ps: seq<Path>, fl: Flags, w: View): (r: seq<Pair>)
    ensures |r| == |ps| && forall i | 0 <= i < |ps| :: r[i] == PathPair(root, g, ps[i], fl, w)
  {
    seq(|ps|, i requires 0 <= i < |ps| => PathPair(root, g, ps[i], fl, w))
  }

  lemma PathPairsAppend(root: Tree, g: Graph, ps: seq<Path>, qs: seq<Path>, fl: Flags, w: View)
    ensures PathPairs(root, g, ps + qs, fl, w) == PathPairs(root, g, ps, fl, w) + PathPairs(root, g, qs, fl, w)
  {
  }

  lemma {:induction false} PathPairsCross(root: Tree, g: Graph, ps: seq<Path>, qs: seq<Path>, fl: Flags, w: View)
    ensures PathPairs(root, g, Cross(ps, qs), fl, w)
        == CrossPairs(PathPairs(root, g, ps, fl, w), PathPairs(root, g, qs, fl, w))
    decreases |ps|
  {
    if ps != [] {
      PathPairsCross(root, g, ps[1..], qs, fl, w);
      var a, b := PathPairs(root, g, Prefix(ps[0], qs), fl, w),
          Extend(PathPair(root, g, ps[0], fl, w), PathPairs(root, g, qs, fl, w));
      forall i | 0 <= i < |qs| ensures a[i] == b[i] {
        PathAppend(g, ps[0], qs[i]);
      }
      assert a == b;
      PathPairsAppend(root, g, Prefix(ps[0], qs), Cross(ps[1..], qs), fl, w);
      assert PathPairs(root, g, ps, fl, w)[1..] == PathPairs(root, g, ps[1..], fl, w);
    }
  }

  lemma NodePair(root: Tree, t: Tree, k: Filter?, g: Graph, fl: Flags, w: View)
    requires t.Cons? && Unrolled(t, k, g) && At(root, t.node) == t && (t.kind.LeafKind? || t.kind.SubgroupKind?)
    ensures PathPairs(root, g, [[t.node]], fl, w) == HeadPairs(t, false, fl, w)
  {
    var p := [t.node];
    assert p[0] == t.node && p[1..] == [];
    assert Outer(g, []) == [] && !HasGroup(g, []);
    assert Outer(g, p) == (if IsLeaf(g, t.node) then [LitOf(g, t.node)] else []) + [];
    assert HasGroup(g, p) <==> t.kind.SubgroupKind?;
    assert PathPair(root, g, p, fl, w) == HeadPairs(t, false, fl, w)[0];
  }

  /** The paths of a tree, groups taken as conditions of their own, are its pairs. */
  lemma {:induction false} PathsArePairs(root: Tree, t: Tree, k: Filter?, g: Graph, fl: Flags, w: View)
    requires Unrolled(t, k, g) && Distinct(t) && NegFree(t) && forall n | n in Nodes(t) :: At(root, n) == At(t, n)
    ensures PathPairs(root, g, PathsOf(t), fl, w) == ListPairs(t, false, fl, w)
    ensures PathPairs(root, g, ChainOf(t), fl, w) == ChainPairs(t, false, fl, w)
    decreases t
  {
    if t.Nil? {
      assert PathPair(root, g, [], fl, w) == Pair([], None);
    } else {
      PartsAt(root, t);
      if t.kind.SiblingsKind? {
        PathsArePairs(root, t.inner, After(t, k), g, fl, w);
      } else {
        NodePair(root, t, k, g, fl, w);
      }
      PathsArePairs(root, t.child, k, g, fl, w);
      PathsArePairs(root, t.next, k, g, fl, w);
      PathPairsCross(root, g, if t.kind.SiblingsKind? then PathsOf(t.inner) else [[t.node]], ChainOf(t.child), fl, w);
      PathPairsAppend(root, g, ChainOf(t), PathsOf(t.next), fl, w);
    }
  }

  // ----- the entry a path gives -----

  /** The same entry, its target and what it says of groups left aside. */
  ghost predicate SameEntry(d: Entry, e: Entry) {
    && d.direction == e.direction && d.iface == e.iface && d.groupname == e.groupname && d.src == e.src
        && d.dst == e.dst
    && d.rtype == e.rtype && d.proto == e.proto && d.logmsg == e.logmsg && d.oneway == e.oneway
    && d.sport == e.sport && d.dport == e.dport && d.icmp == e.icmp
    && d.whatsSet - {SubgroupBit} == e.whatsSet - {SubgroupBit}
        && d.negated - {SubgroupBit} == e.negated - {SubgroupBit}
  }

  lemma SameBits(a: set<FilterEntry.Kind>, b: set<FilterEntry.Kind>, k: FilterEntry.Kind)
    requires a - {SubgroupBit} == b - {SubgroupBit} && k != SubgroupBit
    ensures k in a <==> k in b
    ensures (a + {k}) - {SubgroupBit} == (b + {k}) - {SubgroupBit}
    ensures (a + {SubgroupBit}) - {SubgroupBit} == b - {SubgroupBit}
  {
    assert k in a <==> k in a - {SubgroupBit};
    assert k in b <==> k in b - {SubgroupBit};
    assert (a + {k}) - {SubgroupBit} == (a - {SubgroupBit}) + {k};
    assert (b + {k}) - {SubgroupBit} == (b - {SubgroupBit}) + {k};
    assert (a + {SubgroupBit}) - {SubgroupBit} == a - {SubgroupBit};
  }

  lemma RefusesSame(d: Entry, e: Entry, s: Spec)
    requires SameEntry(d, e)
    ensures Refuses(d, s) <==> Refuses(e, s)
  {
    SameBits(d.whatsSet, e.whatsSet, DirectionBit);
    SameBits(d.whatsSet, e.whatsSet, TargetBit);
  }

  lemma AssignSame(d: Entry, e: Entry, s: Spec)
    requires SameEntry(d, e)
    ensures SameEntry(Assign(d, s), Assign(e, s))
  {
    SameBits(d.whatsSet, e.whatsSet, DirectionBit);
    SameBits(d.whatsSet, e.whatsSet, TargetBit);
    SameBits(d.whatsSet, e.whatsSet, LogBit);
  }

  lemma ApplySame(d: Entry, e: Entry, l: Literal)
    requires SameEntry(d, e)
    ensures ApplyLiteral(d, l).Some? <==> ApplyLiteral(e, l).Some?
    ensures ApplyLiteral(d, l).Some? ==> SameEntry(ApplyLiteral(d, l).value, ApplyLiteral(e, l).value)
  {
    RefusesSame(d, e, l.spec);
    AssignSame(d, e, l.spec);
    SameBits(Assign(d, l.spec).negated, Assign(e, l.spec).negated, KindOf(l.spec));
  }

  lemma GroupSame(d: Entry, e: Entry, name: string, neg: bool)
    requires SameEntry(d, e)
    ensures SameEntry(Mark(AssignGroup(d, name), SubgroupBit, neg), e)
    ensures TargetBit in Mark(AssignGroup(d, name), SubgroupBit, neg).whatsSet <==> TargetBit in d.whatsSet
  {
    SameBits(d.whatsSet, e.whatsSet, TargetBit);
    SameBits(d.negated, e.negated, TargetBit);
  }

  /** What a path that is walked with success gives, `d0` being the entry so far and `e` that entry
      without what it says of groups: the entry of the specifiers outside the group. */
  ghost predicate Gives(g: Graph, b: Backend, d0: Entry, e: Entry, p: Path, d: Entry) {
    var out := Outer(g, p);
    && Fold(e, out).Some? && SameEntry(d, Defaults(Fold(e, out).value, b.flags)) && Complete(d) && b.rule(d) >= 0
    && d.subgroup == (if HasGroup(g, p) then Some(g[GroupIn(g, p)].u.name) else d0.subgroup)
    && (d0.subgroup.Some? ==> !HasGroup(g, p))
    && (TargetBit in d0.whatsSet ==> TargetIn(out).None?)
    && (TargetIn(out).None? ==> d.target == if HasGroup(g, p) then Some(ToSubgroup) else d0.target)
    && (TargetIn(out).Some? && !HasGroup(g, p) ==> d.target == Some(Final(TargetIn(out).value)))
  }

  lemma OuterStep(g: Graph, p: Path)
    requires p != []
    ensures IsLeaf(g, p[0]) ==>
      var l := LitOf(g, p[0]);
      && Outer(g, p) == [l] + Outer(g, p[1..])
      && TargetIn(Outer(g, p)) == (if l.spec.TargetSpec? then Some(l.spec.target) else TargetIn(Outer(g, p[1..])))
    ensures !IsLeaf(g, p[0]) ==> Outer(g, p) == Outer(g, p[1..])
  {
    if IsLeaf(g, p[0]) {
      var l := LitOf(g, p[0]);
      var a := [l] + Outer(g, p[1..]);
      assert a[0] == l && a[1..] == Outer(g, p[1..]);
    } else {
      assert [] + Outer(g, p[1..]) == Outer(g, p[1..]);
    }
  }

  lemma StepLeaf(g: Graph, rk: Rank, b: Backend, d0: Entry, p: Path, bound: nat)
    requires Ranked(g, rk) && PathBelow(g, rk, p, bound) && RunPath(g, rk, b, d0, p, bound).result >= 0
    requires p != [] && IsLeaf(g, p[0])
    ensures ApplyLiteral(d0, LitOf(g, p[0])).Some?
    ensures PathBelow(g, rk, p[1..], bound)
    ensures RunPath(g, rk, b, d0, p, bound)
         == RunPath(g, rk, b, ApplyLiteral(d0, LitOf(g, p[0])).value, p[1..], bound)
  {
    StopIsFailure(g, rk, b, d0, p[0]);
  }

  lemma StepGroup(g: Graph, rk: Rank, b: Backend, d0: Entry, p: Path, bound: nat)
    requires Ranked(g, rk) && PathBelow(g, rk, p, bound) && RunPath(g, rk, b, d0, p, bound).result >= 0
    requires p != [] && !IsLeaf(g, p[0])
    ensures IsGroup(g, p[0]) && !RefusesGroup(d0) && PathBelow(g, rk, p[1..], bound)
    ensures RunPath(g, rk, b, d0, p, bound)
         == RunPath(g, rk, b, Mark(AssignGroup(d0, g[p[0]].u.name), SubgroupBit, g[p[0]].negate), p[1..], bound)
  {
    StopIsFailure(g, rk, b, d0, p[0]);
  }

  lemma {:induction false} PathGives(g: Graph, rk: Rank, b: Backend, d0: Entry, e: Entry, p: Path, bound: nat)
    requires Ranked(g, rk) && PathBelow(g, rk, p, bound) && RunPath(g, rk, b, d0, p, bound).result >= 0
    requires SameEntry(d0, e)
    ensures var o := RunPath(g, rk, b, d0, p, bound); |o.rules| == 1 && Gives(g, b, d0, e, p, o.rules[0])
    decreases |p|
  {
    if p == [] {
      NothingGives(g, b, d0, e);
    } else if IsLeaf(g, p[0]) {
      var l := LitOf(g, p[0]);
      StepLeaf(g, rk, b, d0, p, bound);
      ApplySame(d0, e, l);
      PathGives(g, rk, b, ApplyLiteral(d0, l).value, ApplyLiteral(e, l).value, p[1..], bound);
      LeafGives(g, b, d0, e, p, RunPath(g, rk, b, d0, p, bound).rules[0]);
    } else {
      StepGroup(g, rk, b, d0, p, bound);
      var d' := Mark(AssignGroup(d0, g[p[0]].u.name), SubgroupBit, g[p[0]].negate);
      GroupSame(d0, e, g[p[0]].u.name, g[p[0]].negate);
      PathGives(g, rk, b, d', e, p[1..], bound);
      GroupGives(g, b, d0, e, p, RunPath(g, rk, b, d0, p, bound).rules[0]);
    }
  }

  lemma NothingGives(g: Graph, b: Backend, d0: Entry, e: Entry)
    requires SameEntry(d0, e) && Finish(d0, b.flags).Some? && b.rule(Finish(d0, b.flags).value) >= 0
    ensures Gives(g, b, d0, e, [], Finish(d0, b.flags).value)
  {
    DefaultsSame(d0, e, b.flags);
    assert Outer(g, []) == [] && !HasGroup(g, []) && Fold(e, []) == Some(e);
  }

  lemma DefaultsSame(d: Entry, e: Entry, fl: Flags)
    requires SameEntry(d, e)
    ensures SameEntry(Defaults(d, fl), Defaults(e, fl))
    ensures Defaults(d, fl).subgroup == d.subgroup && Defaults(d, fl).target == d.target
  {
    DefaultsFields(d, fl);
    DefaultsFields(e, fl);
  }

  lemma DefaultsFields(e: Entry, fl: Flags)
    ensures Defaults(e, fl) == e.(rtype := Defaults(e, fl).rtype)
  {
  }

  lemma GroupGives(g: Graph, b: Backend, d0: Entry, e: Entry, p: Path, d: Entry)
    requires p != [] && IsGroup(g, p[0]) && !RefusesGroup(d0)
    requires Gives(g, b, Mark(AssignGroup(d0, g[p[0]].u.name), SubgroupBit, g[p[0]].negate), e, p[1..], d)
    requires SameEntry(d0, e)
    ensures Gives(g, b, d0, e, p, d)
  {
    OuterStep(g, p);
    GroupSame(d0, e, g[p[0]].u.name, g[p[0]].negate);
  }

  lemma LeafGives(g: Graph, b: Backend, d0: Entry, e: Entry, p: Path, d: Entry)
    requires p != [] && IsLeaf(g, p[0]) && ApplyLiteral(d0, LitOf(g, p[0])).Some?
    requires ApplyLiteral(e, LitOf(g, p[0])).Some?
    requires Gives(g, b, ApplyLiteral(d0, LitOf(g, p[0])).value, ApplyLiteral(e, LitOf(g, p[0])).value, p[1..], d)
    ensures Gives(g, b, d0, e, p, d)
  {
    var l := LitOf(g, p[0]);
    OuterStep(g, p);
    ApplyFields(d0, l);
    FoldStep(e, l, Outer(g, p[1..]));
  }

  /** The direction and routing of an alternative's entry. */
  lemma {:induction false} FoldRoute(e: Entry, a: Alternative)
    requires Fold(e, a).Some?
    ensures var f := Fold(e, a).value;
            && f.rtype == OrElse(e.rtype, RoutingOf(a)) && f.groupname == e.groupname
            && f.direction == (if DirectionOf(a).Some? then DirectionOf(a) else e.direction)
            && (f.iface.Some? <==> e.iface.Some? || DirectionOf(a).Some?)
    ensures e.rtype.Some? ==> RoutingOf(a).None?
    ensures e.iface.Some? ==> DirectionOf(a).None?
    decreases |a|
  {
    if a != [] {
      ApplyFields(e, a[0]);
      FoldRoute(ApplyLiteral(e, a[0]).value, a[1..]);
    }
  }

  predicate Meets(e: Entry, w: View) {
    e.direction == Some(w.d) && e.rtype != Some(Barred(w)) && Says(e, w.p, w.env)
  }

  /** An entry that says nothing yet: that of a rule outside groups, or of a group's body. */
  ghost predicate Fresh(e: Entry) {
    && Sensible(e) && e.iface.None? && e.rtype.None? && e.dport.None?
        && (forall k | k in CONDITIONS :: Given(e, k).None?)
    && (e.groupname.None? ==> e.direction.None?) && e.subgroup.None? && TargetBit !in e.whatsSet && e.target.None?
  }

  lemma FreshEntries(e: Entry, name: string)
    ensures Fresh(EMPTY) && Fresh(GroupEntry(e, name))
  {
  }

  /** What the rule of a path says is what stands outside the group. */
  lemma PathSays(g: Graph, b: Backend, e: Entry, p: Path, d: Entry, w: View)
    requires Fresh(e) && Gives(g, b, e, e, p, d)
    ensures Says(d, w.p, w.env) <==> AlternativeHolds(Outer(g, p), w.p, w.env)
    ensures d.direction == (if DirectionOf(Outer(g, p)).Some? then DirectionOf(Outer(g, p)) else e.direction)
    ensures d.iface.Some? <==> DirectionOf(Outer(g, p)).Some?
    ensures d.groupname == e.groupname && d.rtype == Routing(Outer(g, p), b.flags)
  {
    var out := Outer(g, p);
    var f := Fold(e, out).value;
    FoldRoute(e, out);
    FoldSays(e, out, w.p, w.env);
    assert ClaimsAll(e, w.p, w.env);
    ClaimsAreSays(f, w.p, w.env);
    SaysDefaults(f, b.flags, w.p, w.env);
    SameSays(d, Defaults(f, b.flags), w);
  }

  /** The rule of a path meets the packet when what stands outside the group describes it. */
  lemma PathMeets(g: Graph, b: Backend, e: Entry, p: Path, d: Entry, w: View)
    requires Fresh(e) && Gives(g, b, e, e, p, d)
    requires e.groupname.Some? ==> DirectionOf(Outer(g, p)).None?
    ensures Meets(d, w) <==> AltVal(Outer(g, p), b.flags, w).Some? && (e.groupname.Some? ==> e.direction == Some(w.d))
    ensures d.iface.Some? <==> DirectionOf(Outer(g, p)).Some?
    ensures d.groupname == e.groupname && (e.groupname.Some? ==> d.direction == e.direction)
    ensures d.rtype == Routing(Outer(g, p), b.flags)
  {
    PathSays(g, b, e, p, d, w);
    FoldRoute(e, Outer(g, p));
  }

  lemma SameSays(d: Entry, e: Entry, w: View)
    requires SameEntry(d, e)
    ensures Says(d, w.p, w.env) <==> Says(e, w.p, w.env)
  {
    forall k | k in CONDITIONS ensures k in d.negated <==> k in e.negated {
      SameBits(d.negated, e.negated, k);
    }
  }

  /** Leaves and at most one group. */
  ghost predicate OneGroup(g: Graph, p: Path) {
    p != [] ==> (IsLeaf(g, p[0]) || (IsGroup(g, p[0]) && !HasGroup(g, p[1..]))) && OneGroup(g, p[1..])
  }

  lemma {:induction false} RunHasOneGroup(g: Graph, rk: Rank, b: Backend, e: Entry, p: Path, bound: nat)
    requires Ranked(g, rk) && PathBelow(g, rk, p, bound) && RunPath(g, rk, b, e, p, bound).result >= 0
    ensures OneGroup(g, p) && (e.subgroup.Some? ==> !HasGroup(g, p))
    decreases |p|
  {
    if p != [] {
      StopIsFailure(g, rk, b, e, p[0]);
      RunHasOneGroup(g, rk, b, Step(g, rk, b, e, p[0]).entry, p[1..], bound);
    }
  }

  /** The heap holds the prepared tree `root`. */
  ghost predicate Held(root: Tree, g: Graph) {
    Unrolled(root, null, g) && Distinct(root) && NegFree(root) && g.Keys == Nodes(root)
  }

  // ----- rules with jumps -----

  /** The rules appended to a group's chain, whenever its body was walked. */
  function ChainIn(cs: seq<Call>, name: string): seq<Entry>
    decreases cs
  {
    if cs == [] then []
    else
      (match cs[0]
       case RuleCall(d) => if d.groupname == Some(name) then [d] else []
       case GroupCall(_, _, _, body) => ChainIn(body, name))
      + ChainIn(cs[1..], name)
  }

  /** First match, where a rule that jumps to a group goes on in the group's chain and, if no rule
      there decides, returns.  `depth` bounds the jumps that may be open at a time. */
  function Decision(es: seq<Entry>, cs: seq<Call>, w: View, depth: nat): Option<Verdict>
    decreases depth, |es|
  {
    if es == [] then None
    else if !Meets(es[0], w) then Decision(es[1..], cs, w, depth)
    else if es[0].target != Some(ToSubgroup) || es[0].subgroup.None? then Some(LoadedScript.VerdictOf(es[0]))
    else if depth == 0 then Some(Dropped)
    else
      match Decision(ChainIn(cs, es[0].subgroup.value), cs, w, depth - 1)
      case Some(v) => Some(v)
      case None => Decision(es[1..], cs, w, depth)
  }

  function OrNext(a: Option<Verdict>, b: Option<Verdict>): Option<Verdict> {
    if a.Some? then a else b
  }

  lemma {:induction false} DecisionAppend(es: seq<Entry>, ds: seq<Entry>, cs: seq<Call>, w: View, depth: nat)
    ensures Decision(es + ds, cs, w, depth) == OrNext(Decision(es, cs, w, depth), Decision(ds, cs, w, depth))
    decreases |es|
  {
    if es == [] {
      assert es + ds == ds;
    } else {
      assert (es + ds)[0] == es[0] && (es + ds)[1..] == es[1..] + ds;
      DecisionAppend(es[1..], ds, cs, w, depth);
    }
  }

  function VerdictVal(v: Val): Option<Verdict> {
    if v.None? then None
    else
      match v.value
      case Some(Drop) => Some(Dropped)
      case Some(Reject) => Some(Rejected)
      case _ => Some(Accepted)
  }

  // ----- which filters the result is about -----

  /** A path with a group has no target of its own. */
  ghost predicate Tidy(g: Graph, p: Path) {
    HasGroup(g, p) ==> TargetIn(Outer(g, p)).None?
  }

  /** Inside groups no direction is given anew either. */
  ghost predicate GroupsTidy(g: Graph, rk: Rank)
    requires Ranked(g, rk)
  {
    forall n | n in g && IsGroup(g, n) :: forall p | p in ListPaths(g, rk, g[n].u.list) ::
        Tidy(g, p) && DirectionOf(Outer(g, p)).None?
  }

  ghost predicate DistinctNames(g: Graph) {
    forall n, m | n in g && m in g && IsGroup(g, n) && IsGroup(g, m) && g[n].u.name == g[m].u.name :: n == m
  }

  /** The back end takes no entry without a direction. */
  ghost predicate Directed(b: Backend) {
    forall d | b.rule(d) >= 0 :: d.direction.Some?
  }

  ghost predicate Grouped(root: Tree, g: Graph, rk: Rank, b: Backend) {
    Held(root, g) && Ranked(g, rk) && DistinctNames(g) && Directed(b) && GroupsTidy(g, rk)
  }

  /** The list says of the packet what its parts inside and outside groups say. */
  ghost predicate Faithful<N>(t: TreeOf<N>, fl: Flags, w: View) {
    Full(t) && OneGroupEach(t) && Separable(t, fl, w)
  }

  ghost function InnerList<N>(t: TreeOf<N>): TreeOf<N> { if t.Nil? then Nil else t.inner }

  ghost predicate AllFaithful(root: Tree, g: Graph, fl: Flags, w: View) {
    Faithful(root, fl, w) && forall n | n in g && IsGroup(g, n) :: Faithful(InnerList(At(root, n)), fl, w)
  }

  // ----- one list of paths -----

  /** The chain of a path's group decides as the group's list, if the path gets that far. */
  ghost predicate JumpsRight(root: Tree, g: Graph, p: Path, cs: seq<Call>, fl: Flags, w: View, depth: nat) {
    HasGroup(g, p) && AltVal(Outer(g, p), fl, w).Some? ==>
      depth > 0 && Decision(ChainIn(cs, g[GroupIn(g, p)].u.name), cs, w, depth - 1)
          == VerdictVal(NodeVal(root, GroupIn(g, p), fl, w))
  }

  /** An entry that a walk starts from, for packets of this direction. */
  ghost predicate Starts(e: Entry, w: View) {
    Fresh(e) && (e.groupname.None? || e.direction == Some(w.d))
  }

  lemma PathDecides(root: Tree, g: Graph, rk: Rank, b: Backend, e: Entry, p: Path, bound: nat, cs: seq<Call>, w: View,
                    depth: nat)
    requires Ranked(g, rk) && PathBelow(g, rk, p, bound) && RunPath(g, rk, b, e, p, bound).result >= 0
    requires Starts(e, w) && Tidy(g, p) && (e.groupname.Some? ==> DirectionOf(Outer(g, p)).None?)
    requires JumpsRight(root, g, p, cs, b.flags, w, depth)
    ensures Decision(RunPath(g, rk, b, e, p, bound).rules, cs, w, depth)
         == VerdictVal(PairVal(PathPair(root, g, p, b.flags, w), Weight(b.flags, w), Weight(b.flags, w)))
  {
    PathGives(g, rk, b, e, e, p, bound);
    var d := RunPath(g, rk, b, e, p, bound).rules[0];
    PathMeets(g, b, e, p, d, w);
    assert RunPath(g, rk, b, e, p, bound).rules == [d] && [d][1..] == [];
    if HasGroup(g, p) && Meets(d, w) {
      assert AltVal(Outer(g, p), b.flags, w) == Some(None);
      var v := NodeVal(root, GroupIn(g, p), b.flags, w);
      assert Along(Some(None), v) == v;
    }
  }

  ghost function FirstOfPaths(root: Tree, g: Graph, ps: seq<Path>, fl: Flags, w: View): Val {
    FirstPair(PathPairs(root, g, ps, fl, w), Weight(fl, w), Weight(fl, w))
  }

  lemma FirstStep(root: Tree, g: Graph, ps: seq<Path>, fl: Flags, w: View)
    requires ps != []
    ensures FirstOfPaths(root, g, ps, fl, w)
         == Besides(PairVal(PathPair(root, g, ps[0], fl, w), Weight(fl, w), Weight(fl, w)),
                    FirstOfPaths(root, g, ps[1..], fl, w))
  {
    assert PathPairs(root, g, ps, fl, w)[1..] == PathPairs(root, g, ps[1..], fl, w);
  }

  lemma RunStep(g: Graph, rk: Rank, b: Backend, e: Entry, ps: seq<Path>, bound: nat)
    requires Ranked(g, rk) && PathsBelow(g, rk, ps, bound) && Run(g, rk, b, e, ps, bound).result >= 0 && ps != []
    ensures PathBelow(g, rk, ps[0], bound) && RunPath(g, rk, b, e, ps[0], bound).result >= 0
    ensures PathsBelow(g, rk, ps[1..], bound) && Run(g, rk, b, e, ps[1..], bound).result >= 0
    ensures Run(g, rk, b, e, ps, bound).rules
        == RunPath(g, rk, b, e, ps[0], bound).rules + Run(g, rk, b, e, ps[1..], bound).rules
  {
  }

  /** Each path may be evaluated by its pair. */
  ghost predicate Evaluable(root: Tree, g: Graph, e: Entry, p: Path, cs: seq<Call>, fl: Flags, w: View, depth: nat) {
    Tidy(g, p) && (e.groupname.Some? ==> DirectionOf(Outer(g, p)).None?) && JumpsRight(root, g, p, cs, fl, w, depth)
  }

  lemma {:induction false} RunDecides(root: Tree, g: Graph, rk: Rank, b: Backend, e: Entry, ps: seq<Path>, bound: nat,
                                      cs: seq<Call>, w: View,
                                      depth: nat)
    requires Ranked(g, rk) && PathsBelow(g, rk, ps, bound) && Run(g, rk, b, e, ps, bound).result >= 0 && Starts(e, w)
    requires forall p | p in ps :: Evaluable(root, g, e, p, cs, b.flags, w, depth)
    ensures Decision(Run(g, rk, b, e, ps, bound).rules, cs, w, depth)
        == VerdictVal(FirstOfPaths(root, g, ps, b.flags, w))
    decreases |ps|
  {
    if ps != [] {
      assert Evaluable(root, g, e, ps[0], cs, b.flags, w, depth);
      RunStep(g, rk, b, e, ps, bound);
      PathDecides(root, g, rk, b, e, ps[0], bound, cs, w, depth);
      RunDecides(root, g, rk, b, e, ps[1..], bound, cs, w, depth);
      DecisionAppend(RunPath(g, rk, b, e, ps[0], bound).rules, Run(g, rk, b, e, ps[1..], bound).rules, cs, w, depth);
      FirstStep(root, g, ps, b.flags, w);
      VerdictBesides(PairVal(PathPair(root, g, ps[0], b.flags, w), Weight(b.flags, w), Weight(b.flags, w)),
                     FirstOfPaths(root, g, ps[1..], b.flags, w));
    }
  }

  lemma VerdictBesides(a: Val, b: Val)
    ensures VerdictVal(Besides(a, b)) == OrNext(VerdictVal(a), VerdictVal(b))
  {
  }

  /** The rules of a walk from an entry of another direction decide nothing for this one. */
  lemma {:induction false} RunIdle(g: Graph, rk: Rank, b: Backend, e: Entry, ps: seq<Path>, bound: nat, cs: seq<Call>,
                                   w: View, depth: nat)
    requires Ranked(g, rk) && PathsBelow(g, rk, ps, bound) && Run(g, rk, b, e, ps, bound).result >= 0
    requires Fresh(e) && e.groupname.Some? && e.direction != Some(w.d)
    requires forall p | p in ps :: DirectionOf(Outer(g, p)).None?
    ensures Decision(Run(g, rk, b, e, ps, bound).rules, cs, w, depth) == None
    decreases |ps|
  {
    if ps != [] {
      assert ps[0] in ps;
      RunStep(g, rk, b, e, ps, bound);
      PathGives(g, rk, b, e, e, ps[0], bound);
      var d := RunPath(g, rk, b, e, ps[0], bound).rules[0];
      PathMeets(g, b, e, ps[0], d, w);
      assert RunPath(g, rk, b, e, ps[0], bound).rules == [d] && [d][1..] == [];
      RunIdle(g, rk, b, e, ps[1..], bound, cs, w, depth);
      DecisionAppend([d], Run(g, rk, b, e, ps[1..], bound).rules, cs, w, depth);
    }
  }

  // ----- the chains a trace builds -----

  /** The groups walked anywhere in a trace, with the directions their bodies inherited. */
  function Called(cs: seq<Call>): Known
    decreases cs
  {
    if cs == [] then {}
    else
      (match cs[0]
       case RuleCall(_) => {}
       case GroupCall(name, _, from, body) => {(name, from.direction)} + Called(body))
      + Called(cs[1..])
  }

  lemma {:induction false} RuleAims(cs: seq<Call>, group: Option<string>, known: Known, g: Graph, rk: Rank, b: Backend,
                                    bound: nat, d: Entry)
    requires Ranked(g, rk) && Trace(cs, group, known, g, rk, b, true, bound) && d in Rules(cs)
    ensures Aimed(d, known + Called(cs)) && d.groupname == group
    decreases |cs|
  {
    match cs[0]
    case RuleCall(d0) =>
      if d0 == d {
        AimedMore(d, known, known + Called(cs));
      } else {
        RuleAims(cs[1..], group, known, g, rk, b, bound, d);
        AimedMore(d, known + Called(cs[1..]), known + Called(cs));
      }
    case GroupCall(name, _, from, body) =>
      RuleAims(cs[1..], group, known + {(name, from.direction)}, g, rk, b, bound, d);
      AimedMore(d, known + {(name, from.direction)} + Called(cs[1..]), known + Called(cs));
  }

  lemma AimedMore(d: Entry, known: Known, more: Known)
    requires Aimed(d, known) && known <= more
    ensures Aimed(d, more)
  {
  }

  /** The first path of a group's list shows that its body inherited a direction. */
  lemma BodyDirected(root: Tree, g: Graph, rk: Rank, b: Backend, c: Call)
    requires Grouped(root, g, rk, b) && Walkable(g) && c.GroupCall? && IsBody(g, rk, b, c, true)
    requires g[c.at].u.list != null
    ensures c.from.direction.Some?
  {
    var l := g[c.at].u.list;
    var e := GroupEntry(c.from, c.name);
    ListBelow(g, rk, l, Height(rk, l));
    ChainNonempty(g, rk, l);
    var ps := ListPaths(g, rk, l);
    assert ps[0] in ps;
    assert RunList(g, rk, b, e, l) == Run(g, rk, b, e, ps, Height(rk, l));
    assert Run(g, rk, b, e, ps, Height(rk, l))
        == Then(RunPath(g, rk, b, e, ps[0], Height(rk, l)), Run(g, rk, b, e, ps[1..], Height(rk, l)));
    FreshEntries(c.from, c.name);
    PathGives(g, rk, b, e, e, ps[0], Height(rk, l));
    FoldRoute(e, Outer(g, ps[0]));
  }

  /** So every group that was walked is known with a direction. */
  lemma {:induction false} CallsDirected(root: Tree, cs: seq<Call>, group: Option<string>, known: Known, g: Graph,
                                         rk: Rank, b: Backend, bound: nat)
    requires Grouped(root, g, rk, b) && Walkable(g) && Filled(g) && Trace(cs, group, known, g, rk, b, true, bound)
    ensures forall k | k in Called(cs) :: k.1.Some?
    decreases cs
  {
    if cs != [] {
      match cs[0]
      case RuleCall(_) =>
        CallsDirected(root, cs[1..], group, known, g, rk, b, bound);
      case GroupCall(name, at, from, body) =>
        BodyDirected(root, g, rk, b, cs[0]);
        CallsDirected(root, body, Some(name), {}, g, rk, b, rk[at]);
        CallsDirected(root, cs[1..], group, known + {(name, from.direction)}, g, rk, b, bound);
    }
  }

  /** No group is empty. */
  ghost predicate Filled(g: Graph) {
    forall n | n in g && IsGroup(g, n) :: g[n].u.list != null
  }

  /** Below a group's node no group has its name, so what is built while the body of a group is walked
      is its chain, and nothing else of it. */
  lemma {:induction false} NotBelow(cs: seq<Call>, group: Option<string>, known: Known, g: Graph, rk: Rank, b: Backend,
                                    bound: nat, n: Filter)
    requires Ranked(g, rk) && DistinctNames(g) && n in g && IsGroup(g, n)
    requires Trace(cs, group, known, g, rk, b, true, bound) && bound <= rk[n]
    ensures ChainIn(cs, g[n].u.name) == if group == Some(g[n].u.name) then Rules(cs) else []
    ensures forall d :: (g[n].u.name, d) !in Called(cs)
    decreases cs
  {
    if cs != [] {
      match cs[0]
      case RuleCall(_) =>
        NotBelow(cs[1..], group, known, g, rk, b, bound, n);
      case GroupCall(name, at, from, body) =>
        assert at != n;
        NotBelow(body, Some(name), {}, g, rk, b, rk[at], n);
        NotBelow(cs[1..], group, known + {(name, from.direction)}, g, rk, b, bound, n);
        assert [] + ChainIn(cs[1..], g[n].u.name) == ChainIn(cs[1..], g[n].u.name);
        assert [] + Rules(cs[1..]) == Rules(cs[1..]);
    }
  }

  /** A trace of a whole walk. */
  ghost predicate WholeTrace(cs: seq<Call>, root: Tree, g: Graph, rk: Rank, b: Backend, top: nat) {
    Grouped(root, g, rk, b) && Walkable(g) && Filled(g) && Trace(cs, None, {}, g, rk, b, true, top)
  }

  /** A rule that the packet meets jumps to a group whose body was walked in the packet's direction. */
  lemma JumpIsKnown(root: Tree, cs: seq<Call>, xs: seq<Call>, group: Option<string>, g: Graph, rk: Rank, b: Backend,
                    top: nat, bound: nat,
                    d: Entry, w: View)
    requires WholeTrace(cs, root, g, rk, b, top) && Trace(xs, group, {}, g, rk, b, true, bound)
    requires Called(xs) <= Called(cs)
    requires d in Rules(xs) && d.subgroup.Some? && d.direction == Some(w.d) && (group.Some? ==> d.iface.None?)
    ensures (d.subgroup.value, Some(w.d)) in Called(cs)
  {
    RuleAims(xs, group, {}, g, rk, b, bound, d);
    CallsDirected(root, cs, None, {}, g, rk, b, top);
    var k :| (d.subgroup.value, k) in {} + Called(xs)
        && (k == d.direction || k.None? || (d.groupname.Some? && d.iface.Some?));
    assert (d.subgroup.value, k) in Called(cs);
    assert (d.subgroup.value, k).1.Some?;
  }

  lemma {:induction false} RunHas(g: Graph, rk: Rank, b: Backend, e: Entry, ps: seq<Path>, bound: nat, p: Path)
    requires Ranked(g, rk) && PathsBelow(g, rk, ps, bound) && Run(g, rk, b, e, ps, bound).result >= 0 && p in ps
    ensures PathBelow(g, rk, p, bound) && RunPath(g, rk, b, e, p, bound).result >= 0
    ensures forall d | d in RunPath(g, rk, b, e, p, bound).rules :: d in Run(g, rk, b, e, ps, bound).rules
    decreases |ps|
  {
    if p != ps[0] {
      RunHas(g, rk, b, e, ps[1..], bound, p);
    }
  }

  /** A path whose specifiers describe the packet jumps to a group that was walked in its direction. */
  lemma PathIsKnown(root: Tree, cs: seq<Call>, xs: seq<Call>, group: Option<string>, g: Graph, rk: Rank, b: Backend,
                    top: nat, bound: nat,
                    e: Entry, ps: seq<Path>, h: nat, p: Path, w: View)
    requires WholeTrace(cs, root, g, rk, b, top) && Trace(xs, group, {}, g, rk, b, true, bound)
    requires Called(xs) <= Called(cs)
    requires PathsBelow(g, rk, ps, h) && Run(g, rk, b, e, ps, h).result >= 0
    requires Run(g, rk, b, e, ps, h).rules == Rules(xs)
    requires p in ps && HasGroup(g, p) && AltVal(Outer(g, p), b.flags, w).Some? && Starts(e, w)
    requires e.groupname.Some? ==> DirectionOf(Outer(g, p)).None?
    requires group.Some? ==> e.groupname.Some?
    ensures (g[GroupIn(g, p)].u.name, Some(w.d)) in Called(cs)
  {
    RunHas(g, rk, b, e, ps, h, p);
    PathGives(g, rk, b, e, e, p, h);
    var d := RunPath(g, rk, b, e, p, h).rules[0];
    PathMeets(g, b, e, p, d, w);
    assert d in Rules(xs);
    JumpIsKnown(root, cs, xs, group, g, rk, b, top, bound, d, w);
  }

  /** The paths of a group's list have the group's value. */
  lemma InnerPaths(root: Tree, g: Graph, rk: Rank, n: Filter, fl: Flags, w: View)
    requires Held(root, g) && Ranked(g, rk) && n in g && IsGroup(g, n) && Faithful(InnerList(At(root, n)), fl, w)
    ensures FirstPair(PathPairs(root, g, ListPaths(g, rk, g[n].u.list), fl, w), Weight(fl, w), Weight(fl, w))
        == NodeVal(root, n, fl, w)
  {
    var s := At(root, n);
    AtNode(root, null, g, n);
    UnrolledPaths(s.inner, null, g, rk);
    CrossUnit(PathsOf(s.inner));
    PathsArePairs(root, s.inner, null, g, fl, w);
    GroupsAsConditions(s.inner, fl, w);
  }

  /** The rules of one walk of a group's body decide as the group's list, for packets of the direction
      the body inherited, and nothing for the others. */
  lemma {:induction false} BodyDecides(root: Tree, cs: seq<Call>, c: Call, g: Graph, rk: Rank, b: Backend, top: nat,
                                       w: View, depth: nat)
    requires WholeTrace(cs, root, g, rk, b, top) && AllFaithful(root, g, b.flags, w)
    requires c.GroupCall? && IsBody(g, rk, b, c, true) && depth >= rk[c.at]
    requires Trace(c.body, Some(c.name), {}, g, rk, b, true, rk[c.at]) && Called(c.body) <= Called(cs)
    ensures Decision(Rules(c.body), cs, w, depth)
        == if c.from.direction == Some(w.d) then VerdictVal(NodeVal(root, c.at, b.flags, w)) else None
    decreases depth, 0, cs, 2
  {
    var l := g[c.at].u.list;
    var e := GroupEntry(c.from, c.name);
    var h := Height(rk, l);
    var ps := ListPaths(g, rk, l);
    ListBelow(g, rk, l, h);
    FreshEntries(c.from, c.name);
    if c.from.direction == Some(w.d) {
      InnerPaths(root, g, rk, c.at, b.flags, w);
      forall p | p in ps ensures Evaluable(root, g, e, p, cs, b.flags, w, depth) {
        BodyJumps(root, cs, c, g, rk, b, top, w, depth, p);
      }
      RunDecides(root, g, rk, b, e, ps, h, cs, w, depth);
    } else {
      RunIdle(g, rk, b, e, ps, h, cs, w, depth);
    }
  }

  lemma {:induction false} BodyJumps(root: Tree, cs: seq<Call>, c: Call, g: Graph, rk: Rank, b: Backend, top: nat,
                                     w: View, depth: nat, p: Path)
    requires WholeTrace(cs, root, g, rk, b, top) && AllFaithful(root, g, b.flags, w)
    requires c.GroupCall? && IsBody(g, rk, b, c, true) && depth >= rk[c.at]
    requires Trace(c.body, Some(c.name), {}, g, rk, b, true, rk[c.at]) && Called(c.body) <= Called(cs)
    requires c.from.direction == Some(w.d) && p in ListPaths(g, rk, g[c.at].u.list)
    ensures Tidy(g, p) && DirectionOf(Outer(g, p)).None? && JumpsRight(root, g, p, cs, b.flags, w, depth)
    decreases depth, 0, cs, 1
  {
    var l := g[c.at].u.list;
    var h := Height(rk, l);
    var ps := ListPaths(g, rk, l);
    ListBelow(g, rk, l, h);
    FreshEntries(c.from, c.name);
    if HasGroup(g, p) && AltVal(Outer(g, p), b.flags, w).Some? {
      PathIsKnown(root, cs, c.body, Some(c.name), g, rk, b, top, rk[c.at], GroupEntry(c.from, c.name), ps, h, p, w);
      GroupBelow(g, rk, ps, p, h);
      KnownJump(root, cs, g, rk, b, top, w, depth, p);
    }
  }

  /** A jump to a group whose body was walked in the packet's direction. */
  lemma {:induction false} KnownJump(root: Tree, cs: seq<Call>, g: Graph, rk: Rank, b: Backend, top: nat, w: View,
                                     depth: nat, p: Path)
    requires WholeTrace(cs, root, g, rk, b, top) && AllFaithful(root, g, b.flags, w)
    requires HasGroup(g, p) && GroupIn(g, p) in rk && rk[GroupIn(g, p)] < depth
    requires (g[GroupIn(g, p)].u.name, Some(w.d)) in Called(cs)
    ensures JumpsRight(root, g, p, cs, b.flags, w, depth)
    decreases depth, 0, cs, 0
  {
    ChainDecides(root, cs, cs, None, {}, g, rk, b, top, top, GroupIn(g, p), w, depth - 1);
  }

  lemma {:induction false} GroupBelow(g: Graph, rk: Rank, ps: seq<Path>, p: Path, h: nat)
    requires PathsBelow(g, rk, ps, h) && p in ps && HasGroup(g, p)
    ensures GroupIn(g, p) in rk && rk[GroupIn(g, p)] < h
  {
    GroupInPath(g, p);
  }

  lemma {:induction false} GroupInPath(g: Graph, p: Path)
    requires HasGroup(g, p)
    ensures GroupIn(g, p) in p
  {
    if !IsGroup(g, p[0]) {
      GroupInPath(g, p[1..]);
    }
  }

  /** The chain of a group, however often its body was walked, decides as the group's list once the
      body has been walked in the packet's direction. */
  lemma {:induction false} ChainDecides(root: Tree, cs: seq<Call>, xs: seq<Call>, group: Option<string>, known: Known,
                                        g: Graph, rk: Rank,
                                        b: Backend, top: nat, bound: nat, n: Filter, w: View, depth: nat)
    requires WholeTrace(cs, root, g, rk, b, top) && AllFaithful(root, g, b.flags, w)
    requires Trace(xs, group, known, g, rk, b, true, bound) && Called(xs) <= Called(cs)
    requires n in g && IsGroup(g, n) && group != Some(g[n].u.name) && depth >= rk[n]
    ensures Decision(ChainIn(xs, g[n].u.name), cs, w, depth)
         == if (g[n].u.name, Some(w.d)) in Called(xs) then VerdictVal(NodeVal(root, n, b.flags, w)) else None
    decreases depth, 1, xs, 0
  {
    if xs != [] {
      var name := g[n].u.name;
      var rest := xs[1..];
      match xs[0]
      case RuleCall(_) =>
        ChainDecides(root, cs, rest, group, known, g, rk, b, top, bound, n, w, depth);
        assert [] + ChainIn(rest, name) == ChainIn(rest, name);
      case GroupCall(m, at, from, body) =>
        ChainDecides(root, cs, rest, group, known + {(m, from.direction)}, g, rk, b, top, bound, n, w, depth);
        if m == name {
          assert at == n;
          NotBelow(body, Some(name), {}, g, rk, b, rk[at], n);
          BodyDecides(root, cs, xs[0], g, rk, b, top, w, depth);
        } else {
          ChainDecides(root, cs, body, Some(m), {}, g, rk, b, top, rk[at], n, w, depth);
        }
        DecisionAppend(ChainIn(body, name), ChainIn(rest, name), cs, w, depth);
    }
  }

  lemma MainJumps(root: Tree, cs: seq<Call>, g: Graph, rk: Rank, b: Backend, w: View, depth: nat, p: Path)
    requires WholeTrace(cs, root, g, rk, b, Height(rk, Root(root))) && AllFaithful(root, g, b.flags, w)
    requires depth >= Height(rk, Root(root))
    requires In(g, Root(root)) && RunList(g, rk, b, EMPTY, Root(root)).result >= 0
    requires RunList(g, rk, b, EMPTY, Root(root)).rules == Rules(cs)
    requires p in ListPaths(g, rk, Root(root))
    ensures JumpsRight(root, g, p, cs, b.flags, w, depth)
  {
    var h := Height(rk, Root(root));
    var ps := ListPaths(g, rk, Root(root));
    ListBelow(g, rk, Root(root), h);
    FreshEntries(EMPTY, "");
    if HasGroup(g, p) && AltVal(Outer(g, p), b.flags, w).Some? {
      PathIsKnown(root, cs, cs, None, g, rk, b, h, h, EMPTY, ps, h, p, w);
      GroupBelow(g, rk, ps, p, h);
      KnownJump(root, cs, g, rk, b, h, w, depth, p);
    }
  }

  /** The rules outside groups, with their jumps, decide as the whole filter with its groups inlined. */
  lemma MainDecides(root: Tree, cs: seq<Call>, g: Graph, rk: Rank, b: Backend, w: View, depth: nat)
    requires WholeTrace(cs, root, g, rk, b, Height(rk, Root(root))) && AllFaithful(root, g, b.flags, w)
    requires depth >= Height(rk, Root(root))
    requires In(g, Root(root)) && RunList(g, rk, b, EMPTY, Root(root)).result >= 0
    requires RunList(g, rk, b, EMPTY, Root(root)).rules == Rules(cs)
    requires ListPaths(g, rk, Root(root)) == PathsOf(root) && forall p | p in PathsOf(root) :: Tidy(g, p)
    ensures Decision(Rules(cs), cs, w, depth) == VerdictVal(FirstVal(ListReads(root, false), b.flags, w))
  {
    var h := Height(rk, Root(root));
    ListBelow(g, rk, Root(root), h);
    PathsArePairs(root, root, null, g, b.flags, w);
    GroupsAsConditions(root, b.flags, w);
    FreshEntries(EMPTY, "");
    forall p | p in PathsOf(root) ensures Evaluable(root, g, EMPTY, p, cs, b.flags, w, depth) {
      MainJumps(root, cs, g, rk, b, w, depth, p);
    }
    RunDecides(root, g, rk, b, EMPTY, PathsOf(root), h, cs, w, depth);
  }

  // ----- the rules with the groups inlined -----

  /** The rule of an alternative without groups decides as the alternative. */
  lemma EntryDecides(a: Alternative, fl: Flags, w: View)
    requires EntryOf(EMPTY, a, fl).Some?
    ensures Decision([EntryOf(EMPTY, a, fl).value], [], w, 0) == VerdictVal(AltVal(a, fl, w))
  {
    var d, f := EntryOf(EMPTY, a, fl).value, Fold(EMPTY, a).value;
    FreshEntries(EMPTY, "");
    assert SourceVerdicts.Whole(EMPTY);
    FoldKeys(EMPTY, a);
    FoldSays(EMPTY, a, w.p, w.env);
    assert ClaimsAll(EMPTY, w.p, w.env);
    ClaimsAreSays(f, w.p, w.env);
    SaysDefaults(f, fl, w.p, w.env);
    assert [d][1..] == [];
    assert Meets(d, w) <==> AltVal(a, fl, w).Some?;
  }

  /** First match over the rules of alternatives is first match over the alternatives. */
  lemma {:induction false} InlinedDecides(xs: seq<Alternative>, fl: Flags, w: View)
    requires Entries(EMPTY, xs, fl).Some?
    ensures Decision(Entries(EMPTY, xs, fl).value, [], w, 0) == VerdictVal(FirstVal(xs, fl, w))
    decreases |xs|
  {
    if xs != [] {
      EntryDecides(xs[0], fl, w);
      InlinedDecides(xs[1..], fl, w);
      DecisionAppend([EntryOf(EMPTY, xs[0], fl).value], Entries(EMPTY, xs[1..], fl).value, [], w, 0);
    }
  }

  lemma {:induction false} EntriesMoved(xs: seq<Alternative>, ys: seq<Alternative>, fl: Flags)
    requires AllMoved(xs, ys)
    ensures Entries(EMPTY, xs, fl) == Entries(EMPTY, ys, fl)
    decreases |xs|
  {
    if xs != [] {
      FoldMoved(EMPTY, xs[0], ys[0]);
      EntriesMoved(xs[1..], ys[1..], fl);
    }
  }

  // ----- the prepared tree of a filter with groups -----

  lemma {:induction false} FullWithin(t: Tree)
    requires NegFree(t) && Shape(t)
    ensures Full(t)
  {
    if t.Cons? {
      FullWithin(t.inner);
      FullWithin(t.child);
      FullWithin(t.next);
    }
  }

  lemma {:induction false} ConcatFull<N>(c: TreeOf<N>, d: TreeOf<N>)
    requires Full(c) && Full(d)
    ensures Full(Concat(c, d))
  {
    if c.Cons? {
      ConcatFull(c.child, d);
    }
  }

  lemma {:induction false} ToEndFull<N>(t: TreeOf<N>)
    requires Full(t)
    ensures Full(ToEnd(t))
  {
    if t.Cons? {
      if IsTarget(t) && t.child.Cons? {
        ConcatFull(t.child, t.(child := Nil));
      } else {
        ToEndFull(t.child);
        ToEndFull(t.next);
      }
    }
  }

  lemma {:induction false} FullGraph(t: Tree, k: Filter?, g: Graph)
    requires Unrolled(t, k, g) && Full(t)
    ensures NegFree(t) && WalkableOn(g, Nodes(t)) && forall n | n in Nodes(t) && IsGroup(g, n) :: g[n].u.list != null
  {
    if t.Cons? {
      FullGraph(t.inner, if t.kind.SiblingsKind? then After(t, k) else null, g);
      FullGraph(t.child, k, g);
      FullGraph(t.next, k, g);
    }
  }

  /** The prepared tree has the alternatives of the kept rules, up to the place of a target. */
  lemma GroupedReads(ast: RuleList, k: Lookup, n: nat, t: Tree)
    requires Erase(t) == RulesForm(ast, k, n).form && Distinct(t) && Unshared(t, false) && !Fails(t, false)
    ensures Readable(t) && AllMoved(Compiled(ast, k), ListReads(Prepared(t), false))
  {
    RulesShape(ast, k, n);
    ErasedShape(t);
    ErasedNegations(t, false);
    KeptExpand(t);
    KeptNegatable(t);
    ExpandReads(UpToLead(t), false);
    ErasedReads(UpToLead(t), false);
    KeptForm(ast, k, n);
    RulesSay(KeptRules(ast, k), k, n);
    ExpandWithin(t, false);
    ListMoved(Expand(t, false), false);
  }

  /** What a successful walk of a filter with its groups leaves. */
  ghost predicate WalkedGroups(ast: RuleList, k: Lookup, b: Backend, calls: seq<Call>, root: Tree, g: Graph, rk: Rank) {
    && Held(root, g) && Ranked(g, rk) && In(g, Root(root)) && Walkable(g) && Filled(g)
    && Trace(calls, None, {}, g, rk, b, true, Height(rk, Root(root)))
    && RunList(g, rk, b, EMPTY, Root(root)).result >= 0 && RunList(g, rk, b, EMPTY, Root(root)).rules == Rules(calls)
    && ListPaths(g, rk, Root(root)) == PathsOf(root)
    && AllMoved(Compiled(ast, k), ListReads(root, false))
    && Full(root) && (!AnyLeadsWithTarget(ast, k) ==> Shape(root))
  }

  /** Convert, prepare and walk, groups kept. */
  method CompileGroups(ast: RuleList, k: Lookup, b: Backend, count: nat)
    returns (ok: bool, calls: seq<Call>, c: int, ghost root: Tree, ghost g: Graph, ghost rk: Rank)
    requires Unshared(RulesForm(ast, k, count).form, false) && forall d :: b.rule(d) != 0
    ensures ok <==> !Fails(RulesForm(ast, k, count).form, false)
    ensures ok ==> Held(root, g) && Ranked(g, rk) && In(g, Root(root))
                   && AllMoved(Compiled(ast, k), ListReads(root, false))
    ensures ok ==> RunList(g, rk, b, EMPTY, Root(root)) == Outcome(Rules(calls), c)
    ensures ok && c >= 0 ==> WalkedGroups(ast, k, b, calls, root, g, rk)
    ensures ok && GroupNaming.NamesApart(ast, k, count) ==> DistinctNames(g)
  {
    calls, c := [], 0;
    root, g, rk := Nil, map[], map[];
    var f, count';
    ghost var t, S;
    f, count', t, S := Convert(ast, k, count);
    RulesShape(ast, k, count);
    ErasedShape(t);
    ErasedNegations(t, false);
    var r;
    ok, r, rk := PrepareFilter(f, S, t);
    if !ok {
      return;
    }
    root := Prepared(t);
    ghost var A := Nodes(root);
    g := Snap(A);
    PreparedHeld(ast, k, count, t, g);
    if GroupNaming.NamesApart(ast, k, count) {
      PreparedApart(ast, k, count, t, g);
    }
    calls, c := ApplyList(EMPTY, r, b, A, g, rk, {});
  }

  lemma PreparedApart(ast: RuleList, k: Lookup, n: nat, t: Tree, g: Graph)
    requires Erase(t) == RulesForm(ast, k, n).form && GroupNaming.NamesApart(ast, k, n)
    requires Unrolled(Prepared(t), null, g) && g.Keys == Nodes(Prepared(t))
    ensures DistinctNames(g)
  {
    forall f, h | f in g && h in g && IsGroup(g, f) && IsGroup(g, h) && g[f].u.name == g[h].u.name ensures f == h {
      GroupNaming.NamesStayApart(ast, k, n, t, g, f, h);
    }
  }

  lemma PreparedHeld(ast: RuleList, k: Lookup, n: nat, t: Tree, g: Graph)
    requires Erase(t) == RulesForm(ast, k, n).form && Distinct(t) && Unshared(t, false) && !Fails(t, false)
    requires Unrolled(Prepared(t), null, g) && g.Keys == Nodes(Prepared(t))
    ensures Held(Prepared(t), g) && Walkable(g) && Filled(g)
    ensures AllMoved(Compiled(ast, k), ListReads(Prepared(t), false))
    ensures Full(Prepared(t)) && (!AnyLeadsWithTarget(ast, k) ==> Shape(Prepared(t)))
  {
    GroupedReads(ast, k, n, t);
    ExpandWithin(t, false);
    FullWithin(Expand(t, false));
    ToEndFull(Expand(t, false));
    ToEndNodes(Expand(t, false));
    FullGraph(Prepared(t), null, g);
    if !AnyLeadsWithTarget(ast, k) {
      KeptForm(ast, k, n);
      ErasedLeads(t);
      KeptExpand(t);
      NoneLeads(t);
      ToEndShape(Expand(t, false));
    }
  }

  lemma {:induction false} ErasedLeads(t: Tree)
    ensures AnyLeads(Erase(t)) <==> AnyLeads(t)
  {
    if t.Cons? {
      ErasedLeads(t.next);
      assert Leads(Erase(t)) <==> Leads(t);
    }
  }

  lemma {:induction false} NoneLeads(t: Tree)
    requires !AnyLeads(t)
    ensures UpToLead(t) == t
  {
    if t.Cons? {
      NoneLeads(t.next);
    }
  }

  lemma {:induction false} ConcatShaped<N>(c: TreeOf<N>, d: TreeOf<N>)
    requires Shape(c) && Shape(d) && d.Cons? && d.next.Nil?
    ensures Shape(Concat(c, d)) && (c.Cons? ==> Concat(c, d).Cons? && Concat(c, d).next == c.next)
  {
    if c.Cons? {
      ConcatShaped(c.child, d);
    }
  }

  /** If no rule is lost, the prepared tree keeps the shape of a tree. */
  lemma {:induction false} ToEndShape<N>(t: TreeOf<N>)
    requires Shape(t) && Kept(t) == t
    ensures Shape(ToEnd(t)) && (t.Nil? <==> ToEnd(t).Nil?)
    ensures t.Cons? && t.next.Nil? ==> ToEnd(t).next.Nil?
  {
    if t.Cons? {
      if IsTarget(t) && t.child.Cons? {
        ConcatShaped(t.child, t.(child := Nil));
      } else {
        ToEndShape(t.next);
        if !t.kind.SiblingsKind? && t.child.Cons? {
          assert Kept(t.child) == t.child;
          ToEndShape(t.child);
        }
      }
    }
  }

  /** The filters the result is about: groups have different names; a path with a group has no target of
      its own, a group's list gives no direction; and the parts of alternatives say what the wholes say. */
  ghost predicate Orderly(root: Tree, g: Graph, rk: Rank, fl: Flags, w: View)
    requires Ranked(g, rk)
  {
    DistinctNames(g) && GroupsTidy(g, rk) && AllFaithful(root, g, fl, w) && forall p | p in PathsOf(root) :: Tidy(g, p)
  }

  /** When the walk with groups and the walk with inlined groups both succeed, every packet gets the same
      verdict from the rules with jumps into the groups' chains as from the inlined rules. */
  lemma GroupsInlined(ast: RuleList, k: Lookup, b: Backend, calls: seq<Call>, root: Tree, g: Graph, rk: Rank, w: View,
                      depth: nat)
    requires WalkedGroups(ast, k, b, calls, root, g, rk) && Orderly(root, g, rk, b.flags, w) && Directed(b)
    requires depth >= Height(rk, Root(root))
    requires Entries(EMPTY, Compiled(ast, k), b.flags).Some?
    ensures Decision(Rules(calls), calls, w, depth)
        == Decision(Entries(EMPTY, Compiled(ast, k), b.flags).value, [], w, 0)
  {
    var xs, ys := Compiled(ast, k), ListReads(root, false);
    MainDecides(root, calls, g, rk, b, w, depth);
    EntriesMoved(xs, ys, b.flags);
    InlinedDecides(ys, b.flags, w);
  }
}
