/** The other passes over the filter tree, `__filter_targets_to_end` and `filter_nogroup`, and the
    whole preparation of a filter for the back ends, `filter_unroll`. */
module FilterPasses {
  import opened FilterSpec
  import opened FilterGraph
  import opened FilterAppend
  import opened FilterTree
  import opened FilterUnroll
  import opened FilterNegation

  // ----- targets to the end of their chains -----

  ghost predicate IsTarget<N>(t: TreeOf<N>) {
    t.Cons? && t.kind.LeafKind? && t.kind.spec.TargetSpec?
  }

  /** The chain of `c` continued by `d`. */
  ghost function Concat<N>(c: TreeOf<N>, d: TreeOf<N>): TreeOf<N> {
    if c.Nil? then d else c.(child := Concat(c.child, d))
  }

  /** The pass on an unrolled tree.  It does not look past a sibling list, whose child is gone by
      then; and a rule that starts with a target takes the target's place without its `next`. */
  ghost function ToEnd<N>(t: TreeOf<N>): TreeOf<N> {
    if t.Nil? then Nil
    else if IsTarget(t) && t.child.Cons? then Concat(t.child, t.(child := Nil))
    else t.(child := if t.kind.SiblingsKind? then t.child else ToEnd(t.child), next := ToEnd(t.next))
  }

  /** The rules that survive: those up to and including the first that starts with a target. */
  ghost function Kept<N>(t: TreeOf<N>): TreeOf<N> {
    if t.Nil? then Nil
    else if IsTarget(t) && t.child.Cons? then t.(next := Nil)
    else t.(next := Kept(t.next))
  }

  lemma {:induction false} ConcatNodes(c: Tree, d: Tree)
    requires Distinct(c) && Distinct(d) && Nodes(c) !! Nodes(d)
    ensures Nodes(Concat(c, d)) == Nodes(c) + Nodes(d) && Distinct(Concat(c, d))
  {
    if c.Cons? {
      ConcatNodes(c.child, d);
    }
  }

  lemma {:induction false} ToEndNodes(t: Tree)
    requires Distinct(t)
    ensures Nodes(ToEnd(t)) == Nodes(t) && Distinct(ToEnd(t))
  {
    if t.Cons? {
      if IsTarget(t) && t.child.Cons? {
        ConcatNodes(t.child, t.(child := Nil));
      } else {
        ToEndNodes(t.next);
        ToEndNodes(t.child);
      }
    }
  }

  lemma {:induction false} ConcatNext(c: Tree, d: Tree)
    requires c.Cons?
    ensures Concat(c, d).Cons? && Concat(c, d).next == c.next
  {
  }

  /** All rules are kept exactly when no rule but the last starts with a target it continues. */
  lemma {:induction false} AllKept(t: Tree)
    ensures Kept(t) == t <==> forall r | Rule(t, r) && r.Cons? && r.next.Cons? :: !(IsTarget(r) && r.child.Cons?)
  {
    if t.Cons? {
      AllKept(t.next);
      assert Rule(t, t);
      forall r | Rule(t.next, r) ensures Rule(t, r) {}
    }
  }

  /** `r` is the list `t` from one of its members on. */
  ghost predicate Rule(t: Tree, r: Tree) {
    t.Cons? && (r == t || Rule(t.next, r))
  }

  // ----- an unrolled tree is acyclic -----

  ghost predicate BelowRank(rk: Rank, k: Filter?, lo: nat) {
    k != null ==> k in rk && rk[k] < lo
  }

  /** Where the chain of a node goes on lies below it, be it the rest of the chain or `k`. */
  lemma AfterRanked(t: Tree, k: Filter?, g: Graph, rk: Rank, lo: nat)
    requires t.Cons? && Unrolled(t.child, k, g) && Ordered(t.child, rk, lo + Size(t.next))
    requires In(g, k) && BelowRank(rk, k, lo)
    ensures BelowRank(rk, After(t, k), lo + Size(t.next) + Size(t.child)) && In(g, After(t, k))
    ensures Below(g, rk, After(t, k), lo + Size(t.next) + Size(t.child))
  {
    RootRanked(t.child, g, rk, lo + Size(t.next), lo + Size(t.next) + Size(t.child));
  }

  lemma UnrolledRankedNode(t: Tree, k: Filter?, g: Graph, rk: Rank, lo: nat)
    requires t.Cons? && Unrolled(t, k, g) && Distinct(t) && Ordered(t, rk, lo)
    requires In(g, k) && BelowRank(rk, k, lo)
    ensures RankedOn(g, rk, {t.node})
    ensures BelowRank(rk, After(t, k), lo + Size(t.next) + Size(t.child)) && In(g, After(t, k))
  {
    OrderedParts(t, rk, lo);
    AfterRanked(t, k, g, rk, lo);
    RootRanked(t.next, g, rk, lo, rk[t.node]);
    RootRanked(t.inner, g, rk, lo + Size(t.next) + Size(t.child), rk[t.node]);
    UnrolledNode(t, k, g);
    NodeRanked(g, rk, t.node);
  }

  lemma UnrolledNode(t: Tree, k: Filter?, g: Graph)
    requires t.Cons? && Unrolled(t, k, g)
    ensures t.node in g && g[t.node].next == Root(t.next) && (g[t.node].child == null || g[t.node].child == After(t, k))
    ensures g[t.node].u.Inner() == null || g[t.node].u.Inner() == Root(t.inner)
  {
  }

  lemma {:induction false} UnrolledRanked(t: Tree, k: Filter?, g: Graph, rk: Rank, lo: nat)
    requires Unrolled(t, k, g) && Distinct(t) && Ordered(t, rk, lo)
    requires In(g, k) && BelowRank(rk, k, lo)
    ensures RankedOn(g, rk, Nodes(t))
  {
    if t.Cons? {
      OrderedParts(t, rk, lo);
      UnrolledRankedNode(t, k, g, rk, lo);
      UnrolledRanked(t.next, k, g, rk, lo);
      UnrolledRanked(t.child, k, g, rk, lo + Size(t.next));
      UnrolledRanked(t.inner, if t.kind.SiblingsKind? then After(t, k) else null, g, rk,
                     lo + Size(t.next) + Size(t.child));
      RankedParts(g, rk, {t.node}, Nodes(t.inner), Nodes(t.child), Nodes(t.next));
    }
  }

  // ----- the heap -----

  lemma {:induction false} ConcatUnrolled(c: Tree, d: Tree, k: Filter?, g: Graph)
    requires c.Cons? && c.next.Nil? && d.Cons? && Shape(c) && Unrolled(c, d.node, g) && Unrolled(d, k, g)
    ensures Unrolled(Concat(c, d), k, g)
  {
    if c.child.Cons? {
      ConcatUnrolled(c.child, d, k, g);
      ConcatNext(c.child, d);
    }
  }

  /** The rank under which the target `t` lies below the chain it is appended to. */
  lemma TargetRank(t: Tree, h: Graph) returns (rk: Rank)
    requires t.Cons? && t.child.Cons? && Shape(t) && Distinct(t) && t.kind.LeafKind?
    requires Unrolled(t.child, null, h) && Unrolled(t.(child := Nil), null, h)
    requires h.Keys == Nodes(t)
    ensures Ranked(h, rk) && Above(rk, Nodes(t.child), t.node)
  {
    var d := t.(child := Nil);
    var r0, r1 := RankOf(d), RankOf(t.child);
    rk := map n | n in Nodes(t) :: if n in Nodes(t.child) then r1[n] + Size(d) else r0[n];
    assert Ordered(d, rk, 0) && Ordered(t.child, rk, Size(d));
    OrderedRange(d, rk, 0);
    OrderedRange(t.child, rk, Size(d));
    UnrolledRanked(d, null, h, rk, 0);
    UnrolledRanked(t.child, null, h, rk, Size(d));
    assert Nodes(t) == Nodes(d) + Nodes(t.child);
    assert t.node in Nodes(d);
  }

  /** The first case of the pass: `h` is the graph once the target is unlinked. */
  lemma TargetAppended(t: Tree, h: Graph, rk: Rank)
    requires IsTarget(t) && t.child.Cons? && Shape(t) && Distinct(t) && Ranked(h, rk)
    requires Unrolled(t.child, null, h) && Unrolled(t.(child := Nil), null, h)
    ensures Ends(h, rk, t.child.node, t.node) == ChainEnds(t.child) <= Nodes(t.child)
    ensures Clean(h, rk, t.child.node, t.node)
    ensures Unrolled(ToEnd(t), null, SetChild(h, ChainEnds(t.child), t.node))
  {
    var h' := SetChild(h, ChainEnds(t.child), t.node);
    UnrolledEnds(t.child, null, h, rk, t.node);
    UnrolledClean(t.child, null, h, rk, t.node);
    EndsAreNodes(t.child);
    UnrolledAppend(t.child, t.node, h, ChainEnds(t.child));
    UnrolledFrame(t.(child := Nil), null, h, h');
    ConcatUnrolled(t.child, t.(child := Nil), null, h');
  }

  lemma TargetUnlinked(t: Tree, g: Graph, h: Graph)
    requires IsTarget(t) && t.child.Cons? && Shape(t) && Distinct(t) && Unrolled(t, null, g)
    requires t.node in g && h == g[t.node := g[t.node].(child := null)]
    ensures Unrolled(t.child, null, h) && Unrolled(t.(child := Nil), null, h)
  {
    UnrolledFrame(t.child, null, g, h);
    UnrolledFrame(t.next, null, g, h);
  }

  /** The part of an unrolled chain below its first node that the pass looks at. */
  ghost function Seen(t: Tree): Tree {
    if t.Nil? || t.kind.SiblingsKind? then Nil else t.child
  }

  ghost function Hidden(t: Tree): Tree {
    if t.Cons? && t.kind.SiblingsKind? then t.child else Nil
  }

  /** Between the two steps of the other case: the chain below the node has been treated. */
  ghost predicate HalfDone(t: Tree, g2: Graph) {
    && t.Cons? && t.node in g2
    && g2[t.node] == Node(BodyOf(t.kind, Root(t.inner)), Root(ToEnd(Seen(t))), Root(t.next), t.negate)
    && Unrolled(t.inner, if t.kind.SiblingsKind? then After(t, null) else null, g2)
    && Unrolled(ToEnd(Seen(t)), null, g2) && Unrolled(Hidden(t), null, g2)
  }

  lemma ChainTreated(t: Tree, g: Graph, g1: Graph)
    requires t.Cons? && !(IsTarget(t) && t.child.Cons?) && Distinct(t) && Unrolled(t, null, g)
    requires Unrolled(ToEnd(Seen(t)), null, g1) && SameOutside(g, g1, Nodes(Seen(t))) && t.node in g1
    ensures var g2 := g1[t.node := g1[t.node].(child := Root(ToEnd(Seen(t))))];
            Unrolled(t.next, null, g2) && HalfDone(t, g2) && SameOutside(g, g2, Nodes(Seen(t)) + {t.node})
  {
    var g2 := g1[t.node := g1[t.node].(child := Root(ToEnd(Seen(t))))];
    ToEndNodes(Seen(t));
    UnrolledFrame(t.next, null, g, g2);
    UnrolledFrame(ToEnd(Seen(t)), null, g1, g2);
    UnrolledFrame(Hidden(t), null, g, g2);
    UnrolledFrame(t.inner, if t.kind.SiblingsKind? then After(t, null) else null, g, g2);
  }

  lemma ListTreated(t: Tree, g2: Graph, g3: Graph)
    requires t.Cons? && !(IsTarget(t) && t.child.Cons?) && Distinct(t) && HalfDone(t, g2)
    requires Unrolled(ToEnd(t.next), null, g3) && SameOutside(g2, g3, Nodes(t.next))
    ensures t.node in g3
    ensures var g4 := g3[t.node := g3[t.node].(next := Root(ToEnd(t.next)))];
            Unrolled(ToEnd(t), null, g4) && SameOutside(g2, g4, Nodes(t.next) + {t.node})
  {
    var g4 := g3[t.node := g3[t.node].(next := Root(ToEnd(t.next)))];
    ToEndNodes(Seen(t));
    ToEndNodes(t.next);
    ToEndRoot(t.child);
    NextFrames(t.node, g2, g3, Root(ToEnd(t.next)), Nodes(t.inner) + Nodes(t.child), Nodes(t.next));
    UnrolledFrame(ToEnd(t.next), null, g3, g4);
    UnrolledFrame(ToEnd(Seen(t)), null, g2, g4);
    UnrolledFrame(Hidden(t), null, g2, g4);
    UnrolledFrame(t.inner, if t.kind.SiblingsKind? then After(t, null) else null, g2, g4);
  }

  lemma NextFrames(f: Filter, g2: Graph, g3: Graph, x: Filter?, A: set<Filter>, N: set<Filter>)
    requires f in g2 && f !in A + N && A !! N && SameOutside(g2, g3, N)
    ensures f in g3
    ensures var g4 := g3[f := g3[f].(next := x)];
            SameOn(g2, g4, A) && SameOn(g3, g4, N) && SameOutside(g2, g4, N + {f}) && g4[f] == g2[f].(next := x)
  {
  }

  lemma ToEndRoot(t: Tree)
    ensures ToEnd(t).Nil? <==> t.Nil?
  {
    if t.Cons? && t.child.Cons? {
      ConcatNext(t.child, t.(child := Nil));
    }
  }

  /** `__filter_targets_to_end`; the result replaces `f`. */
  method TargetsToEnd(f: Filter?, ghost S: set<Filter>, ghost g: Graph, ghost t: Tree) returns (r: Filter?)
    requires Snap(S) == g && f == Root(t) && Unrolled(t, null, g) && Shape(t) && Distinct(t)
    modifies S
    ensures r == Root(ToEnd(t)) && Unrolled(ToEnd(t), null, Snap(S)) && SameOutside(g, Snap(S), Nodes(t))
    decreases t, 1
  {
    if f == null {
      return null;
    }
    assert f in S && g[f] == Node(f.u, f.child, f.next, f.negate);
    if f.u.Leaf? && f.u.spec.TargetSpec? && f.child != null {
      r := f.child;
      f.SetChild(null, S, g);
      TargetUnlinked(t, g, Snap(S));
      AppendTarget(r, f, S, Snap(S), t);
    } else {
      TargetsBelow(f, S, g, t);
      r := f;
    }
  }

  /** The recursive calls of the pass. */
  method TargetsBelow(f: Filter, ghost S: set<Filter>, ghost g: Graph, ghost t: Tree)
    requires Snap(S) == g && f == Root(t) && Unrolled(t, null, g) && Shape(t) && Distinct(t)
    requires !(IsTarget(t) && t.child.Cons?)
    modifies S
    ensures Unrolled(ToEnd(t), null, Snap(S)) && SameOutside(g, Snap(S), Nodes(t))
    decreases t, 0
  {
    assert f in S && g[f] == Node(f.u, f.child, f.next, f.negate);
    var c0 := TargetsToEnd(f.child, S, g, Seen(t));
    ghost var g1: Graph := Snap(S);
    ChainTreated(t, g, g1);
    f.SetChild(c0, S, g1);
    ghost var g2: Graph := Snap(S);
    assert f.next == g2[f].next;
    var n0 := TargetsToEnd(f.next, S, g2, t.next);
    ghost var g3: Graph := Snap(S);
    ListTreated(t, g2, g3);
    f.SetNext(n0, S, g3);
  }

  /** The call of `filter_append` that puts the unlinked target `f` below its former chain. */
  method AppendTarget(c: Filter, f: Filter, ghost S: set<Filter>, ghost h: Graph, ghost t: Tree)
    requires Snap(S) == h && Shape(t) && Distinct(t) && IsTarget(t) && t.child.Cons? && f == t.node && c == t.child.node
    requires Unrolled(t.child, null, h) && Unrolled(t.(child := Nil), null, h)
    modifies S
    ensures Unrolled(ToEnd(t), null, Snap(S)) && SameOutside(h, Snap(S), Nodes(t))
  {
    ghost var T := Nodes(t);
    UnrolledIn(t.child, null, h);
    UnrolledIn(t.(child := Nil), null, h);
    assert T <= S;
    ghost var hT: Graph := Snap(T);
    UnrolledFrame(t.child, null, h, hT);
    UnrolledFrame(t.(child := Nil), null, h, hT);
    ghost var rk := TargetRank(t, hT);
    TargetAppended(t, hT, rk);
    var ok := Append(c, f, T, hT, rk);
    ToEndNodes(t);
    UnrolledFrame(ToEnd(t), null, Snap(T), Snap(S));
  }

  lemma {:induction false} UnrolledIn(t: Tree, k: Filter?, g: Graph)
    requires Unrolled(t, k, g)
    ensures Nodes(t) <= g.Keys
  {
    if t.Cons? {
      UnrolledIn(t.inner, if t.kind.SiblingsKind? then After(t, k) else null, g);
      UnrolledIn(t.child, k, g);
      UnrolledIn(t.next, k, g);
    }
  }

  // ----- inlining groups -----

  /** The tree with its subgroups turned into plain lists; the pass does not look below negations. */
  ghost function Ungroup<N>(t: TreeOf<N>): TreeOf<N> {
    if t.Nil? then Nil
    else
      Cons(t.node, if t.kind.SubgroupKind? then SiblingsKind else t.kind, t.negate,
           if t.kind.NegKind? then t.inner else Ungroup(t.inner), Ungroup(t.child), Ungroup(t.next))
  }

  lemma {:induction false} UngroupShape(t: Tree)
    requires Shape(t)
    ensures Shape(Ungroup(t)) && Nodes(Ungroup(t)) == Nodes(t) && (Ungroup(t).Nil? <==> t.Nil?)
    ensures Distinct(t) ==> Distinct(Ungroup(t))
  {
    if t.Cons? {
      UngroupShape(t.inner);
      UngroupShape(t.child);
      UngroupShape(t.next);
    }
  }

  /** `filter_nogroup`. */
  method NoGroup(f: Filter?, ghost S: set<Filter>, ghost g: Graph, ghost t: Tree)
    requires Snap(S) == g && f == Root(t) && Raw(t, g) && Shape(t) && Distinct(t)
    modifies S
    ensures Raw(Ungroup(t), Snap(S)) && SameOutside(g, Snap(S), Nodes(t))
    decreases t, 1
  {
    if f == null {
      return;
    }
    NoGroupInside(f, S, g, t);
    ghost var g1: Graph := Snap(S);
    assert f.child == g1[f].child;
    RawFrame(t.child, g, g1);
    NoGroup(f.child, S, g1, t.child);
    ghost var g2: Graph := Snap(S);
    assert f.next == g2[f].next;
    RawFrame(t.next, g, g2);
    NoGroup(f.next, S, g2, t.next);
    Ungrouped(t, g, g1, g2, Snap(S));
  }

  /** Its switch: a group becomes a plain list, and lists are entered. */
  method NoGroupInside(f: Filter, ghost S: set<Filter>, ghost g: Graph, ghost t: Tree)
    requires Snap(S) == g && f == Root(t) && Raw(t, g) && Shape(t) && Distinct(t)
    modifies S
    ensures Inlined(t, g, Snap(S))
    decreases t, 0
  {
    assert f in S && g[f] == Node(f.u, f.child, f.next, f.negate);
    if f.u.Subgroup? {
      f.SetBody(Siblings(f.u.list), S, g);
    }
    ghost var g0: Graph := Snap(S);
    RawFrame(t.inner, g, g0);
    if f.u.Siblings? {
      NoGroup(f.u.siblings, S, g0, t.inner);
    }
    InlinedInside(t, g, g0, Snap(S));
  }

  /** The first node of `t` and what is inside it have been treated. */
  ghost predicate Inlined(t: Tree, g: Graph, g1: Graph) {
    && t.Cons? && t.node in g && t.node in g1 && g1[t.node] == g[t.node].(u := BodyOf(Ungroup(t).kind, Root(t.inner)))
    && Raw(Ungroup(t).inner, g1) && SameOutside(g, g1, {t.node} + Nodes(t.inner))
  }

  lemma InlinedInside(t: Tree, g: Graph, g0: Graph, g1: Graph)
    requires t.Cons? && Raw(t, g) && Shape(t) && Distinct(t) && Raw(t.inner, g0) && t.node in g0
    requires g0 == g[t.node := g[t.node].(u := BodyOf(Ungroup(t).kind, Root(t.inner)))]
    requires if t.kind.SiblingsKind? || t.kind.SubgroupKind?
        then Raw(Ungroup(t.inner), g1) && SameOutside(g0, g1, Nodes(t.inner)) else g1 == g0
    ensures Inlined(t, g, g1)
  {
  }

  lemma Ungrouped(t: Tree, g: Graph, g1: Graph, g2: Graph, g3: Graph)
    requires t.Cons? && Shape(t) && Distinct(t) && Raw(t, g) && Inlined(t, g, g1)
    requires SameOutside(g1, g2, Nodes(t.child)) && SameOutside(g2, g3, Nodes(t.next))
    requires Raw(Ungroup(t.child), g2) && Raw(Ungroup(t.next), g3)
    ensures Raw(Ungroup(t), g3) && SameOutside(g, g3, Nodes(t))
  {
    UngroupShape(t.inner);
    UngroupShape(t.child);
    UngroupShape(t.next);
    assert Nodes(Ungroup(t).inner) == Nodes(t.inner);
    RawFrame(Ungroup(t).inner, g1, g3);
    RawFrame(Ungroup(t.child), g2, g3);
  }

  // ----- the whole preparation -----

  /** The tree that `filter_unroll` leaves unrolled in the heap. */
  ghost function Prepared(t: Tree): Tree {
    ToEnd(Expand(t, false))
  }

  /** `filter_unroll`.  It succeeds unless the expansion of a negation fails, and then the graph is
      acyclic and its paths are those of the prepared tree. */
  method PrepareFilter(f: Filter?, ghost S: set<Filter>, ghost t: Tree)
    returns (ok: bool, r: Filter?, ghost rk: Rank)
    requires Raw(t, Snap(S)) && f == Root(t) && S == Nodes(t) && Shape(t) && Distinct(t) && Negatable(t, false)
    modifies S
    ensures ok <==> !Fails(t, false)
    ensures ok ==>
      var A := Nodes(Prepared(t));
      A <= S && r == Root(Prepared(t)) && Unrolled(Prepared(t), null, Snap(A)) && In(Snap(A), r) && Ranked(Snap(A), rk)
      && ListPaths(Snap(A), rk, r) == PathsOf(Prepared(t))
  {
    rk := RankOf(t);
    RawRanked(t, Snap(S), rk, 0);
    ok, r := NegExpand(f, false, S, Snap(S), rk, t, 0);
    if !ok {
      return;
    }
    ghost var e := Expand(t, false);
    ghost var A := Nodes(e);
    ExpandWithin(t, false);
    RawFrame(e, Snap(S), Snap(A));
    rk := RankOf(e);
    RawRanked(e, Snap(A), rk, 0);
    ok := Unroll(r, A, Snap(A), rk, e, 0, true);
    r := TargetsToEnd(r, A, Snap(A), e);
    ToEndNodes(e);
    PreparedMeans(Prepared(t), Snap(A));
    rk := RankOf(Prepared(t));
  }

  lemma PreparedMeans(p: Tree, g: Graph)
    requires Unrolled(p, null, g) && Distinct(p) && g.Keys == Nodes(p)
    ensures Ranked(g, RankOf(p)) && ListPaths(g, RankOf(p), Root(p)) == PathsOf(p)
  {
    UnrolledRanked(p, null, g, RankOf(p), 0);
    UnrolledPaths(p, null, g, RankOf(p));
    CrossUnit(PathsOf(p));
  }
}
