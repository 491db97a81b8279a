/** `__filter_unroll`: push what follows a sibling list onto the end of each of its alternatives,
    by sharing pointers, so that every path can be walked along `child` alone. */
module FilterUnroll {
  import opened FilterSpec
  import opened FilterGraph
  import opened FilterAppend
  import opened FilterTree

  /** Below `f` there is no negation left and no sibling list with a child of its own. */
  ghost predicate Flat(g: Graph, rk: Rank, f: Filter?)
    requires Ranked(g, rk) && In(g, f)
    decreases Height(rk, f)
  {
    f != null ==>
      && !g[f].u.Neg?
      && (g[f].u.Siblings? ==> g[f].child == null)
      && Flat(g, rk, g[f].u.Inner())
      && Flat(g, rk, g[f].child)
      && Flat(g, rk, g[f].next)
  }

  lemma {:induction false} UnrolledFlat(t: Tree, k: Filter?, g: Graph, rk: Rank)
    requires Unrolled(t, k, g) && NegFree(t) && Ranked(g, rk) && In(g, k) && Flat(g, rk, k)
    ensures Flat(g, rk, Root(t))
  {
    if t.Cons? {
      UnrolledFlat(t.child, k, g, rk);
      UnrolledFlat(t.next, k, g, rk);
      UnrolledFlat(t.inner, if t.kind.SiblingsKind? then After(t, k) else null, g, rk);
    }
  }

  /** What a visit to `f` finds: on the first visit the tree `t` as it was built, later a flat
      graph (and `t` is not used). */
  ghost predicate Found(f: Filter?, g: Graph, rk: Rank, t: Tree, lo: nat, first: bool)
    requires Ranked(g, rk) && In(g, f)
  {
    if first then
      f == Root(t) && Raw(t, g) && Shape(t) && Distinct(t) && NegFree(t) && Ordered(t, rk, lo)
    else
      t.Nil? && Flat(g, rk, f)
  }

  /** What the visit leaves: the list unrolled and ending in `k`, or nothing changed. */
  ghost predicate Left(t: Tree, k: Filter?, g: Graph, g': Graph, first: bool) {
    if first then Unrolled(t, k, g') && SameOutside(g, g', Nodes(t)) else g' == g
  }

  // ----- one node -----

  ghost function InnerOf(t: Tree): Tree { if t.Nil? then Nil else t.inner }

  ghost function ChildOf(t: Tree): Tree { if t.Nil? then Nil else t.child }

  ghost function NextOf(t: Tree): Tree { if t.Nil? then Nil else t.next }

  lemma FoundChild(f: Filter, g: Graph, rk: Rank, t: Tree, lo: nat, first: bool)
    requires Ranked(g, rk) && f in g && Found(f, g, rk, t, lo, first)
    ensures Found(g[f].child, g, rk, ChildOf(t), lo + Size(NextOf(t)), first)
  {
    if first {
      OrderedParts(t, rk, lo);
    }
  }

  lemma InnerAbove(t: Tree, rk: Rank, lo: nat)
    requires t.Cons? && Distinct(t) && Ordered(t, rk, lo) && t.child.Cons?
    ensures t.child.node !in Nodes(t.inner) && Above(rk, Nodes(t.inner), t.child.node)
  {
    OrderedParts(t, rk, lo);
    OrderedRange(t.inner, rk, lo + Size(t.next) + Size(t.child));
    OrderedRange(t.child, rk, lo + Size(t.next));
    assert t.child.node in Nodes(t.child);
  }

  lemma FoundInner(f: Filter, g: Graph, g1: Graph, rk: Rank, t: Tree, lo: nat, first: bool)
    requires Ranked(g, rk) && f in g && Found(f, g, rk, t, lo, first) && Ranked(g1, rk)
    requires Left(ChildOf(t), null, g, g1, first)
    ensures f in g1 && g1[f] == g[f] && In(g1, g[f].u.Inner())
    ensures Found(g[f].u.Inner(), g1, rk, InnerOf(t), lo + Size(NextOf(t)) + Size(ChildOf(t)), first)
    ensures first && g[f].child != null ==> g[f].child !in Nodes(t.inner) && Above(rk, Nodes(t.inner), g[f].child)
  {
    if first {
      OrderedParts(t, rk, lo);
      RawFrame(t.inner, g, g1);
      if t.child.Cons? {
        InnerAbove(t, rk, lo);
      }
    }
  }

  /** The node after its inside has been visited, its child cut off in a sibling list. */
  ghost function Cut(g: Graph, f: Filter): Graph
    requires f in g
  {
    if g[f].u.Siblings? then g[f := g[f].(child := null)] else g
  }

  lemma CutRanked(g: Graph, f: Filter, rk: Rank)
    requires Ranked(g, rk) && f in g
    ensures Ranked(Cut(g, f), rk)
  {
  }

  lemma SameThrough(g: Graph, g1: Graph, g2: Graph, f: Filter, A: set<Filter>, B: set<Filter>, N: set<Filter>)
    requires SameOutside(g, g1, A) && SameOutside(g1, g2, B) && f in g2 && N !! A + B + {f}
    ensures SameOn(g, Cut(g2, f), N)
  {
  }

  lemma FoundNext(f: Filter, g: Graph, g1: Graph, g2: Graph, rk: Rank, t: Tree, lo: nat, first: bool)
    requires Ranked(g, rk) && f in g && Found(f, g, rk, t, lo, first) && Ranked(g2, rk)
    requires Left(ChildOf(t), null, g, g1, first)
    requires Left(InnerOf(t), if g[f].u.Siblings? then g[f].child else null, g1, g2, first)
    ensures f in g2 && g2[f] == g[f] && Ranked(Cut(g2, f), rk) && In(Cut(g2, f), g[f].next)
    ensures Found(g[f].next, Cut(g2, f), rk, NextOf(t), lo, first)
  {
    assert f in g1 && g1[f] == g[f] && f in g2 && g2[f] == g[f];
    CutRanked(g2, f, rk);
    if first {
      OrderedParts(t, rk, lo);
      SameThrough(g, g1, g2, f, Nodes(t.child), Nodes(t.inner), Nodes(t.next));
      RawFrame(t.next, g, Cut(g2, f));
    } else {
      assert Cut(g2, f) == g;
    }
  }

  lemma LeftAll(f: Filter, g: Graph, g1: Graph, g2: Graph, g4: Graph, rk: Rank, t: Tree, lo: nat)
    requires Ranked(g, rk) && f in g && Found(f, g, rk, t, lo, true) && f in g2 && g2[f] == g[f]
    requires Left(t.child, null, g, g1, true)
    requires Left(t.inner, if g[f].u.Siblings? then g[f].child else null, g1, g2, true)
    requires Left(t.next, null, Cut(g2, f), g4, true)
    ensures Left(t, null, g, g4, true)
  {
    var down := if g[f].u.Siblings? then g[f].child else null;
    LeftParts(f, g, g1, g2, g4, Nodes(t.child), Nodes(t.inner), Nodes(t.next));
    UnrolledFrame(t.child, null, g1, g4);
    UnrolledFrame(t.inner, down, g2, g4);
  }

  lemma LeftParts(f: Filter, g: Graph, g1: Graph, g2: Graph, g4: Graph, C: set<Filter>, I: set<Filter>, N: set<Filter>)
    requires f in g && f in g2 && f !in C + I + N && C !! I && C !! N && I !! N
    requires SameOutside(g, g1, C) && SameOutside(g1, g2, I) && SameOutside(Cut(g2, f), g4, N)
    ensures SameOn(g1, g4, C) && SameOn(g2, g4, I) && f in g4 && g4[f] == Cut(g2, f)[f]
    ensures SameOutside(g, g4, {f} + I + C + N)
  {
  }

  /** `__filter_unroll`.  The first visit finds the tree as it was built; every later visit finds
      a flat graph and leaves it alone.  The result is false when the original aborts. */
  method Unroll(f: Filter?, ghost S: set<Filter>, ghost g: Graph, ghost rk: Rank, ghost t: Tree, ghost lo: nat,
                ghost first: bool)
    returns (ok: bool)
    requires Snap(S) == g && Ranked(g, rk) && In(g, f) && Found(f, g, rk, t, lo, first)
    modifies S
    ensures ok
    ensures Ranked(Snap(S), rk) && Left(t, null, g, Snap(S), first)
    decreases Height(rk, f), 1
  {
    if f == null {
      return true;
    }
    var c := f.child;
    assert f in S && g[f] == Node(f.u, f.child, f.next, f.negate);
    ghost var lc := lo + Size(NextOf(t));
    ghost var li := lc + Size(ChildOf(t));

    FoundChild(f, g, rk, t, lo, first);
    ok := Unroll(c, S, g, rk, ChildOf(t), lc, first);
    ghost var g1: Graph := Snap(S);

    ghost var g2: Graph;
    ok, g2 := UnrollInside(f, S, g, g1, rk, t, lo, first);
    FoundNext(f, g, g1, g2, rk, t, lo, first);
    assert f.next == Cut(g2, f)[f].next == g[f].next;

    ok := Unroll(f.next, S, Cut(g2, f), rk, NextOf(t), lo, first);
    if first {
      LeftAll(f, g, g1, g2, Snap(S), rk, t, lo);
    }
  }

  /** The switch of `__filter_unroll` on the type of `f`, once its child has been visited. */
  method UnrollInside(f: Filter, ghost S: set<Filter>, ghost g: Graph, ghost g1: Graph, ghost rk: Rank, ghost t: Tree,
                      ghost lo: nat, ghost first: bool)
    returns (ok: bool, ghost g2: Graph)
    requires Ranked(g, rk) && f in g && Found(f, g, rk, t, lo, first)
    requires Snap(S) == g1 && Ranked(g1, rk) && Left(ChildOf(t), null, g, g1, first)
    modifies S
    ensures ok
    ensures Ranked(g2, rk) && Left(InnerOf(t), if g[f].u.Siblings? then g[f].child else null, g1, g2, first)
    ensures f in g2 && g2[f] == g[f] && Snap(S) == Cut(g2, f)
    decreases Height(rk, f), 0
  {
    FoundInner(f, g, g1, rk, t, lo, first);
    assert f in S && g[f] == g1[f] == Node(f.u, f.child, f.next, f.negate);
    ghost var li := lo + Size(NextOf(t)) + Size(ChildOf(t));
    g2 := g1;
    match f.u {
      case Siblings(s) =>
        ok := UnrollSiblings(s, f.child, S, g1, rk, InnerOf(t), li, first);
        g2 := Snap(S);
        f.SetChild(null, S, g2);
      case Subgroup(_, l) =>
        ok := Unroll(l, S, g1, rk, InnerOf(t), li, first);
        g2 := Snap(S);
      case Neg(_) =>
        return false, g2;
      case Leaf(_) =>
        ok := true;
    }
  }

  // ----- the sibling loop -----

  /** Setting the child of open ends to nothing changes nothing. */
  ghost predicate OpenEnds(g: Graph, A: set<Filter>) {
    forall n | n in A :: n in g && !g[n].u.Siblings? && g[n].child == null
  }

  lemma {:induction false} ListEndsOpen(t: Tree, g: Graph)
    requires Shape(t) && Unrolled(t, null, g)
    ensures OpenEnds(g, ListEnds(t))
  {
    if t.Cons? {
      ListEndsOpen(t.child, g);
      ListEndsOpen(t.next, g);
      if t.child.Nil? && t.kind.SiblingsKind? {
        ListEndsOpen(t.inner, g);
      }
    }
  }

  /** Inside the loop: `g1` is the graph after the list was first visited, the ends in `done`
      already carry `c`, and the list that is left is `r`. */
  ghost predicate Progress(g: Graph, g1: Graph, rk: Rank, t: Tree, r: Tree, c: Filter?, done: set<Filter>) {
    && Unrolled(t, null, g1) && SameOutside(g, g1, Nodes(t)) && Ranked(g1, rk)
    && Shape(r) && Distinct(r) && NegFree(r) && Unrolled(r, null, g1) && Nodes(r) <= Nodes(t)
    && done + ListEnds(r) == ListEnds(t) && done !! Nodes(r) && OpenEnds(g1, done)
    && (c != null ==> c !in Nodes(t) && Above(rk, Nodes(t), c) && OpenAbove(g1, rk, done, c))
  }

  lemma ProgressFlat(g: Graph, g1: Graph, rk: Rank, t: Tree, r: Tree, c: Filter?, done: set<Filter>)
    requires Progress(g, g1, rk, t, r, c, done)
    ensures Ranked(SetChild(g1, done, c), rk) && Unrolled(r, null, SetChild(g1, done, c))
    ensures r.Cons? ==> Flat(SetChild(g1, done, c), rk, r.node)
  {
    var g' := SetChild(g1, done, c);
    if c == null {
      assert g' == g1;
    } else {
      SetChildRanked(g1, rk, done, c);
    }
    UnrolledFrame(r, null, g1, g');
    UnrolledFlat(r, null, g', rk);
  }

  lemma ProgressAppend(g: Graph, g1: Graph, rk: Rank, t: Tree, r: Tree, c: Filter?, done: set<Filter>)
    requires Progress(g, g1, rk, t, r, c, done) && r.Cons?
    ensures var g' := SetChild(g1, done, c);
            && Ranked(g', rk)
            && (c != null ==> Above(rk, Ends(g', rk, r.node, c), c) && Clean(g', rk, r.node, c))
            && SetChild(g1, done + ChainEnds(r), c)
                == if c == null then g' else SetChild(g', Ends(g', rk, r.node, c), c)
  {
    ProgressFlat(g, g1, rk, t, r, c, done);
    EndsAreNodes(r);
    ListEndsOpen(r, g1);
    UnrolledEnds(r, null, SetChild(g1, done, c), rk, c);
    UnrolledClean(r, null, SetChild(g1, done, c), rk, c);
    assert ChainEnds(r) - done == ChainEnds(r);
    SetChildTwice(g1, done, ChainEnds(r), c);
    if c == null {
      SetChildNull(SetChild(g1, done, c), ChainEnds(r));
    }
  }

  lemma SetChildNull(g: Graph, A: set<Filter>)
    requires OpenEnds(g, A)
    ensures FilterAppend.SetChild(g, A, null) == g
  {
  }

  lemma ProgressNext(g: Graph, g1: Graph, rk: Rank, t: Tree, r: Tree, c: Filter?, done: set<Filter>)
    requires Progress(g, g1, rk, t, r, c, done) && r.Cons?
    ensures Progress(g, g1, rk, t, r.next, c, done + ChainEnds(r))
  {
    EndsAreNodes(r);
    ListEndsOpen(r, g1);
    EndsSplit(r, ListEnds(r));
  }

  lemma ProgressEnd(g: Graph, g1: Graph, rk: Rank, t: Tree, c: Filter?, done: set<Filter>)
    requires Progress(g, g1, rk, t, Nil, c, done) && Shape(t) && Distinct(t)
    ensures Left(t, c, g, SetChild(g1, done, c), true)
  {
    EndsAreNodes(t);
    UnrolledAppend(t, c, g1, done);
  }

  /** `raw`: the list has not been visited yet; otherwise `g1`, `r` and `done` are as in Progress. */
  datatype Stage = Stage(raw: bool, g1: Graph, r: Tree, done: set<Filter>) {
    ghost function Visited(cur: Graph): Stage {
      if raw then Stage(false, cur, r, {}) else this
    }

    ghost function Appended(): Stage {
      Stage(false, g1, NextOf(r), done + ChainEnds(r))
    }
  }

  /** The loop before the alternative `s`: nothing has happened yet, or the list has been visited,
      or this is a later visit, which changes nothing. */
  ghost predicate Loop(s: Filter?, cur: Graph, g: Graph, rk: Rank, t: Tree, c: Filter?, lo: nat, first: bool,
                       st: Stage) {
    && Ranked(cur, rk) && In(cur, s)
    && (if st.raw then
          && first && cur == g && st.r == t && Found(s, g, rk, t, lo, true)
          && (c != null ==> c in g && c !in Nodes(t) && Above(rk, Nodes(t), c))
        else if first then
          s == Root(st.r) && cur == SetChild(st.g1, st.done, c) && Progress(g, st.g1, rk, t, st.r, c, st.done)
        else
          c == null && cur == g && Flat(g, rk, s))
  }

  lemma LoopVisit(s: Filter, cur: Graph, g: Graph, rk: Rank, t: Tree, c: Filter?, lo: nat, first: bool, st: Stage)
    requires Loop(s, cur, g, rk, t, c, lo, first, st)
    ensures Found(s, cur, rk, if st.raw then t else Nil, lo, st.raw)
  {
    if first && !st.raw {
      ProgressFlat(g, st.g1, rk, t, st.r, c, st.done);
    }
  }

  lemma LoopVisited(s: Filter, cur: Graph, g: Graph, rk: Rank, t: Tree, c: Filter?, lo: nat, first: bool, st: Stage,
                    cur': Graph)
    requires Loop(s, cur, g, rk, t, c, lo, first, st)
    requires Ranked(cur', rk) && Left(if st.raw then t else Nil, null, cur, cur', st.raw)
    ensures Loop(s, cur', g, rk, t, c, lo, first, st.Visited(cur'))
  {
    if st.raw {
      SetChildNone(cur', c);
    }
  }

  lemma LoopAppend(s: Filter, cur: Graph, g: Graph, rk: Rank, t: Tree, c: Filter?, lo: nat, first: bool, st: Stage)
    requires Loop(s, cur, g, rk, t, c, lo, first, st) && !st.raw
    ensures c != null ==> first && c in cur && Above(rk, Ends(cur, rk, s, c), c) && Clean(cur, rk, s, c)
    ensures var cur' := if c == null then cur else SetChild(cur, Ends(cur, rk, s, c), c);
            s in cur' && cur'[s].next == cur[s].next && Loop(cur'[s].next, cur', g, rk, t, c, lo, first, st.Appended())
  {
    if first {
      ProgressAppend(g, st.g1, rk, t, st.r, c, st.done);
      ProgressNext(g, st.g1, rk, t, st.r, c, st.done);
      ProgressFlat(g, st.g1, rk, t, st.r.next, c, st.done + ChainEnds(st.r));
    }
  }

  /** The loop of `__filter_unroll` over a sibling list whose node continues in `c`.  Visiting the
      first alternative visits the whole list, so every further visit finds it flat. */
  method UnrollSiblings(l: Filter?, c: Filter?, ghost S: set<Filter>, ghost g: Graph, ghost rk: Rank,
                        ghost t: Tree, ghost lo: nat, ghost first: bool)
    returns (ok: bool)
    requires Snap(S) == g && Ranked(g, rk) && In(g, l) && In(g, c) && Found(l, g, rk, t, lo, first)
    requires if first then c != null ==> c !in Nodes(t) && Above(rk, Nodes(t), c) else c == null
    modifies S
    ensures ok
    ensures Ranked(Snap(S), rk) && Left(t, c, g, Snap(S), first)
    decreases Height(rk, l), 3
  {
    ok := true;
    var s := l;
    ghost var st, cur: Graph := Stage(first, g, t, {}), g;
    while s != null
      invariant ok && Snap(S) == cur && Height(rk, s) <= Height(rk, l)
      invariant Loop(s, cur, g, rk, t, c, lo, first, st)
      decreases Height(rk, s)
    {
      ok, cur, st := UnrollSibling(s, c, S, cur, g, rk, t, lo, first, st);
      s := s.next;
    }
    if first && !st.raw {
      ProgressEnd(g, st.g1, rk, t, c, st.done);
    }
  }

  /** One round: visit the alternative, then append the continuation to it. */
  method UnrollSibling(s: Filter, c: Filter?, ghost S: set<Filter>, ghost cur: Graph, ghost g: Graph, ghost rk: Rank,
                       ghost t: Tree, ghost lo: nat, ghost first: bool, ghost st: Stage)
    returns (ok: bool, ghost cur': Graph, ghost st': Stage)
    requires Snap(S) == cur && s in S && In(cur, c) && Loop(s, cur, g, rk, t, c, lo, first, st)
    modifies S
    ensures ok && Snap(S) == cur' && !st'.raw
    ensures Height(rk, s.next) < Height(rk, s) && Loop(s.next, cur', g, rk, t, c, lo, first, st')
    decreases Height(rk, s), 2
  {
    LoopVisit(s, cur, g, rk, t, c, lo, first, st);
    ok := Unroll(s, S, cur, rk, if st.raw then t else Nil, lo, st.raw);
    ghost var cur1: Graph := Snap(S);
    LoopVisited(s, cur, g, rk, t, c, lo, first, st, cur1);
    ghost var st1 := st.Visited(cur1);

    LoopAppend(s, cur1, g, rk, t, c, lo, first, st1);
    ok := Append(s, c, S, cur1, rk);
    cur', st' := Snap(S), st1.Appended();
    assert cur'[s].next == s.next;
  }
}
