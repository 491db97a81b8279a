/** `filter_append`: hang a continuation on every open end below a node.  The graph may be a
    DAG, so an end can be reached more than once and may already carry the continuation. */
module FilterAppend {
  import opened FilterSpec
  import opened FilterGraph

  /** The open ends met when walking down from `f` without going past `x`. */
  ghost function Ends(g: Graph, rk: Rank, f: Filter?, x: Filter?): set<Filter>
    requires Ranked(g, rk) && In(g, f)
    decreases Height(rk, f), 0
  {
    if f == null || f == x then {}
    else if g[f].u.Siblings? then EndsList(g, rk, g[f].u.siblings, x)
    else if g[f].child == null then {f}
    else Ends(g, rk, g[f].child, x)
  }

  ghost function EndsList(g: Graph, rk: Rank, l: Filter?, x: Filter?): set<Filter>
    requires Ranked(g, rk) && In(g, l)
    decreases Height(rk, l), 1
  {
    if l == null then {} else Ends(g, rk, l, x) + EndsList(g, rk, g[l].next, x)
  }

  /** No sibling list on the way to those ends still has a child of its own. */
  ghost predicate Clean(g: Graph, rk: Rank, f: Filter?, x: Filter?)
    requires Ranked(g, rk) && In(g, f)
    decreases Height(rk, f), 0
  {
    f != null && f != x ==>
      if g[f].u.Siblings? then g[f].child == null && CleanList(g, rk, g[f].u.siblings, x)
      else Clean(g, rk, g[f].child, x)
  }

  ghost predicate CleanList(g: Graph, rk: Rank, l: Filter?, x: Filter?)
    requires Ranked(g, rk) && In(g, l)
    decreases Height(rk, l), 1
  {
    l != null ==> Clean(g, rk, l, x) && CleanList(g, rk, g[l].next, x)
  }

  ghost function SetChild(g: Graph, A: set<Filter>, x: Filter?): Graph {
    map n | n in g :: if n in A then g[n].(child := x) else g[n]
  }

  ghost predicate Above(rk: Rank, A: set<Filter>, x: Filter) {
    x in rk && forall n | n in A :: n in rk && rk[x] < rk[n]
  }

  /** `A` holds open ends of `g` that lie above `x`. */
  ghost predicate OpenAbove(g: Graph, rk: Rank, A: set<Filter>, x: Filter) {
    && x in g
    && Above(rk, A, x)
    && forall n | n in A :: n in g && !g[n].u.Siblings? && g[n].child == null && n != x
  }

  lemma SetChildRanked(g: Graph, rk: Rank, A: set<Filter>, x: Filter)
    requires Ranked(g, rk) && OpenAbove(g, rk, A, x)
    ensures Ranked(SetChild(g, A, x), rk)
  {
  }

  /** Once some open ends carry `x`, the open ends that remain are exactly the others. */
  lemma {:induction false} EndsAfter(g: Graph, rk: Rank, A: set<Filter>, f: Filter?, x: Filter)
    requires Ranked(g, rk) && In(g, f) && OpenAbove(g, rk, A, x)
    ensures Ranked(SetChild(g, A, x), rk)
    ensures Ends(SetChild(g, A, x), rk, f, x) == Ends(g, rk, f, x) - A
    ensures Clean(SetChild(g, A, x), rk, f, x) == Clean(g, rk, f, x)
    decreases Height(rk, f), 0
  {
    SetChildRanked(g, rk, A, x);
    if f != null && f != x {
      if g[f].u.Siblings? {
        EndsListAfter(g, rk, A, g[f].u.siblings, x);
      } else if g[f].child != null {
        EndsAfter(g, rk, A, g[f].child, x);
      }
    }
  }

  lemma {:induction false} EndsListAfter(g: Graph, rk: Rank, A: set<Filter>, l: Filter?, x: Filter)
    requires Ranked(g, rk) && In(g, l) && OpenAbove(g, rk, A, x)
    ensures Ranked(SetChild(g, A, x), rk)
    ensures EndsList(SetChild(g, A, x), rk, l, x) == EndsList(g, rk, l, x) - A
    ensures CleanList(SetChild(g, A, x), rk, l, x) == CleanList(g, rk, l, x)
    decreases Height(rk, l), 1
  {
    SetChildRanked(g, rk, A, x);
    if l != null {
      EndsAfter(g, rk, A, l, x);
      EndsListAfter(g, rk, A, g[l].next, x);
    }
  }

  lemma {:induction false} EndsOpen(g: Graph, rk: Rank, f: Filter?, x: Filter)
    requires Ranked(g, rk) && In(g, f)
    ensures forall n | n in Ends(g, rk, f, x) :: n in g && !g[n].u.Siblings? && g[n].child == null && n != x
    decreases Height(rk, f), 0
  {
    if f != null && f != x {
      if g[f].u.Siblings? {
        EndsListOpen(g, rk, g[f].u.siblings, x);
      } else if g[f].child != null {
        EndsOpen(g, rk, g[f].child, x);
      }
    }
  }

  lemma {:induction false} EndsListOpen(g: Graph, rk: Rank, l: Filter?, x: Filter)
    requires Ranked(g, rk) && In(g, l)
    ensures forall n | n in EndsList(g, rk, l, x) :: n in g && !g[n].u.Siblings? && g[n].child == null && n != x
    decreases Height(rk, l), 1
  {
    if l != null {
      EndsOpen(g, rk, l, x);
      EndsListOpen(g, rk, g[l].next, x);
    }
  }

  lemma SetChildNone(g: Graph, x: Filter?)
    ensures SetChild(g, {}, x) == g
  {
  }

  lemma SetChildTwice(g: Graph, A: set<Filter>, B: set<Filter>, x: Filter?)
    ensures SetChild(SetChild(g, A, x), B - A, x) == SetChild(g, A + B, x)
  {
  }

  /** One round of the sibling loop: `done` already carries `x`, the alternative `s` comes next. */
  lemma AppendStep(g: Graph, rk: Rank, done: set<Filter>, s: Filter, x: Filter)
    requires Ranked(g, rk) && s in g && OpenAbove(g, rk, done, x)
    requires Above(rk, Ends(g, rk, s, x), x)
    ensures OpenAbove(g, rk, done + Ends(g, rk, s, x), x)
    ensures var g' := SetChild(g, done, x);
            && Ranked(g', rk)
            && Above(rk, Ends(g', rk, s, x), x)
            && Clean(g', rk, s, x) == Clean(g, rk, s, x)
            && SetChild(g', Ends(g', rk, s, x), x) == SetChild(g, done + Ends(g, rk, s, x), x)
  {
    EndsAfter(g, rk, done, s, x);
    EndsOpen(g, rk, s, x);
    SetChildTwice(g, done, Ends(g, rk, s, x), x);
  }

  /** Appends `x` below `f` in the graph `g` that the heap holds.  The result is false when the
      original aborts ("corrupt siblist"). */
  method Append(f: Filter?, x: Filter?, ghost S: set<Filter>, ghost g: Graph, ghost rk: Rank) returns (ok: bool)
    requires Snap(S) == g && Ranked(g, rk) && In(g, f) && In(g, x)
    requires x != null ==> Above(rk, Ends(g, rk, f, x), x)
    modifies S
    ensures ok <==> x == null || Clean(g, rk, f, x)
    ensures ok ==> Snap(S) == if x == null then g else SetChild(g, Ends(g, rk, f, x), x)
    decreases Height(rk, f), 0
  {
    SetChildNone(g, x);
    if f == null || x == null {
      return true;
    }
    var c := f;
    while !c.u.Siblings? && c.child != null
      invariant c in S && Snap(S) == g && Height(rk, c) <= Height(rk, f)
      invariant Ends(g, rk, c, x) == Ends(g, rk, f, x) && Clean(g, rk, c, x) == Clean(g, rk, f, x)
      decreases Height(rk, c)
    {
      assert g[c].child == c.child;
      if c == x {
        return true;
      }
      c := c.child;
    }
    if c == x {
      return true;
    }
    assert g[c].child == c.child && g[c].u == c.u;
    if c.u.Siblings? {
      if c.child != null {
        return false;
      }
      ok := AppendAll(c.u.siblings, x, S, g, rk);
      return;
    }
    c.child := x;
    assert Snap(S) == SetChild(g, {c}, x);
    return true;
  }

  /** The loop of `filter_append` over the alternatives of a sibling list. */
  method AppendAll(l: Filter?, x: Filter, ghost S: set<Filter>, ghost g: Graph, ghost rk: Rank) returns (ok: bool)
    requires Snap(S) == g && Ranked(g, rk) && In(g, l) && x in g
    requires Above(rk, EndsList(g, rk, l, x), x)
    modifies S
    ensures ok <==> CleanList(g, rk, l, x)
    ensures ok ==> Snap(S) == SetChild(g, EndsList(g, rk, l, x), x)
    decreases Height(rk, l), 1
  {
    var s := l;
    ghost var done: set<Filter> := {};
    SetChildNone(g, x);
    while s != null
      invariant In(g, s) && Height(rk, s) <= Height(rk, l)
      invariant OpenAbove(g, rk, done, x) && Snap(S) == SetChild(g, done, x)
      invariant done + EndsList(g, rk, s, x) == EndsList(g, rk, l, x)
      invariant CleanList(g, rk, s, x) == CleanList(g, rk, l, x)
      decreases Height(rk, s)
    {
      AppendStep(g, rk, done, s, x);
      ok := Append(s, x, S, SetChild(g, done, x), rk);
      if !ok {
        return;
      }
      ghost var e := Ends(g, rk, s, x);
      assert EndsList(g, rk, s, x) == e + EndsList(g, rk, g[s].next, x);
      assert Snap(S)[s].next == g[s].next;
      done, s := done + e, s.next;
    }
    return true;
  }
}
