/** `__filter_neg_expand`: remove the negation nodes and mark the leaves below them. */
module FilterNegation {
  import opened FilterSpec
  import opened FilterGraph
  import opened FilterAppend
  import opened FilterTree

  // ----- which trees can be expanded -----

  /** What the grammar guarantees: a negation holds one specifier. */
  ghost predicate Grammatical<N>(t: TreeOf<N>) {
    t.Cons? ==>
      && (t.kind.NegKind? ==> t.inner.Cons? && t.inner.next.Nil? && t.inner.child.Nil?)
      && Grammatical(t.inner) && Grammatical(t.child) && Grammatical(t.next)
  }

  /** What it also guarantees: that specifier is not a negation in turn. */
  ghost predicate Undoubled<N>(t: TreeOf<N>) {
    t.Cons? ==>
      && (t.kind.NegKind? && t.inner.Cons? ==> !t.inner.kind.NegKind?)
      && Undoubled(t.inner) && Undoubled(t.child) && Undoubled(t.next)
  }

  /** The pass gives up: a sibling list of two or more members or a subgroup stands under an odd
      number of negations, `neg` being the parity of those around `t`. */
  ghost predicate GivesUp<N>(t: TreeOf<N>, neg: bool) {
    t.Cons? &&
    (|| GivesUp(t.child, neg) || GivesUp(t.next, neg)
     || match t.kind
        case LeafKind(_) => false
        case NegKind => GivesUp(t.inner, !neg)
        case SubgroupKind(_) => neg || GivesUp(t.inner, neg)
        case SiblingsKind => (neg && t.inner.Cons? && t.inner.next.Cons?) || GivesUp(t.inner, neg))
  }

  /** Walking down the chain of `t`, its negations expanded, one meets a sibling list that goes on. */
  ghost predicate Blocks<N>(t: TreeOf<N>) {
    t.Cons? &&
    match t.kind
    case SiblingsKind => t.child.Cons? || Blocks(t.inner)
    case NegKind => Blocks(t.inner) || Blocks(t.child)
    case _ => Blocks(t.child)
  }

  /** The pass aborts: what a negation holds, and what follows the negation is to be appended to, has a
      sibling list that goes on ("corrupt siblist"). */
  ghost predicate Jams<N>(t: TreeOf<N>) {
    t.Cons? &&
    ((t.kind.NegKind? && t.child.Cons? && Blocks(t.inner)) || Jams(t.inner) || Jams(t.child) || Jams(t.next))
  }

  ghost predicate Fails<N>(t: TreeOf<N>, neg: bool) {
    GivesUp(t, neg) || Jams(t)
  }

  /** The chain of `t`, its negations expanded, ends in several alternatives. */
  ghost predicate Forks<N>(t: TreeOf<N>, neg: bool) {
    t.Cons? &&
    if t.child.Cons? then Forks(t.child, neg)
    else
      match t.kind
      case SiblingsKind => (!neg && t.inner.Cons? && t.inner.next.Cons?) || Forks(t.inner, neg)
      case NegKind => Forks(t.inner, !neg)
      case _ => false
  }

  /** Nothing has to be appended to several alternatives at once: where a negation goes on, what it
      holds has one end.  (Under an odd number of negations the pass rejects alternatives itself.) */
  ghost predicate Unshared<N>(t: TreeOf<N>, neg: bool) {
    t.Cons? ==>
      && (t.kind.NegKind? && t.child.Cons? ==> !Forks(t.inner, !neg))
      && Unshared(t.inner, neg != t.kind.NegKind?) && Unshared(t.child, neg) && Unshared(t.next, neg)
  }

  ghost predicate Negatable<N>(t: TreeOf<N>, neg: bool) {
    Grammatical(t) && Unshared(t, neg)
  }

  // ----- the tree that remains -----

  /** `c` hung below the last node of a chain. */
  ghost function Tail<N>(t: TreeOf<N>, c: TreeOf<N>): TreeOf<N> {
    if t.Nil? || c.Nil? then t
    else if t.child.Cons? then t.(child := Tail(t.child, c))
    else if t.kind.SiblingsKind? then t.(inner := Tail(t.inner, c))
    else t.(child := c)
  }

  ghost function Expand<N>(t: TreeOf<N>, neg: bool): TreeOf<N> {
    if t.Nil? then Nil
    else
      var c, n := Expand(t.child, neg), Expand(t.next, neg);
      if t.kind.NegKind? then
        var r := Tail(Expand(t.inner, !neg), c);
        if r.Nil? then Nil else r.(next := n, negate := !neg)
      else
        Cons(t.node, t.kind, neg, Expand(t.inner, neg), c, n)
  }

  /** A chain without negations that one can walk down to a single end, `LastNode`. */
  ghost predicate OneEnd<N>(t: TreeOf<N>) {
    t.Cons? && !t.kind.NegKind? &&
    if t.child.Cons? then !t.kind.SiblingsKind? && OneEnd(t.child)
    else t.kind.SiblingsKind? ==> t.inner.Cons? && t.inner.next.Nil? && OneEnd(t.inner)
  }

  ghost function LastNode(t: Tree): Filter
    requires OneEnd(t)
  {
    if t.child.Cons? then LastNode(t.child) else if t.kind.SiblingsKind? then LastNode(t.inner) else t.node
  }

  /** A chain without negations that one cannot walk down. */
  ghost predicate Blocked<N>(t: TreeOf<N>) {
    t.Cons? && if t.kind.SiblingsKind? then t.child.Cons? || Blocked(t.inner) else Blocked(t.child)
  }

  lemma {:induction false} ExpandNil<N>(t: TreeOf<N>, neg: bool)
    requires Grammatical(t)
    ensures Expand(t, neg).Nil? <==> t.Nil?
    ensures t.Cons? ==> Expand(t, neg).negate == (neg != t.kind.NegKind?) && Expand(t, neg).next == Expand(t.next, neg)
    ensures t.Cons? && !t.kind.NegKind? ==> Expand(t, neg).kind == t.kind
  {
    if t.Cons? && t.kind.NegKind? {
      ExpandNil(t.inner, !neg);
    }
  }

  lemma {:induction false} TailOneEnd<N>(i: TreeOf<N>, c: TreeOf<N>)
    requires OneEnd(i)
    ensures Tail(i, c).Cons? && Tail(i, c).next == i.next && Tail(i, c).kind == i.kind
    ensures OneEnd(c) ==> OneEnd(Tail(i, c))
    ensures Blocked(c) ==> Blocked(Tail(i, c))
  {
    if c.Cons? {
      if i.child.Cons? {
        TailOneEnd(i.child, c);
      } else if i.kind.SiblingsKind? {
        TailOneEnd(i.inner, c);
      }
    }
  }

  /** The expansion of a part that one cannot, or can, walk down to one end. */
  ghost predicate EndsRight<N>(t: TreeOf<N>, neg: bool) {
    && (Blocks(t) ==> Blocked(Expand(t, neg)))
    && (t.Cons? && !Blocks(t) && !Forks(t, neg) ==> OneEnd(Expand(t, neg)))
  }

  lemma NodeEnds<N>(t: TreeOf<N>, neg: bool)
    requires t.Cons? && !t.kind.NegKind? && Grammatical(t) && !GivesUp(t, neg) && Shape(t)
    requires EndsRight(t.child, neg) && EndsRight(t.inner, neg)
    ensures EndsRight(t, neg)
  {
    var e := Expand(t, neg);
    ExpandNil(t.child, neg);
    ExpandNil(t.inner, neg);
    assert e.kind == t.kind && e.child == Expand(t.child, neg) && e.inner == Expand(t.inner, neg);
    if t.inner.Cons? {
      ExpandNil(t.inner.next, neg);
    }
  }

  lemma NegationEnds<N>(t: TreeOf<N>, neg: bool)
    requires t.Cons? && t.kind.NegKind? && Grammatical(t) && Shape(t)
    requires t.child.Cons? ==> !Blocks(t.inner) && !Forks(t.inner, !neg)
    requires EndsRight(t.child, neg) && EndsRight(t.inner, !neg)
    ensures EndsRight(t, neg)
  {
    var i, c := Expand(t.inner, !neg), Expand(t.child, neg);
    ExpandNil(t.child, neg);
    ExpandNil(t.inner, !neg);
    if t.child.Cons? {
      TailOneEnd(i, c);
    }
    var r := Tail(i, c);
    EndsRelabelled(r, Expand(t.next, neg), !neg);
    assert Expand(t, neg) == r.(next := Expand(t.next, neg), negate := !neg);
  }

  /** Once expanded, what can be walked down is what does not block. */
  lemma {:induction false} ExpandEnds<N>(t: TreeOf<N>, neg: bool)
    requires Negatable(t, neg) && !Fails(t, neg) && Shape(t)
    ensures EndsRight(t, neg)
  {
    if t.Cons? {
      ExpandEnds(t.child, neg);
      ExpandEnds(t.inner, neg != t.kind.NegKind?);
      if t.kind.NegKind? {
        NegationEnds(t, neg);
      } else {
        NodeEnds(t, neg);
      }
    }
  }

  lemma EndsRelabelled<N>(r: TreeOf<N>, n: TreeOf<N>, neg: bool)
    requires r.Cons?
    ensures OneEnd(r.(next := n, negate := neg)) <==> OneEnd(r)
    ensures Blocked(r.(next := n, negate := neg)) <==> Blocked(r)
  {
  }

  /** What a negation that goes on holds: it can be walked down once expanded. */
  lemma HeldEnds<N>(t: TreeOf<N>, neg: bool)
    requires t.Cons? && t.kind.NegKind? && Negatable(t, neg) && Shape(t)
    requires !Fails(t.inner, !neg) && t.child.Cons?
    ensures if Blocks(t.inner) then Blocked(Expand(t.inner, !neg)) else OneEnd(Expand(t.inner, !neg))
  {
    ExpandEnds(t.inner, !neg);
  }

  /** A tree made of nodes of `A` that is as distinct and well shaped as the one it came from. */
  ghost predicate Within(t: Tree, A: set<Filter>) {
    Nodes(t) <= A && Distinct(t) && Shape(t) && NegFree(t)
  }

  lemma ConsWithin(t: Tree, A: set<Filter>, C: set<Filter>, N: set<Filter>)
    requires t.Cons? && !t.kind.NegKind? && Within(t.inner, A) && Within(t.child, C) && Within(t.next, N)
    requires A !! C !! N !! {t.node} && (t.kind.LeafKind? <==> t.inner.Nil?) && (t.child.Cons? ==> t.child.next.Nil?)
    ensures Within(t, {t.node} + A + C + N)
  {
  }

  lemma {:induction false} TailWithin(t: Tree, c: Tree, C: set<Filter>)
    requires OneEnd(t) && Within(t, Nodes(t)) && Within(c, C) && Nodes(t) !! C && (c.Cons? ==> c.next.Nil?)
    ensures Within(Tail(t, c), Nodes(t) + C) && Tail(t, c).Cons? && Tail(t, c).node == t.node
    ensures Tail(t, c).next == t.next
  {
    if c.Cons? {
      if t.child.Cons? {
        TailWithin(t.child, c, C);
        ConsWithin(Tail(t, c), Nodes(t.inner), Nodes(t.child) + C, Nodes(t.next));
      } else if t.kind.SiblingsKind? {
        TailWithin(t.inner, c, C);
        ConsWithin(Tail(t, c), Nodes(t.inner) + C, {}, Nodes(t.next));
      } else {
        ConsWithin(Tail(t, c), Nodes(t.inner), C, Nodes(t.next));
      }
    }
  }

  lemma NextWithin(t: Tree, n: Tree, neg: bool, A: set<Filter>, N: set<Filter>)
    requires t.Cons? && t.next.Nil? && Within(t, A) && Within(n, N) && A !! N
    ensures Within(t.(next := n, negate := neg), A + N)
  {
  }

  lemma NegationWithin(t: Tree, i: Tree, c: Tree, n: Tree, neg: bool)
    requires t.Cons? && Distinct(t) && i.Cons? && (c.Cons? ==> OneEnd(i) && c.next.Nil?) && i.next.Nil?
    requires Within(i, Nodes(t.inner)) && Within(c, Nodes(t.child)) && Within(n, Nodes(t.next))
    ensures Tail(i, c).Cons? && Within(Tail(i, c).(next := n, negate := neg), Nodes(t))
  {
    if c.Cons? {
      TailWithin(i, c, Nodes(t.child));
    }
    NextWithin(Tail(i, c), n, neg, Nodes(t.inner) + Nodes(t.child), Nodes(t.next));
  }

  lemma NegationExpandedWithin(t: Tree, neg: bool)
    requires t.Cons? && t.kind.NegKind? && Negatable(t, neg) && !Fails(t, neg) && Shape(t) && Distinct(t)
    requires Within(Expand(t.inner, !neg), Nodes(t.inner)) && Within(Expand(t.child, neg), Nodes(t.child))
    requires Within(Expand(t.next, neg), Nodes(t.next))
    ensures Within(Expand(t, neg), Nodes(t))
  {
    ExpandNil(t.inner, !neg);
    ExpandNil(t.child, neg);
    if t.child.Cons? {
      HeldEnds(t, neg);
    }
    NegationWithin(t, Expand(t.inner, !neg), Expand(t.child, neg), Expand(t.next, neg), !neg);
  }

  lemma NodeExpandedWithin(t: Tree, neg: bool)
    requires t.Cons? && !t.kind.NegKind? && Grammatical(t) && Shape(t) && Distinct(t)
    requires Within(Expand(t.inner, neg), Nodes(t.inner)) && Within(Expand(t.child, neg), Nodes(t.child))
    requires Within(Expand(t.next, neg), Nodes(t.next))
    ensures Within(Expand(t, neg), Nodes(t))
  {
    ExpandNil(t.inner, neg);
    ExpandNil(t.child, neg);
    ConsWithin(Expand(t, neg), Nodes(t.inner), Nodes(t.child), Nodes(t.next));
  }

  /** What is below a node of an expandable tree is expandable. */
  lemma PartsNegatable<N>(t: TreeOf<N>, neg: bool)
    requires t.Cons? && Negatable(t, neg) && !Fails(t, neg) && Shape(t)
    ensures Negatable(t.child, neg) && !Fails(t.child, neg) && Shape(t.child)
    ensures Negatable(t.next, neg) && !Fails(t.next, neg) && Shape(t.next)
    ensures var neg' := neg != t.kind.NegKind?; Negatable(t.inner, neg') && !Fails(t.inner, neg') && Shape(t.inner)
    ensures t.kind.NegKind? && t.child.Cons? ==> !Blocks(t.inner)
  {
  }

  lemma {:induction false} ExpandWithin(t: Tree, neg: bool)
    requires Negatable(t, neg) && !Fails(t, neg) && Shape(t) && Distinct(t)
    ensures Within(Expand(t, neg), Nodes(t))
    ensures Expand(t, neg).Nil? <==> t.Nil?
    ensures t.Cons? ==> (Expand(t, neg).next.Nil? <==> t.next.Nil?)
  {
    ExpandNil(t, neg);
    if t.Cons? {
      ExpandNil(t.next, neg);
      PartsNegatable(t, neg);
      ExpandWithin(t.child, neg);
      ExpandWithin(t.next, neg);
      ExpandWithin(t.inner, neg != t.kind.NegKind?);
      if t.kind.NegKind? {
        NegationExpandedWithin(t, neg);
      } else {
        NodeExpandedWithin(t, neg);
      }
    }
  }

  // ----- the heap -----

  /** Walking down a chain that has one end reaches it. */
  lemma {:induction false} OneEndEnds(t: Tree, g: Graph, rk: Rank, x: Filter)
    requires OneEnd(t) && Raw(t, g) && Ranked(g, rk) && x !in Nodes(t)
    ensures Ends(g, rk, t.node, x) == {LastNode(t)} && Clean(g, rk, t.node, x)
  {
    if t.child.Cons? {
      OneEndEnds(t.child, g, rk, x);
    } else if t.kind.SiblingsKind? {
      OneEndEnds(t.inner, g, rk, x);
      assert EndsList(g, rk, t.inner.node, x) == {LastNode(t)} + EndsList(g, rk, null, x);
      assert CleanList(g, rk, t.inner.node, x);
    }
  }

  lemma {:induction false} BlockedEnds(t: Tree, g: Graph, rk: Rank, x: Filter)
    requires Blocked(t) && Raw(t, g) && Ranked(g, rk) && x !in Nodes(t)
    ensures !Clean(g, rk, t.node, x)
  {
    if !t.kind.SiblingsKind? {
      BlockedEnds(t.child, g, rk, x);
    } else if t.child.Nil? {
      BlockedEnds(t.inner, g, rk, x);
      assert !CleanList(g, rk, t.inner.node, x);
    }
  }

  lemma {:induction false} EndsWithin(t: Tree, g: Graph, rk: Rank, x: Filter)
    requires Raw(t, g) && Ranked(g, rk)
    ensures Ends(g, rk, Root(t), x) <= Nodes(t) && EndsList(g, rk, Root(t), x) <= Nodes(t)
  {
    if t.Cons? {
      EndsWithin(t.inner, g, rk, x);
      EndsWithin(t.child, g, rk, x);
      EndsWithin(t.next, g, rk, x);
    }
  }

  lemma {:induction false} LastNodeIn(t: Tree)
    requires OneEnd(t)
    ensures LastNode(t) in Nodes(t) && LastNode(t) in {t.node} + Nodes(t.inner) + Nodes(t.child)
  {
    if t.child.Cons? {
      LastNodeIn(t.child);
    } else if t.kind.SiblingsKind? {
      LastNodeIn(t.inner);
    }
  }

  lemma TailRoot(t: Tree, c: Tree)
    requires OneEnd(t)
    ensures Root(Tail(t, c)) == t.node
  {
  }

  lemma {:induction false} TailRaw(t: Tree, c: Tree, g: Graph)
    requires OneEnd(t) && Distinct(t) && Raw(t, g) && Raw(c, g) && c.Cons? && Nodes(t) !! Nodes(c)
    ensures Raw(Tail(t, c), SetChild(g, {LastNode(t)}, c.node))
  {
    LastNodeIn(t);
    var g' := SetChild(g, {LastNode(t)}, c.node);
    RawFrame(t.next, g, g');
    if t.child.Cons? {
      LastNodeIn(t.child);
      TailRaw(t.child, c, g);
      TailRoot(t.child, c);
      RawFrame(t.inner, g, g');
    } else if t.kind.SiblingsKind? {
      LastNodeIn(t.inner);
      TailRaw(t.inner, c, g);
      TailRoot(t.inner, c);
    } else {
      RawFrame(c, g, g');
      RawFrame(t.inner, g, g');
    }
  }

  /** The node of `t` in `h`, its chain continued by `c` and its list by `n`, its inside as built. */
  ghost predicate Linked(t: Tree, c: Tree, n: Tree, h: Graph) {
    && t.Cons? && t.node in h
    && h[t.node] == Node(BodyOf(t.kind, Root(t.inner)), Root(c), Root(n), t.negate)
    && Raw(t.inner, h) && Raw(c, h) && Raw(n, h)
  }

  ghost predicate Ready(t: Tree, g: Graph, rk: Rank, lo: nat) {
    Ranked(g, rk) && Raw(t, g) && Shape(t) && Distinct(t) && Ordered(t, rk, lo)
  }

  /** What the pass leaves in place of `t`. */
  ghost predicate Expanded(t: Tree, e: Tree, g: Graph, g': Graph, rk: Rank) {
    Ranked(g', rk) && Raw(e, g') && SameOutside(g, g', Nodes(t))
  }

  lemma RankedUpdate(g: Graph, f: Filter, n: Node, rk: Rank)
    requires Ranked(g, rk) && f in g && f in rk
    requires Below(g, rk, n.child, rk[f]) && Below(g, rk, n.next, rk[f]) && Below(g, rk, n.u.Inner(), rk[f])
    ensures Ranked(g[f := n], rk)
  {
  }

  lemma RawUpdate(t: Tree, g: Graph, f: Filter, n: Node)
    requires Raw(t, g) && f !in Nodes(t)
    ensures Raw(t, g[f := n])
  {
    RawFrame(t, g, g[f := n]);
  }

  /** A part of the tree that neither a change of `A` nor one of `f` touches. */
  lemma RawThrough(t: Tree, g: Graph, g1: Graph, A: set<Filter>, f: Filter, n: Node)
    requires Raw(t, g) && SameOutside(g, g1, A) && A !! Nodes(t) && f !in Nodes(t)
    ensures Raw(t, g1[f := n])
  {
    RawFrame(t, g, g1[f := n]);
  }

  lemma RootBelow(e: Tree, A: set<Filter>, g: Graph, rk: Rank, bound: nat)
    requires Nodes(e) <= A && Raw(e, g) && forall n | n in A :: n in rk && rk[n] < bound
    ensures Below(g, rk, Root(e), bound)
  {
    assert e.Cons? ==> e.node in Nodes(e);
  }

  /** A node that stands apart from and above three sets of nodes, themselves apart. */
  ghost predicate Tops(rk: Rank, f: Filter, I: set<Filter>, C: set<Filter>, N: set<Filter>) {
    && f in rk && f !in I && f !in C && f !in N && I !! C && I !! N && C !! N
    && forall n | n in I + C + N :: n in rk && rk[n] < rk[f]
  }

  lemma OrderedBelow(t: Tree, rk: Rank, lo: nat)
    requires t.Cons? && Distinct(t) && Ordered(t, rk, lo)
    ensures t.node in rk && forall n | n in Nodes(t.inner) + Nodes(t.child) + Nodes(t.next) ::
        n in rk && rk[n] < rk[t.node]
    ensures Tops(rk, t.node, Nodes(t.inner), Nodes(t.child), Nodes(t.next))
  {
    OrderedParts(t, rk, lo);
    OrderedRange(t.next, rk, lo);
    OrderedRange(t.child, rk, lo + Size(t.next));
    OrderedRange(t.inner, rk, lo + Size(t.next) + Size(t.child));
  }

  lemma ChildLinked(t: Tree, c: Tree, g: Graph, g1: Graph, rk: Rank, I: set<Filter>, C: set<Filter>, N: set<Filter>)
    requires t.Cons? && Raw(t, g) && Tops(rk, t.node, I, C, N) && Nodes(t.inner) <= I && Nodes(t.next) <= N
    requires Nodes(c) <= C
    requires Ranked(g1, rk) && Raw(c, g1) && SameOutside(g, g1, C)
    ensures t.node in g1
    ensures var h := g1[t.node := g1[t.node].(child := Root(c))];
            Ranked(h, rk) && Linked(t, c, t.next, h) && SameOutside(g, h, C + {t.node})
  {
    assert t.node in g1 && g1[t.node] == g[t.node];
    var nd := g1[t.node].(child := Root(c));
    RootBelow(c, C, g1, rk, rk[t.node]);
    RankedUpdate(g1, t.node, nd, rk);
    RawUpdate(c, g1, t.node, nd);
    RawThrough(t.inner, g, g1, C, t.node, nd);
    RawThrough(t.next, g, g1, C, t.node, nd);
  }

  lemma NextLinked(t: Tree, c: Tree, n: Tree, h: Graph, h1: Graph, rk: Rank, I: set<Filter>, C: set<Filter>,
                   N: set<Filter>)
    requires t.Cons? && Tops(rk, t.node, I, C, N) && Nodes(t.inner) <= I && Nodes(c) <= C && Nodes(n) <= N
    requires Linked(t, c, t.next, h) && Ranked(h1, rk) && Raw(n, h1) && SameOutside(h, h1, N)
    ensures t.node in h1
    ensures var h' := h1[t.node := h1[t.node].(next := Root(n))];
            Ranked(h', rk) && Linked(t, c, n, h') && SameOutside(h, h', N + {t.node})
  {
    assert t.node in h1 && h1[t.node] == h[t.node];
    var nd := h1[t.node].(next := Root(n));
    RootBelow(n, N, h1, rk, rk[t.node]);
    RankedUpdate(h1, t.node, nd, rk);
    RawUpdate(n, h1, t.node, nd);
    RawThrough(c, h, h1, N, t.node, nd);
    RawThrough(t.inner, h, h1, N, t.node, nd);
  }

  /** After the child of `f` has been expanded and linked, the rest of the list is still as built. */
  lemma ChildStep(t: Tree, neg: bool, g: Graph, g1: Graph, rk: Rank, lo: nat)
    requires t.Cons? && Ready(t, g, rk, lo) && Negatable(t, neg) && !Fails(t.child, neg)
    requires Expanded(t.child, Expand(t.child, neg), g, g1, rk)
    ensures t.node in g1
    ensures var h := g1[t.node := g1[t.node].(child := Root(Expand(t.child, neg)))];
            && Linked(t, Expand(t.child, neg), t.next, h) && SameOutside(g, h, Nodes(t.child) + {t.node})
            && Ready(t.next, h, rk, lo) && Negatable(t.next, neg)
  {
    ExpandWithin(t.child, neg);
    OrderedBelow(t, rk, lo);
    ChildLinked(t, Expand(t.child, neg), g, g1, rk, Nodes(t.inner), Nodes(t.child), Nodes(t.next));
    OrderedParts(t, rk, lo);
  }

  lemma NextStep(t: Tree, neg: bool, g: Graph, h: Graph, h1: Graph, rk: Rank, lo: nat)
    requires t.Cons? && Ready(t, g, rk, lo) && Ranked(h, rk) && Negatable(t, neg) && !Fails(t.child, neg)
    requires !Fails(t.next, neg)
    requires Linked(t, Expand(t.child, neg), t.next, h) && SameOutside(g, h, Nodes(t.child) + {t.node})
    requires Expanded(t.next, Expand(t.next, neg), h, h1, rk)
    ensures t.node in h1
    ensures var h' := h1[t.node := h1[t.node].(next := Root(Expand(t.next, neg)))];
            && Ranked(h', rk) && Linked(t, Expand(t.child, neg), Expand(t.next, neg), h')
            && SameOutside(g, h', Nodes(t.next) + Nodes(t.child) + {t.node})
  {
    ExpandWithin(t.child, neg);
    ExpandWithin(t.next, neg);
    OrderedBelow(t, rk, lo);
    NextLinked(t, Expand(t.child, neg), Expand(t.next, neg), h, h1, rk, Nodes(t.inner), Nodes(t.child), Nodes(t.next));
  }

  /** A node that is not a negation, once the list inside it has been expanded to `i`. */
  lemma NodeExpanded(t: Tree, i: Tree, c: Tree, n: Tree, neg: bool, h: Graph, h1: Graph, rk: Rank,
                     I: set<Filter>, C: set<Filter>, N: set<Filter>)
    requires t.Cons? && Tops(rk, t.node, I, C, N) && Linked(t, c, n, h)
    requires Nodes(i) <= I && Nodes(c) <= C && Nodes(n) <= N
    requires Ranked(h1, rk) && Raw(i, h1) && SameOutside(h, h1, I)
    ensures t.node in h1 && h1[t.node] == h[t.node]
    ensures var h' := h1[t.node := Node(BodyOf(t.kind, Root(i)), Root(c), Root(n), neg)];
            Raw(Cons(t.node, t.kind, neg, i, c, n), h') && SameOutside(h, h', I + {t.node}) && Ranked(h', rk)
  {
    assert t.node in h1 && h1[t.node] == h[t.node];
    RawFrame(c, h, h1);
    RawFrame(n, h, h1);
    RootBelow(i, I, h1, rk, rk[t.node]);
    RootBelow(c, C, h1, rk, rk[t.node]);
    RootBelow(n, N, h1, rk, rk[t.node]);
    RankedNode(h1, t.node, t.kind, Root(i), Root(c), Root(n), neg, rk);
    ConsUpdate(t.node, t.kind, neg, i, c, n, h1);
  }

  lemma RankedNode(g: Graph, f: Filter, k: Kind, i: Filter?, c: Filter?, n: Filter?, neg: bool, rk: Rank)
    requires Ranked(g, rk) && f in g && f in rk
    requires Below(g, rk, i, rk[f]) && Below(g, rk, c, rk[f]) && Below(g, rk, n, rk[f])
    ensures Ranked(g[f := Node(BodyOf(k, i), c, n, neg)], rk)
  {
    var nd := Node(BodyOf(k, i), c, n, neg);
    assert nd.u.Inner() == if k.LeafKind? then null else i;
    RankedUpdate(g, f, nd, rk);
  }

  lemma ConsUpdate(f: Filter, k: Kind, neg: bool, i: Tree, c: Tree, n: Tree, h: Graph)
    requires Raw(i, h) && Raw(c, h) && Raw(n, h) && f !in Nodes(i) + Nodes(c) + Nodes(n)
    ensures Raw(Cons(f, k, neg, i, c, n), h[f := Node(BodyOf(k, Root(i)), Root(c), Root(n), neg)])
  {
    var nd := Node(BodyOf(k, Root(i)), Root(c), Root(n), neg);
    RawUpdate(i, h, f, nd);
    RawUpdate(c, h, f, nd);
    RawUpdate(n, h, f, nd);
  }

  /** Before the continuation of a negation is appended to what the negation held. */
  lemma NegReadyToAppend(t: Tree, i: Tree, c: Tree, n: Tree, h: Graph, h1: Graph, rk: Rank, lo: nat)
    requires t.Cons? && Distinct(t) && Ordered(t, rk, lo) && Linked(t, c, n, h)
    requires Within(i, Nodes(t.inner)) && Nodes(c) <= Nodes(t.child) && Nodes(n) <= Nodes(t.next) && i.Cons?
    requires Expanded(t.inner, i, h, h1, rk)
    ensures i.node in h1 && In(h1, Root(c)) && Raw(n, h1) && Raw(c, h1)
    ensures c.Cons? ==> c.node !in Nodes(i) && Above(rk, Nodes(i), c.node)
  {
    RawFrame(c, h, h1);
    RawFrame(n, h, h1);
    if c.Cons? {
      assert c.node in Nodes(c);
      OrderedParts(t, rk, lo);
      OrderedRange(t.child, rk, lo + Size(t.next));
      OrderedRange(t.inner, rk, lo + Size(t.next) + Size(t.child));
    }
  }

  /** What appending to the chain `i` meets there. */
  lemma AppendMeets(i: Tree, g: Graph, rk: Rank, x: Filter)
    requires i.Cons? && Raw(i, g) && Ranked(g, rk) && x !in Nodes(i) && Above(rk, Nodes(i), x)
    ensures Above(rk, Ends(g, rk, i.node, x), x)
    ensures OneEnd(i) ==> Ends(g, rk, i.node, x) == {LastNode(i)} && Clean(g, rk, i.node, x)
    ensures Blocked(i) ==> !Clean(g, rk, i.node, x)
  {
    EndsWithin(i, g, rk, x);
    if OneEnd(i) {
      OneEndEnds(i, g, rk, x);
    }
    if Blocked(i) {
      BlockedEnds(i, g, rk, x);
    }
  }

  ghost function AppendTail(g: Graph, i: Tree, c: Tree): Graph
    requires c.Cons? ==> OneEnd(i)
  {
    if c.Nil? then g else SetChild(g, {LastNode(i)}, c.node)
  }

  /** `r` and the list `n` are in the heap `h`, apart from each other. */
  ghost predicate Apart(r: Tree, n: Tree, h: Graph, rk: Rank) {
    Ranked(h, rk) && Raw(r, h) && Raw(n, h) && Distinct(r) && Nodes(r) !! Nodes(n)
  }

  lemma TailApart(t: Tree, i: Tree, c: Tree, n: Tree, h: Graph, h1: Graph, rk: Rank, lo: nat)
    requires t.Cons? && Distinct(t) && Ordered(t, rk, lo) && Linked(t, c, n, h)
    requires Within(i, Nodes(t.inner)) && Within(c, Nodes(t.child)) && Nodes(n) <= Nodes(t.next)
    requires i.Cons? && (c.Cons? ==> c.next.Nil? && OneEnd(i)) && Expanded(t.inner, i, h, h1, rk)
    ensures Tail(i, c).Cons? && Tail(i, c).node == i.node
    ensures Apart(Tail(i, c), n, AppendTail(h1, i, c), rk)
    ensures SameOutside(h, AppendTail(h1, i, c), Nodes(t.inner))
  {
    NegReadyToAppend(t, i, c, n, h, h1, rk, lo);
    if c.Cons? {
      TailWithin(i, c, Nodes(t.child));
      LastNodeIn(i);
      TailRaw(i, c, h1);
      AppendMeets(i, h1, rk, c.node);
      EndsOpen(h1, rk, i.node, c.node);
      SetChildRanked(h1, rk, {LastNode(i)}, c.node);
      SetChildOutside(h1, LastNode(i), c.node);
      RawFrame(n, h1, AppendTail(h1, i, c));
    }
  }

  lemma SetChildOutside(g: Graph, f: Filter, x: Filter)
    ensures SameOutside(g, SetChild(g, {f}, x), {f})
  {
  }

  /** After it: the negation's content `r` stands where the negation stood. */
  lemma NegExpanded(t: Tree, r: Tree, n: Tree, neg: bool, h2: Graph, rk: Rank, lo: nat)
    requires t.Cons? && Distinct(t) && Ordered(t, rk, lo)
    requires Apart(r, n, h2, rk) && r.Cons? && r.node in Nodes(t.inner) && Nodes(n) <= Nodes(t.next)
    ensures r.node in h2
    ensures var h3 := h2[r.node := h2[r.node].(next := Root(n), negate := neg)];
            Raw(r.(next := n, negate := neg), h3) && SameOutside(h2, h3, {r.node}) && Ranked(h3, rk)
  {
    OrderedParts(t, rk, lo);
    OrderedRange(t.next, rk, lo);
    OrderedRange(t.inner, rk, lo + Size(t.next) + Size(t.child));
    RootBelow(n, Nodes(t.next), h2, rk, rk[r.node]);
    RankedUpdate(h2, r.node, h2[r.node].(next := Root(n), negate := neg), rk);
    ConsUpdate(r.node, r.kind, neg, r.inner, r.child, n, h2);
  }

  /** When the inside of a negation has been expanded, `h1`: what the call of `filter_append` finds. */
  lemma NegationInside(t: Tree, neg: bool, h: Graph, h1: Graph, rk: Rank, lo: nat)
    requires t.Cons? && t.kind.NegKind? && Shape(t) && Distinct(t) && Ordered(t, rk, lo) && Negatable(t, neg)
    requires !Fails(t.child, neg) && !Fails(t.next, neg) && !Fails(t.inner, !neg)
    requires Linked(t, Expand(t.child, neg), Expand(t.next, neg), h)
    requires Expanded(t.inner, Expand(t.inner, !neg), h, h1, rk)
    ensures var i, c := Expand(t.inner, !neg), Expand(t.child, neg);
            && i.Cons? && i.node in h1 && In(h1, Root(c)) && (c.Cons? <==> t.child.Cons?)
            && (c.Cons? ==>
                  && Above(rk, Ends(h1, rk, i.node, c.node), c.node)
                  && (Clean(h1, rk, i.node, c.node) <==> !Blocks(t.inner))
                  && (!Blocks(t.inner) ==> OneEnd(i) && Ends(h1, rk, i.node, c.node) == {LastNode(i)}))
  {
    var i, c, n := Expand(t.inner, !neg), Expand(t.child, neg), Expand(t.next, neg);
    ExpandWithin(t.inner, !neg);
    ExpandWithin(t.child, neg);
    ExpandWithin(t.next, neg);
    NegReadyToAppend(t, i, c, n, h, h1, rk, lo);
    if c.Cons? {
      HeldEnds(t, neg);
      AppendMeets(i, h1, rk, c.node);
    }
  }

  /** From there to the end of the case. */
  lemma NegationDone(t: Tree, neg: bool, h: Graph, h1: Graph, rk: Rank, lo: nat)
    requires t.Cons? && t.kind.NegKind? && Shape(t) && Distinct(t) && Ordered(t, rk, lo) && Negatable(t, neg)
    requires !Fails(t, neg)
    requires Linked(t, Expand(t.child, neg), Expand(t.next, neg), h)
    requires Expanded(t.inner, Expand(t.inner, !neg), h, h1, rk)
    ensures var i, c, n := Expand(t.inner, !neg), Expand(t.child, neg), Expand(t.next, neg);
            && i.Cons? && (c.Cons? ==> OneEnd(i))
            && var h2 := AppendTail(h1, i, c);
               && i.node in h2 && Root(Expand(t, neg)) == i.node
               && Expanded(t, Expand(t, neg), h, Replaced(h2, i.node, Root(n), !neg), rk)
  {
    var i, c, n := Expand(t.inner, !neg), Expand(t.child, neg), Expand(t.next, neg);
    PartsNegatable(t, neg);
    ExpandWithin(t.inner, !neg);
    ExpandWithin(t.child, neg);
    ExpandWithin(t.next, neg);
    ExpandNil(t.inner, !neg);
    if c.Cons? {
      HeldEnds(t, neg);
    }
    TailApart(t, i, c, n, h, h1, rk, lo);
    NegExpanded(t, Tail(i, c), n, !neg, AppendTail(h1, i, c), rk, lo);
  }

  // ----- the pass -----

  /** `__filter_neg_expand`: the result `r` replaces `f`; `ok` is false when the original exits or
      aborts. */
  method NegExpand(f: Filter?, neg: bool, ghost S: set<Filter>, ghost g: Graph, ghost rk: Rank, ghost t: Tree,
                   ghost lo: nat)
    returns (ok: bool, r: Filter?)
    requires Snap(S) == g && f == Root(t) && Ready(t, g, rk, lo) && Negatable(t, neg)
    modifies S
    ensures ok <==> !Fails(t, neg)
    ensures ok ==> r == Root(Expand(t, neg)) && Expanded(t, Expand(t, neg), g, Snap(S), rk)
    decreases Height(rk, f), 2
  {
    if f == null {
      return true, null;
    }
    assert f in S && g[f] == Node(f.u, f.child, f.next, f.negate);
    FirstReady(t, neg, g, rk, lo);
    r := f;

    var c0, n0;
    ok, c0 := NegExpand(f.child, neg, S, g, rk, t.child, lo + Size(t.next));
    if !ok {
      return;
    }
    ghost var c, n := Expand(t.child, neg), Expand(t.next, neg);
    ghost var g1: Graph := Snap(S);
    ChildStep(t, neg, g, g1, rk, lo);
    f.SetChild(c0, S, g1);

    ghost var h: Graph := Snap(S);
    assert f.next == h[f].next;
    ok, n0 := NegExpand(f.next, neg, S, h, rk, t.next, lo);
    if !ok {
      return;
    }
    ghost var h1: Graph := Snap(S);
    NextStep(t, neg, g, h, h1, rk, lo);
    f.SetNext(n0, S, h1);
    ok, r := NegExpandInside(f, neg, S, Snap(S), rk, t, c, n, lo);
  }

  lemma FirstReady(t: Tree, neg: bool, g: Graph, rk: Rank, lo: nat)
    requires t.Cons? && Ready(t, g, rk, lo) && Negatable(t, neg)
    ensures t.node in rk && t.node in g && g[t.node].child == Root(t.child) && g[t.node].next == Root(t.next)
    ensures Height(rk, Root(t.child)) < Height(rk, t.node) && Height(rk, Root(t.next)) < Height(rk, t.node)
    ensures Ready(t.child, g, rk, lo + Size(t.next)) && Negatable(t.child, neg)
    ensures Fails(t.child, neg) || Fails(t.next, neg) ==> Fails(t, neg)
  {
    OrderedParts(t, rk, lo);
  }

  /** The switch of `__filter_neg_expand` on the type of `f`. */
  method NegExpandInside(f: Filter, neg: bool, ghost S: set<Filter>, ghost h: Graph, ghost rk: Rank, ghost t: Tree,
                         ghost c: Tree, ghost n: Tree, ghost lo: nat)
    returns (ok: bool, r: Filter?)
    requires Snap(S) == h && Ranked(h, rk) && t.Cons? && f == t.node && Shape(t) && Distinct(t) && Ordered(t, rk, lo)
    requires Negatable(t, neg) && Linked(t, c, n, h) && !Fails(t.child, neg) && !Fails(t.next, neg)
    requires c == Expand(t.child, neg) && n == Expand(t.next, neg)
    modifies S
    ensures ok <==> !Fails(t, neg)
    ensures ok ==> r == Root(Expand(t, neg)) && Expanded(t, Expand(t, neg), h, Snap(S), rk)
    decreases Height(rk, f), 1
  {
    assert f in S && h[f] == Node(f.u, f.child, f.next, f.negate);
    if f.u.Neg? {
      ok, r := NegExpandNegation(f, neg, S, h, rk, t, c, n, lo);
      return;
    }
    r := f;
    var i := f.u.Inner();
    InsideShown(t, c, n, neg, h);
    if neg && f.u.Siblings? && i != null {
      assert i.next == h[i].next;
      if i.next != null {
        return false, r;
      }
    }
    if neg && f.u.Subgroup? {
      return false, r;
    }
    InsideReady(t, c, n, neg, h, rk, lo);
    ok, i := NegExpand(i, neg, S, h, rk, t.inner, lo + Size(t.next) + Size(t.child));
    if !ok {
      return;
    }
    NodeDone(t, c, n, neg, h, Snap(S), rk, lo);
    f.SetBodyAndSign(f.u.WithInner(i), neg, S, Snap(S));
  }

  /** What the heap shows of a node that may have to be given up. */
  lemma InsideShown(t: Tree, c: Tree, n: Tree, neg: bool, h: Graph)
    requires Linked(t, c, n, h)
    ensures h[t.node].u.Siblings? <==> t.kind.SiblingsKind?
    ensures h[t.node].u.Subgroup? <==> t.kind.SubgroupKind?
    ensures t.kind.SiblingsKind? ==> (h[t.node].u.Inner() != null <==> t.inner.Cons?)
    ensures t.inner.Cons? ==> t.inner.node in h && (h[t.inner.node].next != null <==> t.inner.next.Cons?)
    ensures neg && t.kind.SubgroupKind? ==> GivesUp(t, neg)
    ensures neg && t.kind.SiblingsKind? && t.inner.Cons? && t.inner.next.Cons? ==> GivesUp(t, neg)
  {
  }

  lemma InsideReady(t: Tree, c: Tree, n: Tree, neg: bool, h: Graph, rk: Rank, lo: nat)
    requires t.Cons? && !t.kind.NegKind? && Shape(t) && Distinct(t) && Ordered(t, rk, lo) && Ranked(h, rk)
    requires Linked(t, c, n, h) && Negatable(t, neg) && !Fails(t.child, neg) && !Fails(t.next, neg)
    requires neg ==> !t.kind.SubgroupKind? && !(t.kind.SiblingsKind? && t.inner.next.Cons?)
    ensures Root(t.inner) == h[t.node].u.Inner() && Negatable(t.inner, neg)
    ensures Ready(t.inner, h, rk, lo + Size(t.next) + Size(t.child))
    ensures Fails(t, neg) <==> Fails(t.inner, neg)
  {
    OrderedParts(t, rk, lo);
  }

  lemma NodeDone(t: Tree, c: Tree, n: Tree, neg: bool, h: Graph, h1: Graph, rk: Rank, lo: nat)
    requires t.Cons? && !t.kind.NegKind? && Shape(t) && Distinct(t) && Ordered(t, rk, lo) && Linked(t, c, n, h)
    requires Negatable(t, neg)
    requires !Fails(t, neg) && c == Expand(t.child, neg) && n == Expand(t.next, neg)
    requires Expanded(t.inner, Expand(t.inner, neg), h, h1, rk)
    ensures t.node in h1 && h1[t.node] == h[t.node] && Root(Expand(t, neg)) == t.node
    ensures var body := h[t.node].u.WithInner(Root(Expand(t.inner, neg)));
            Expanded(t, Expand(t, neg), h, h1[t.node := h1[t.node].(u := body, negate := neg)], rk)
  {
    PartsExpanded(t, neg);
    SameNode(t, c, n, neg, h, Root(Expand(t.inner, neg)));
    PartsReplaced(t, Expand(t.inner, neg), c, n, neg, h, h1, rk, lo);
  }

  lemma SameNode(t: Tree, c: Tree, n: Tree, neg: bool, h: Graph, i: Filter?)
    requires Linked(t, c, n, h)
    ensures h[t.node].(u := h[t.node].u.WithInner(i), negate := neg) == Node(BodyOf(t.kind, i), Root(c), Root(n), neg)
  {
  }

  lemma PartsReplaced(t: Tree, i: Tree, c: Tree, n: Tree, neg: bool, h: Graph, h1: Graph, rk: Rank, lo: nat)
    requires t.Cons? && Distinct(t) && Ordered(t, rk, lo) && Linked(t, c, n, h)
    requires Nodes(i) <= Nodes(t.inner) && Nodes(c) <= Nodes(t.child) && Nodes(n) <= Nodes(t.next)
    requires Expanded(t.inner, i, h, h1, rk)
    ensures t.node in h1 && h1[t.node] == h[t.node]
    ensures Expanded(t, Cons(t.node, t.kind, neg, i, c, n), h,
                     h1[t.node := Node(BodyOf(t.kind, Root(i)), Root(c), Root(n), neg)], rk)
  {
    var I, C, N := PartNodes(t, rk, lo);
    NodeReplaced(t, i, c, n, neg, h, h1, rk, I, C, N);
  }

  lemma PartNodes(t: Tree, rk: Rank, lo: nat) returns (I: set<Filter>, C: set<Filter>, N: set<Filter>)
    requires t.Cons? && Distinct(t) && Ordered(t, rk, lo)
    ensures I == Nodes(t.inner) <= Nodes(t) && C == Nodes(t.child) && N == Nodes(t.next)
    ensures Tops(rk, t.node, I, C, N)
  {
    I, C, N := Nodes(t.inner), Nodes(t.child), Nodes(t.next);
    OrderedBelow(t, rk, lo);
  }

  lemma PartsExpanded(t: Tree, neg: bool)
    requires t.Cons? && !t.kind.NegKind? && Shape(t) && Distinct(t) && Negatable(t, neg) && !Fails(t, neg)
    ensures Nodes(Expand(t.inner, neg)) <= Nodes(t.inner) && Nodes(Expand(t.child, neg)) <= Nodes(t.child)
    ensures Nodes(Expand(t.next, neg)) <= Nodes(t.next)
    ensures Expand(t, neg) == Cons(t.node, t.kind, neg, Expand(t.inner, neg), Expand(t.child, neg), Expand(t.next, neg))
  {
    PartsNegatable(t, neg);
    ExpandWithin(t.child, neg);
    ExpandWithin(t.next, neg);
    ExpandWithin(t.inner, neg);
  }

  lemma NodeReplaced(t: Tree, i: Tree, c: Tree, n: Tree, neg: bool, h: Graph, h1: Graph, rk: Rank,
                     I: set<Filter>, C: set<Filter>, N: set<Filter>)
    requires t.Cons? && Tops(rk, t.node, I, C, N) && Linked(t, c, n, h)
    requires Nodes(i) <= I && Nodes(c) <= C && Nodes(n) <= N && I <= Nodes(t)
    requires Ranked(h1, rk) && Raw(i, h1) && SameOutside(h, h1, I)
    ensures t.node in h1 && h1[t.node] == h[t.node]
    ensures Expanded(t, Cons(t.node, t.kind, neg, i, c, n), h,
                     h1[t.node := Node(BodyOf(t.kind, Root(i)), Root(c), Root(n), neg)], rk)
  {
    NodeExpanded(t, i, c, n, neg, h, h1, rk, I, C, N);
    OwnNode(t, I);
    WiderExpanded(t, Cons(t.node, t.kind, neg, i, c, n), h,
                  h1[t.node := Node(BodyOf(t.kind, Root(i)), Root(c), Root(n), neg)], rk, I + {t.node});
  }

  lemma OwnNode(t: Tree, I: set<Filter>)
    requires t.Cons? && I <= Nodes(t)
    ensures I + {t.node} <= Nodes(t)
  {
  }

  lemma WiderExpanded(t: Tree, e: Tree, g: Graph, g': Graph, rk: Rank, A: set<Filter>)
    requires Ranked(g', rk) && Raw(e, g') && SameOutside(g, g', A) && A <= Nodes(t)
    ensures Expanded(t, e, g, g', rk)
  {
  }

  lemma NegationReady(t: Tree, c: Tree, n: Tree, neg: bool, h: Graph, rk: Rank, lo: nat)
    requires t.Cons? && t.kind.NegKind? && Shape(t) && Distinct(t) && Ordered(t, rk, lo) && Ranked(h, rk)
    requires Linked(t, c, n, h) && Negatable(t, neg) && !Fails(t.child, neg) && !Fails(t.next, neg)
    ensures h[t.node].u == Neg(Root(t.inner)) && Negatable(t.inner, !neg)
    ensures t.inner.Cons? && t.inner.node in rk && t.node in rk && rk[t.inner.node] < rk[t.node]
    ensures Ready(t.inner, h, rk, lo + Size(t.next) + Size(t.child))
    ensures Fails(t, neg) <==> Fails(t.inner, !neg) || (t.child.Cons? && Blocks(t.inner))
  {
    OrderedParts(t, rk, lo);
    OrderedBelow(t, rk, lo);
    assert t.inner.node in Nodes(t.inner);
  }

  ghost function Replaced(h: Graph, r: Filter, n: Filter?, neg: bool): Graph {
    if r in h then h[r := h[r].(next := n, negate := neg)] else h
  }

  /** The case of a negation: what it holds, negated once more, takes its place and its links. */
  method NegExpandNegation(f: Filter, neg: bool, ghost S: set<Filter>, ghost h: Graph, ghost rk: Rank, ghost t: Tree,
                           ghost c: Tree, ghost n: Tree, ghost lo: nat)
    returns (ok: bool, r: Filter?)
    requires Snap(S) == h && Ranked(h, rk) && t.Cons? && f == t.node && Shape(t) && Distinct(t) && Ordered(t, rk, lo)
    requires t.kind.NegKind? && Negatable(t, neg) && Linked(t, c, n, h) && !Fails(t.child, neg) && !Fails(t.next, neg)
    requires c == Expand(t.child, neg) && n == Expand(t.next, neg)
    modifies S
    ensures ok <==> !Fails(t, neg)
    ensures ok ==> r == Root(Expand(t, neg)) && Expanded(t, Expand(t, neg), h, Snap(S), rk)
    decreases Height(rk, f), 0
  {
    assert f in S && h[f] == Node(f.u, f.child, f.next, f.negate);
    NegationReady(t, c, n, neg, h, rk, lo);
    var c0, n0 := f.child, f.next;
    ok, r := NegExpand(f.u.neg, !neg, S, h, rk, t.inner, lo + Size(t.next) + Size(t.child));
    if !ok {
      return;
    }
    ghost var h1: Graph := Snap(S);
    NegationInside(t, neg, h, h1, rk, lo);
    ok := Replace(r, c0, n0, !neg, S, h1, rk);
    if ok {
      NegationDone(t, neg, h, h1, rk, lo);
    }
  }

  /** What a negation held, `r`, takes over its continuation and its place in the list. */
  method Replace(r: Filter, c: Filter?, n: Filter?, neg: bool, ghost S: set<Filter>, ghost h: Graph, ghost rk: Rank)
    returns (ok: bool)
    requires Snap(S) == h && Ranked(h, rk) && r in h && In(h, c) && (c != null ==> Above(rk, Ends(h, rk, r, c), c))
    modifies S
    ensures ok <==> c == null || Clean(h, rk, r, c)
    ensures ok ==> Snap(S) == Replaced(if c == null then h else SetChild(h, Ends(h, rk, r, c), c), r, n, neg)
  {
    ok := true;
    if c != null {
      ok := Append(r, c, S, h, rk);
      if !ok {
        return;
      }
    }
    r.SetNextAndSign(n, neg, S, Snap(S));
  }
}
