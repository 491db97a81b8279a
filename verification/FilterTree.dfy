/** The trees that the parser builds, and the two ways the heap can hold one: as it was built,
    and unrolled, where every end of an alternative points at what used to follow the list. */
module FilterTree {
  import opened FilterSpec
  import opened FilterGraph
  import opened FilterAppend

  datatype Kind = LeafKind(spec: Spec) | SiblingsKind | SubgroupKind(name: string) | NegKind

  /** `inner` is the list inside the node, `child` the rest of its chain, `next` the rest of the
      list the node belongs to. */
  datatype TreeOf<+N> = Nil | Cons(node: N, kind: Kind, negate: bool, inner: TreeOf<N>, child: TreeOf<N>,
                                   next: TreeOf<N>)

  type Tree = TreeOf<Filter>

  ghost function Root(t: Tree): Filter? {
    if t.Nil? then null else t.node
  }

  ghost function BodyOf(k: Kind, inner: Filter?): Body {
    match k
    case LeafKind(s) => Leaf(s)
    case SiblingsKind => Siblings(inner)
    case SubgroupKind(name) => Subgroup(name, inner)
    case NegKind => Neg(inner)
  }

  ghost function Nodes(t: Tree): set<Filter> {
    if t.Nil? then {} else {t.node} + Nodes(t.inner) + Nodes(t.child) + Nodes(t.next)
  }

  ghost function Size(t: Tree): nat {
    if t.Nil? then 0 else 1 + Size(t.inner) + Size(t.child) + Size(t.next)
  }

  /** No node occurs twice. */
  ghost predicate Distinct(t: Tree) {
    t.Cons? ==>
      && t.node !in Nodes(t.inner) + Nodes(t.child) + Nodes(t.next)
      && Nodes(t.inner) !! Nodes(t.child)
      && Nodes(t.inner) !! Nodes(t.next)
      && Nodes(t.child) !! Nodes(t.next)
      && Distinct(t.inner) && Distinct(t.child) && Distinct(t.next)
  }

  /** What the constructors guarantee: only leaves have nothing inside, and a node that continues
      a chain is not itself a member of a list. */
  ghost predicate Shape<N>(t: TreeOf<N>) {
    t.Cons? ==>
      && (t.kind.LeafKind? <==> t.inner.Nil?)
      && (t.child.Cons? ==> t.child.next.Nil?)
      && Shape(t.inner) && Shape(t.child) && Shape(t.next)
  }

  /** No node is signed yet. */
  ghost predicate Unsigned<N>(t: TreeOf<N>) {
    t.Cons? ==> !t.negate && Unsigned(t.inner) && Unsigned(t.child) && Unsigned(t.next)
  }

  ghost predicate NegFree(t: Tree) {
    t.Cons? ==> !t.kind.NegKind? && NegFree(t.inner) && NegFree(t.child) && NegFree(t.next)
  }

  // ----- the heap holds a tree -----

  ghost predicate Raw(t: Tree, g: Graph) {
    t.Cons? ==>
      && t.node in g
      && g[t.node] == Node(BodyOf(t.kind, Root(t.inner)), Root(t.child), Root(t.next), t.negate)
      && Raw(t.inner, g) && Raw(t.child, g) && Raw(t.next, g)
  }

  /** Where the chain of `t`'s first node goes after that node, when the chain ends in `k`. */
  ghost function After(t: Tree, k: Filter?): Filter?
    requires t.Cons?
  {
    if t.child.Nil? then k else Root(t.child)
  }

  /** The heap holds `t` unrolled, every chain of its top list ending in `k`. */
  ghost predicate Unrolled(t: Tree, k: Filter?, g: Graph) {
    t.Cons? ==>
      && t.node in g
      && g[t.node] == Node(BodyOf(t.kind, Root(t.inner)), if t.kind.SiblingsKind? then null else After(t, k),
                           Root(t.next), t.negate)
      && Unrolled(t.inner, if t.kind.SiblingsKind? then After(t, k) else null, g)
      && Unrolled(t.child, k, g)
      && Unrolled(t.next, k, g)
  }

  /** The open ends of the unrolled chain of `t`'s first node, and of its whole list. */
  ghost function ChainEnds(t: Tree): set<Filter>
    decreases t, 0
  {
    if t.Nil? then {}
    else if t.child.Cons? then ChainEnds(t.child)
    else if t.kind.SiblingsKind? then ListEnds(t.inner)
    else {t.node}
  }

  ghost function ListEnds(t: Tree): set<Filter>
    decreases t, 1
  {
    if t.Nil? then {} else ChainEnds(t) + ListEnds(t.next)
  }

  lemma {:induction false} EndsAreNodes(t: Tree)
    ensures ChainEnds(t) <= ListEnds(t) <= Nodes(t)
    ensures t.Cons? ==> ChainEnds(t) <= Nodes(t.inner) + Nodes(t.child) + {t.node}
  {
    if t.Cons? {
      EndsAreNodes(t.inner);
      EndsAreNodes(t.child);
      EndsAreNodes(t.next);
    }
  }

  // ----- ranks -----

  /** The number of a node when `t` is numbered from zero: a node comes above what is inside it,
      that above what follows in the chain, that above the rest of the list. */
  ghost function Position(t: Tree, n: Filter): nat {
    if t.Nil? then 0
    else if n == t.node then Size(t.next) + Size(t.child) + Size(t.inner)
    else if n in Nodes(t.inner) then Size(t.next) + Size(t.child) + Position(t.inner, n)
    else if n in Nodes(t.child) then Size(t.next) + Position(t.child, n)
    else Position(t.next, n)
  }

  ghost predicate Ordered(t: Tree, rk: Rank, lo: nat) {
    forall n | n in Nodes(t) :: n in rk && rk[n] == lo + Position(t, n)
  }

  lemma OrderedParts(t: Tree, rk: Rank, lo: nat)
    requires t.Cons? && Distinct(t) && Ordered(t, rk, lo)
    ensures t.node in rk && rk[t.node] == lo + Size(t.next) + Size(t.child) + Size(t.inner)
    ensures Ordered(t.next, rk, lo)
    ensures Ordered(t.child, rk, lo + Size(t.next))
    ensures Ordered(t.inner, rk, lo + Size(t.next) + Size(t.child))
  {
    assert t.node in Nodes(t);
  }

  lemma {:induction false} PositionRange(t: Tree, n: Filter)
    requires n in Nodes(t)
    ensures Position(t, n) < Size(t)
  {
    if n == t.node {
    } else if n in Nodes(t.inner) {
      PositionRange(t.inner, n);
    } else if n in Nodes(t.child) {
      PositionRange(t.child, n);
    } else {
      PositionRange(t.next, n);
    }
  }

  lemma OrderedRange(t: Tree, rk: Rank, lo: nat)
    requires Ordered(t, rk, lo)
    ensures forall n | n in Nodes(t) :: n in rk && lo <= rk[n] < lo + Size(t)
  {
    forall n | n in Nodes(t) ensures n in rk && lo <= rk[n] < lo + Size(t) {
      PositionRange(t, n);
    }
  }

  /** Every tree can be ranked. */
  ghost function RankOf(t: Tree): (rk: Rank)
    ensures rk.Keys == Nodes(t) && Ordered(t, rk, 0)
  {
    map n | n in Nodes(t) :: Position(t, n)
  }

  ghost predicate RankedOn(g: Graph, rk: Rank, A: set<Filter>) {
    forall f | f in A ::
      && f in g && f in rk
      && Below(g, rk, g[f].child, rk[f])
      && Below(g, rk, g[f].next, rk[f])
      && Below(g, rk, g[f].u.Inner(), rk[f])
  }

  /** A node whose three links go down. */
  lemma NodeRanked(g: Graph, rk: Rank, f: Filter)
    requires f in g && f in rk
    requires Below(g, rk, g[f].child, rk[f]) && Below(g, rk, g[f].next, rk[f]) && Below(g, rk, g[f].u.Inner(), rk[f])
    ensures RankedOn(g, rk, {f})
  {
  }

  /** The first node of a part that is in the graph and lies below `bound`. */
  lemma RootRanked(t: Tree, g: Graph, rk: Rank, lo: nat, bound: nat)
    requires t.Cons? ==> t.node in g
    requires Ordered(t, rk, lo) && lo + Size(t) <= bound
    ensures Below(g, rk, Root(t), bound)
  {
    if t.Cons? {
      assert t.node in Nodes(t);
      PositionRange(t, t.node);
    }
  }

  lemma RawRankedNode(t: Tree, g: Graph, rk: Rank, lo: nat)
    requires t.Cons? && Raw(t, g) && Shape(t) && Distinct(t) && Ordered(t, rk, lo)
    ensures RankedOn(g, rk, {t.node})
  {
    OrderedParts(t, rk, lo);
    RootRanked(t.next, g, rk, lo, rk[t.node]);
    RootRanked(t.child, g, rk, lo + Size(t.next), rk[t.node]);
    RootRanked(t.inner, g, rk, lo + Size(t.next) + Size(t.child), rk[t.node]);
    NodeRanked(g, rk, t.node);
  }

  lemma RankedParts(g: Graph, rk: Rank, A: set<Filter>, B: set<Filter>, C: set<Filter>, D: set<Filter>)
    requires RankedOn(g, rk, A) && RankedOn(g, rk, B) && RankedOn(g, rk, C) && RankedOn(g, rk, D)
    ensures RankedOn(g, rk, A + B + C + D)
  {
  }

  lemma {:induction false} RawRanked(t: Tree, g: Graph, rk: Rank, lo: nat)
    requires Raw(t, g) && Shape(t) && Distinct(t) && Ordered(t, rk, lo)
    ensures RankedOn(g, rk, Nodes(t))
  {
    if t.Cons? {
      OrderedParts(t, rk, lo);
      RawRankedNode(t, g, rk, lo);
      RawRanked(t.next, g, rk, lo);
      RawRanked(t.child, g, rk, lo + Size(t.next));
      RawRanked(t.inner, g, rk, lo + Size(t.next) + Size(t.child));
      RankedParts(g, rk, {t.node}, Nodes(t.inner), Nodes(t.child), Nodes(t.next));
    }
  }

  // ----- frames -----

  ghost predicate SameOn(g: Graph, g': Graph, A: set<Filter>) {
    forall n | n in A && n in g :: n in g' && g'[n] == g[n]
  }

  ghost predicate SameOutside(g: Graph, g': Graph, A: set<Filter>) {
    g'.Keys == g.Keys && forall n | n in g && n !in A :: g'[n] == g[n]
  }

  lemma {:induction false} RawFrame(t: Tree, g: Graph, g': Graph)
    requires Raw(t, g) && SameOn(g, g', Nodes(t))
    ensures Raw(t, g')
  {
    if t.Cons? {
      RawFrame(t.inner, g, g');
      RawFrame(t.child, g, g');
      RawFrame(t.next, g, g');
    }
  }

  lemma {:induction false} UnrolledFrame(t: Tree, k: Filter?, g: Graph, g': Graph)
    requires Unrolled(t, k, g) && SameOn(g, g', Nodes(t))
    ensures Unrolled(t, k, g')
  {
    if t.Cons? {
      UnrolledFrame(t.inner, if t.kind.SiblingsKind? then After(t, k) else null, g, g');
      UnrolledFrame(t.child, k, g, g');
      UnrolledFrame(t.next, k, g, g');
    }
  }

  // ----- appending to an unrolled tree -----

  /** Walking down an unrolled tree without meeting `x` reaches exactly its open ends, or what
      lies below the continuation `k`. */
  lemma {:induction false} UnrolledEnds(t: Tree, k: Filter?, g: Graph, rk: Rank, x: Filter?)
    requires Shape(t) && Unrolled(t, k, g) && Ranked(g, rk) && In(g, k) && t.Cons?
    requires x !in Nodes(t)
    ensures Ends(g, rk, t.node, x) == (if k == null then ChainEnds(t) else Ends(g, rk, k, x))
    ensures EndsList(g, rk, t.node, x) == (if k == null then ListEnds(t) else Ends(g, rk, k, x))
  {
    if t.child.Cons? {
      UnrolledEnds(t.child, k, g, rk, x);
    }
    if t.kind.SiblingsKind? {
      UnrolledEnds(t.inner, After(t, k), g, rk, x);
    }
    if t.next.Cons? {
      UnrolledEnds(t.next, k, g, rk, x);
    }
  }

  lemma {:induction false} UnrolledClean(t: Tree, k: Filter?, g: Graph, rk: Rank, x: Filter?)
    requires Shape(t) && Unrolled(t, k, g) && Ranked(g, rk) && In(g, k) && t.Cons?
    requires x !in Nodes(t)
    ensures Clean(g, rk, t.node, x) == CleanList(g, rk, t.node, x) == Clean(g, rk, k, x)
  {
    if t.child.Cons? {
      UnrolledClean(t.child, k, g, rk, x);
    }
    if t.kind.SiblingsKind? {
      UnrolledClean(t.inner, After(t, k), g, rk, x);
    }
    if t.next.Cons? {
      UnrolledClean(t.next, k, g, rk, x);
    }
  }

  /** A set that meets a list in its open ends meets each part of the list in that part's. */
  lemma EndsSplit(t: Tree, A: set<Filter>)
    requires t.Cons? && Shape(t) && Distinct(t) && A * Nodes(t) == ListEnds(t)
    ensures A * Nodes(t.next) == ListEnds(t.next)
    ensures t.child.Cons? ==> A * Nodes(t.child) == ListEnds(t.child)
    ensures t.node in A <==> t.child.Nil? && !t.kind.SiblingsKind?
    ensures if t.child.Nil? && t.kind.SiblingsKind? then A * Nodes(t.inner) == ListEnds(t.inner)
        else A !! Nodes(t.inner)
  {
    EndsAreNodes(t.inner);
    EndsAreNodes(t.child);
    EndsAreNodes(t.next);
    EndsAreNodes(t);
    assert ListEnds(t) == ChainEnds(t) + ListEnds(t.next);
    assert t.child.Cons? ==> ListEnds(t.child) == ChainEnds(t.child) + ListEnds(t.child.next);
  }

  lemma {:induction false} UnrolledAppend(t: Tree, x: Filter?, g: Graph, A: set<Filter>)
    requires Shape(t) && Distinct(t) && Unrolled(t, null, g) && A * Nodes(t) == ListEnds(t)
    ensures Unrolled(t, x, SetChild(g, A, x))
  {
    if t.Cons? {
      EndsSplit(t, A);
      UnrolledAppend(t.next, x, g, A);
      if t.child.Cons? {
        UnrolledAppend(t.child, x, g, A);
      }
      if t.child.Nil? && t.kind.SiblingsKind? {
        UnrolledAppend(t.inner, x, g, A);
      } else {
        UnrolledFrame(t.inner, if t.kind.SiblingsKind? then Root(t.child) else null, g, SetChild(g, A, x));
      }
    }
  }

  // ----- meaning -----

  /** The paths a tree denotes: conjunctions along chains, alternatives in lists. */
  ghost function ChainOf(t: Tree): seq<Path>
    decreases t, 0
  {
    if t.Nil? then [[]]
    else Cross(if t.kind.SiblingsKind? then PathsOf(t.inner) else [[t.node]], ChainOf(t.child))
  }

  ghost function PathsOf(t: Tree): seq<Path>
    decreases t, 1
  {
    if t.Nil? then [] else ChainOf(t) + PathsOf(t.next)
  }

  lemma {:induction false} RawPaths(t: Tree, g: Graph, rk: Rank)
    requires Raw(t, g) && Ranked(g, rk)
    ensures ChainPaths(g, rk, Root(t)) == ChainOf(t)
    ensures ListPaths(g, rk, Root(t)) == PathsOf(t)
  {
    if t.Cons? {
      RawPaths(t.inner, g, rk);
      RawPaths(t.child, g, rk);
      RawPaths(t.next, g, rk);
      assert Cross([[t.node]], ChainOf(t.child)) == Prefix([t.node], ChainOf(t.child)) + Cross([], ChainOf(t.child));
    }
  }

  lemma SiblingsPaths(t: Tree, k: Filter?, g: Graph, rk: Rank, kp: seq<Path>)
    requires t.Cons? && t.kind.SiblingsKind? && t.node in g && In(g, After(t, k)) && In(g, Root(t.inner))
    requires Unrolled(t, k, g) && Ranked(g, rk)
    requires ChainPaths(g, rk, After(t, k)) == Cross(ChainOf(t.child), kp)
    requires ListPaths(g, rk, Root(t.inner)) == Cross(PathsOf(t.inner), ChainPaths(g, rk, After(t, k)))
    ensures ChainPaths(g, rk, t.node) == Cross(ChainOf(t), kp)
  {
    CrossUnit(ListPaths(g, rk, Root(t.inner)));
    CrossAssoc(PathsOf(t.inner), ChainOf(t.child), kp);
    assert ChainPaths(g, rk, null) == [[]];
  }

  lemma OtherPaths(t: Tree, k: Filter?, g: Graph, rk: Rank, kp: seq<Path>)
    requires t.Cons? && !t.kind.SiblingsKind? && t.node in g && In(g, After(t, k))
    requires Unrolled(t, k, g) && Ranked(g, rk)
    requires ChainPaths(g, rk, After(t, k)) == Cross(ChainOf(t.child), kp)
    ensures ChainPaths(g, rk, t.node) == Cross(ChainOf(t), kp)
  {
    CrossAssoc([[t.node]], ChainOf(t.child), kp);
    CrossOne(t.node, Cross(ChainOf(t.child), kp));
  }

  lemma {:induction false} UnrolledPaths(t: Tree, k: Filter?, g: Graph, rk: Rank)
    requires Unrolled(t, k, g) && Ranked(g, rk) && In(g, k)
    ensures t.Cons? ==> ChainPaths(g, rk, t.node) == Cross(ChainOf(t), ChainPaths(g, rk, k))
    ensures ListPaths(g, rk, Root(t)) == Cross(PathsOf(t), ChainPaths(g, rk, k))
  {
    var kp := ChainPaths(g, rk, k);
    if t.Cons? {
      UnrolledPaths(t.child, k, g, rk);
      CrossNil(kp);
      assert ChainPaths(g, rk, After(t, k)) == Cross(ChainOf(t.child), kp);
      if t.kind.SiblingsKind? {
        UnrolledPaths(t.inner, After(t, k), g, rk);
        SiblingsPaths(t, k, g, rk, kp);
      } else {
        OtherPaths(t, k, g, rk, kp);
      }
      UnrolledPaths(t.next, k, g, rk);
      CrossAppend(ChainOf(t), PathsOf(t.next), kp);
    }
  }

  lemma CrossOne<T>(x: T, qs: seq<seq<T>>)
    ensures Cross([[x]], qs) == Prefix([x], qs)
  {
    assert Cross([[x]], qs) == Prefix([x], qs) + Cross([], qs);
  }
}
