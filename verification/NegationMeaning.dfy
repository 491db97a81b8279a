/** What negation expansion means: leaves keep their place and carry the parity of the negations
    around them, and the Boolean meaning of the filter is kept exactly when no conjunction is negated. */
module NegationMeaning {
  import opened FilterSpec
  import opened FilterGraph
  import opened FilterTree
  import opened FilterNegation

  // ----- parity -----

  /** The parity of the negations around the node `n` of `t`, which itself stands under `neg`. */
  ghost function Parity(t: Tree, neg: bool, n: Filter): bool {
    if t.Nil? || n == t.node then neg
    else if n in Nodes(t.inner) then Parity(t.inner, neg != t.kind.NegKind?, n)
    else if n in Nodes(t.child) then Parity(t.child, neg, n)
    else Parity(t.next, neg, n)
  }

  ghost function Leaves(t: Tree): set<Filter> {
    if t.Nil? then {}
    else (if t.kind.LeafKind? then {t.node} else {}) + Leaves(t.inner) + Leaves(t.child) + Leaves(t.next)
  }

  /** Every leaf of `e` is marked with its parity in `t`. */
  ghost predicate Marked(e: Tree, t: Tree, neg: bool) {
    e.Cons? ==>
      && (e.kind.LeafKind? ==> e.negate == Parity(t, neg, e.node))
      && Marked(e.inner, t, neg) && Marked(e.child, t, neg) && Marked(e.next, t, neg)
  }

  lemma {:induction false} MarkedInner(e: Tree, t: Tree, neg: bool)
    requires t.Cons? && Distinct(t) && Nodes(e) <= Nodes(t.inner) && Marked(e, t.inner, neg != t.kind.NegKind?)
    ensures Marked(e, t, neg)
  {
    if e.Cons? {
      assert e.node in Nodes(e);
      MarkedInner(e.inner, t, neg);
      MarkedInner(e.child, t, neg);
      MarkedInner(e.next, t, neg);
    }
  }

  lemma {:induction false} MarkedChild(e: Tree, t: Tree, neg: bool)
    requires t.Cons? && Distinct(t) && Nodes(e) <= Nodes(t.child) && Marked(e, t.child, neg)
    ensures Marked(e, t, neg)
  {
    if e.Cons? {
      assert e.node in Nodes(e);
      MarkedChild(e.inner, t, neg);
      MarkedChild(e.child, t, neg);
      MarkedChild(e.next, t, neg);
    }
  }

  lemma {:induction false} MarkedNext(e: Tree, t: Tree, neg: bool)
    requires t.Cons? && Distinct(t) && Nodes(e) <= Nodes(t.next) && Marked(e, t.next, neg)
    ensures Marked(e, t, neg)
  {
    if e.Cons? {
      assert e.node in Nodes(e);
      MarkedNext(e.inner, t, neg);
      MarkedNext(e.child, t, neg);
      MarkedNext(e.next, t, neg);
    }
  }

  lemma {:induction false} TailMarked(i: Tree, c: Tree, t: Tree, neg: bool)
    requires OneEnd(i) && Marked(i, t, neg) && Marked(c, t, neg)
    ensures Marked(Tail(i, c), t, neg)
  {
    if c.Cons? {
      if i.child.Cons? {
        TailMarked(i.child, c, t, neg);
      } else if i.kind.SiblingsKind? {
        TailMarked(i.inner, c, t, neg);
      }
    }
  }

  lemma {:induction false} TailLeaves(i: Tree, c: Tree)
    requires OneEnd(i)
    ensures Leaves(Tail(i, c)) == Leaves(i) + Leaves(c)
  {
    if c.Cons? {
      if i.child.Cons? {
        TailLeaves(i.child, c);
      } else if i.kind.SiblingsKind? {
        TailLeaves(i.inner, c);
      }
    }
  }

  /** Expansion marks each leaf with the parity of its negations. */
  lemma {:induction false} ExpandMarks(t: Tree, neg: bool)
    requires Negatable(t, neg) && Undoubled(t) && !Fails(t, neg) && Shape(t) && Distinct(t)
    ensures Marked(Expand(t, neg), t, neg)
  {
    if t.Cons? {
      PartsNegatable(t, neg);
      ExpandMarks(t.child, neg);
      ExpandMarks(t.next, neg);
      ExpandMarks(t.inner, neg != t.kind.NegKind?);
      PartsMarked(t, neg);
      if t.kind.NegKind? {
        NegationMarked(t, neg);
      }
    }
  }

  lemma PartsMarked(t: Tree, neg: bool)
    requires t.Cons? && Negatable(t, neg) && !Fails(t, neg) && Shape(t) && Distinct(t)
    requires Marked(Expand(t.child, neg), t.child, neg) && Marked(Expand(t.next, neg), t.next, neg)
    requires Marked(Expand(t.inner, neg != t.kind.NegKind?), t.inner, neg != t.kind.NegKind?)
    ensures Marked(Expand(t.child, neg), t, neg) && Marked(Expand(t.next, neg), t, neg)
    ensures Marked(Expand(t.inner, neg != t.kind.NegKind?), t, neg)
  {
    PartsNegatable(t, neg);
    ExpandWithin(t.child, neg);
    MarkedChild(Expand(t.child, neg), t, neg);
    ExpandWithin(t.next, neg);
    MarkedNext(Expand(t.next, neg), t, neg);
    ExpandWithin(t.inner, neg != t.kind.NegKind?);
    MarkedInner(Expand(t.inner, neg != t.kind.NegKind?), t, neg);
  }

  lemma NegationMarked(t: Tree, neg: bool)
    requires t.Cons? && t.kind.NegKind? && Negatable(t, neg) && Undoubled(t) && !Fails(t, neg) && Shape(t)
    requires Marked(Expand(t.child, neg), t, neg) && Marked(Expand(t.next, neg), t, neg)
    requires Marked(Expand(t.inner, !neg), t, neg)
    ensures Marked(Expand(t, neg), t, neg)
  {
    var i, c := Expand(t.inner, !neg), Expand(t.child, neg);
    ExpandNil(t.inner, !neg);
    ExpandNil(t.child, neg);
    if c.Cons? {
      HeldEnds(t, neg);
      TailMarked(i, c, t, neg);
      TailLabel(i, c);
    }
  }

  lemma TailLabel<N>(i: TreeOf<N>, c: TreeOf<N>)
    requires OneEnd(i)
    ensures Tail(i, c).Cons? && Tail(i, c).negate == i.negate && Tail(i, c).kind == i.kind && Tail(i, c).next == i.next
  {
  }

  /** Expansion loses no leaf and adds none. */
  lemma {:induction false} ExpandLeaves(t: Tree, neg: bool)
    requires Negatable(t, neg) && !Fails(t, neg) && Shape(t)
    ensures Leaves(Expand(t, neg)) == Leaves(t)
  {
    if t.Cons? {
      PartsNegatable(t, neg);
      ExpandLeaves(t.child, neg);
      ExpandLeaves(t.next, neg);
      ExpandLeaves(t.inner, neg != t.kind.NegKind?);
      if t.kind.NegKind? {
        NegationLeaves(t, neg);
      }
    }
  }

  lemma NegationLeaves(t: Tree, neg: bool)
    requires t.Cons? && t.kind.NegKind? && Negatable(t, neg) && !Fails(t, neg) && Shape(t)
    requires Leaves(Expand(t.inner, !neg)) == Leaves(t.inner) && Leaves(Expand(t.child, neg)) == Leaves(t.child)
    requires Leaves(Expand(t.next, neg)) == Leaves(t.next)
    ensures Leaves(Expand(t, neg)) == Leaves(t)
  {
    var i, c := Expand(t.inner, !neg), Expand(t.child, neg);
    ExpandNil(t.inner, !neg);
    ExpandNil(t.child, neg);
    if t.child.Cons? {
      HeldEnds(t, neg);
      TailLeaves(i, c);
      TailLabel(i, c);
    }
    LeavesRelabelled(Tail(i, c), Expand(t.next, neg), !neg);
  }

  lemma LeavesRelabelled(r: Tree, n: Tree, neg: bool)
    requires r.Cons? && r.next.Nil?
    ensures Leaves(r.(next := n, negate := neg)) == Leaves(r) + Leaves(n)
  {
  }

  // ----- Boolean meaning -----

  type Valuation = Filter -> bool

  /** All specifiers of a chain hold; a subgroup counts as a condition of its own. */
  ghost predicate ChainHolds(t: Tree, v: Valuation)
    decreases t, 0
  {
    t.Cons? ==>
      && (match t.kind
          case LeafKind(_) => v(t.node) != t.negate
          case SubgroupKind(_) => v(t.node) != t.negate
          case SiblingsKind => ListHolds(t.inner, v)
          case NegKind => !ListHolds(t.inner, v))
      && ChainHolds(t.child, v)
  }

  /** Some alternative of a list holds. */
  ghost predicate ListHolds(t: Tree, v: Valuation)
    decreases t, 1
  {
    t.Cons? && (ChainHolds(t, v) || ListHolds(t.next, v))
  }

  lemma ListOfOne(t: Tree, v: Valuation)
    requires t.Cons? && t.next.Nil?
    ensures ListHolds(t, v) <==> ChainHolds(t, v)
  {
    assert !ListHolds(t.next, v);
  }

  // ----- the meaning by signed leaves -----

  /** `W` has the leaves and groups that hold, or that fail and stand under an odd number of negations. */
  ghost predicate Signs(t: Tree, neg: bool, v: Valuation, W: set<Filter>) {
    forall n | n in Nodes(t) :: n in W <==> v(n) != Parity(t, neg, n)
  }

  /** What `t` under `neg` means, its negations driven down to the leaves: a conjunction under an odd
      number of negations is a disjunction, and the other way round. */
  ghost predicate HeadWas(t: Tree, neg: bool, W: set<Filter>)
    requires t.Cons?
    decreases t, 0
  {
    match t.kind
    case SiblingsKind => ListWas(t.inner, neg, W)
    case NegKind => ListWas(t.inner, !neg, W)
    case _ => t.node in W
  }

  ghost predicate ChainWas(t: Tree, neg: bool, W: set<Filter>)
    decreases t, 1
  {
    if t.Nil? then !neg
    else if neg then HeadWas(t, neg, W) || ChainWas(t.child, neg, W)
    else HeadWas(t, neg, W) && ChainWas(t.child, neg, W)
  }

  ghost predicate ListWas(t: Tree, neg: bool, W: set<Filter>)
    decreases t, 2
  {
    if t.Nil? then neg
    else if neg then ChainWas(t, neg, W) && ListWas(t.next, neg, W)
    else ChainWas(t, neg, W) || ListWas(t.next, neg, W)
  }

  /** What the pass leaves of it: a chain stays a conjunction, a list a disjunction. */
  ghost predicate HeadLeft(t: Tree, neg: bool, W: set<Filter>)
    requires t.Cons?
    decreases t, 0
  {
    match t.kind
    case SiblingsKind => ListLeft(t.inner, neg, W)
    case NegKind => ListLeft(t.inner, !neg, W)
    case _ => t.node in W
  }

  ghost predicate ChainLeft(t: Tree, neg: bool, W: set<Filter>)
    decreases t, 1
  {
    t.Cons? ==> HeadLeft(t, neg, W) && ChainLeft(t.child, neg, W)
  }

  ghost predicate ListLeft(t: Tree, neg: bool, W: set<Filter>)
    decreases t, 2
  {
    t.Cons? && (ChainLeft(t, neg, W) || ListLeft(t.next, neg, W))
  }

  /** The two meanings, one step at a time. */
  lemma WasStep(t: Tree, neg: bool, W: set<Filter>)
    requires t.Cons?
    ensures ListWas(t, neg, W)
        == if neg then ChainWas(t, neg, W) && ListWas(t.next, neg, W)
            else ChainWas(t, neg, W) || ListWas(t.next, neg, W)
    ensures ChainWas(t, neg, W)
        == if neg then HeadWas(t, neg, W) || ChainWas(t.child, neg, W)
            else HeadWas(t, neg, W) && ChainWas(t.child, neg, W)
    ensures ListWas(Nil, neg, W) == neg && ChainWas(Nil, neg, W) == !neg
  {
  }

  lemma LeftStep(t: Tree, neg: bool, W: set<Filter>)
    requires t.Cons?
    ensures ListLeft(t, neg, W) == (ChainLeft(t, neg, W) || ListLeft(t.next, neg, W))
    ensures ChainLeft(t, neg, W) == (HeadLeft(t, neg, W) && ChainLeft(t.child, neg, W))
    ensures !ListLeft(Nil, neg, W) && ChainLeft(Nil, neg, W)
  {
  }

  lemma HoldsStep(t: Tree, v: Valuation)
    requires t.Cons?
    ensures ListHolds(t, v) == (ChainHolds(t, v) || ListHolds(t.next, v))
  {
  }

  lemma SignParts(t: Tree, neg: bool, v: Valuation, W: set<Filter>)
    requires t.Cons? && Distinct(t) && Signs(t, neg, v, W)
    ensures Signs(t.inner, neg != t.kind.NegKind?, v, W) && Signs(t.child, neg, v, W) && Signs(t.next, neg, v, W)
    ensures t.node in W <==> v(t.node) != neg
  {
    assert t.node in Nodes(t);
    forall n | n in Nodes(t.inner) ensures n in W <==> v(n) != Parity(t.inner, neg != t.kind.NegKind?, n) {
      assert n in Nodes(t);
    }
    forall n | n in Nodes(t.child) ensures n in W <==> v(n) != Parity(t.child, neg, n) {
      assert n in Nodes(t);
    }
    forall n | n in Nodes(t.next) ensures n in W <==> v(n) != Parity(t.next, neg, n) {
      assert n in Nodes(t);
    }
  }

  lemma {:induction false} WasHolds(t: Tree, neg: bool, v: Valuation, W: set<Filter>)
    requires Distinct(t) && Unsigned(t) && Signs(t, neg, v, W)
    ensures ListWas(t, neg, W) <==> ListHolds(t, v) != neg
    ensures ChainWas(t, neg, W) <==> ChainHolds(t, v) != neg
  {
    if t.Cons? {
      SignParts(t, neg, v, W);
      WasStep(t, neg, W);
      HoldsStep(t, v);
      WasHolds(t.inner, neg != t.kind.NegKind?, v, W);
      WasHolds(t.child, neg, v, W);
      WasHolds(t.next, neg, v, W);
    }
  }

  lemma {:induction false} TailHolds(i: Tree, c: Tree, v: Valuation)
    requires OneEnd(i) && Shape(i)
    ensures ChainHolds(Tail(i, c), v) <==> ChainHolds(i, v) && ChainHolds(c, v)
  {
    if c.Cons? {
      if i.child.Cons? {
        TailHolds(i.child, c, v);
      } else if i.kind.SiblingsKind? {
        TailHolds(i.inner, c, v);
        TailLabel(i.inner, c);
        ListOfOne(i.inner, v);
        ListOfOne(Tail(i.inner, c), v);
      }
    }
  }

  /** The label of a node that an expansion left is `neg` already, and its list is not part of its chain. */
  lemma ChainHoldsLabel(r: Tree, n: Tree, neg: bool, v: Valuation)
    requires r.Cons? && r.negate == neg
    ensures ChainHolds(r.(next := n, negate := neg), v) <==> ChainHolds(r, v)
  {
  }

  lemma NegationLeft(t: Tree, neg: bool, v: Valuation, W: set<Filter>)
    requires t.Cons? && t.kind.NegKind? && Negatable(t, neg) && Undoubled(t) && !Fails(t, neg) && Shape(t)
    requires Distinct(t)
    requires ListHolds(Expand(t.inner, !neg), v) <==> ListLeft(t.inner, !neg, W)
    requires ChainHolds(Expand(t.child, neg), v) <==> ChainLeft(t.child, neg, W)
    ensures ChainHolds(Expand(t, neg), v) <==> ChainLeft(t, neg, W)
  {
    var i, c := Expand(t.inner, !neg), Expand(t.child, neg);
    PartsNegatable(t, neg);
    ExpandNil(t.inner, !neg);
    ExpandNil(t.child, neg);
    ListOfOne(i, v);
    if c.Cons? {
      HeldEnds(t, neg);
      ExpandWithin(t.inner, !neg);
      TailHolds(i, c, v);
      TailLabel(i, c);
    }
    ChainHoldsLabel(Tail(i, c), Expand(t.next, neg), !neg, v);
  }

  lemma {:induction false} LeftHolds(t: Tree, neg: bool, v: Valuation, W: set<Filter>)
    requires Negatable(t, neg) && Undoubled(t) && !Fails(t, neg) && Shape(t) && Distinct(t) && Signs(t, neg, v, W)
    ensures ListHolds(Expand(t, neg), v) <==> ListLeft(t, neg, W)
    ensures ChainHolds(Expand(t, neg), v) <==> ChainLeft(t, neg, W)
  {
    if t.Cons? {
      PartsNegatable(t, neg);
      SignParts(t, neg, v, W);
      LeftHolds(t.inner, neg != t.kind.NegKind?, v, W);
      LeftHolds(t.child, neg, v, W);
      LeftHolds(t.next, neg, v, W);
      ExpandNil(t, neg);
      LeftStep(t, neg, W);
      HoldsStep(Expand(t, neg), v);
      if t.kind.NegKind? {
        NegationLeft(t, neg, v, W);
      }
    }
  }

  // ----- when the meaning is kept -----

  /** A conjunction of two or more specifiers stands under an odd number of negations, groups being
      lists of their own. */
  ghost predicate Conjoins<N>(t: TreeOf<N>, neg: bool) {
    t.Cons? &&
    (|| (neg && t.child.Cons?) || Conjoins(t.child, neg) || Conjoins(t.next, neg)
     || match t.kind
        case SiblingsKind => Conjoins(t.inner, neg)
        case NegKind => Conjoins(t.inner, !neg)
        case _ => false)
  }

  /** A list as one is met under `neg`: not empty, and of one member if `neg`. */
  ghost predicate Met(t: Tree, neg: bool) {
    Grammatical(t) && !GivesUp(t, neg) && Shape(t) && Distinct(t) && t.Cons? && (neg ==> t.next.Nil?)
  }

  lemma InnerMet(t: Tree, neg: bool)
    requires Met(t, neg) && (t.kind.SiblingsKind? || t.kind.NegKind?)
    ensures Met(t.inner, neg != t.kind.NegKind?)
  {
  }

  lemma {:induction false} LeftIsWas(t: Tree, neg: bool, W: set<Filter>)
    requires Met(t, neg) && !Conjoins(t, neg)
    ensures ListLeft(t, neg, W) == ListWas(t, neg, W) && ChainLeft(t, neg, W) == ChainWas(t, neg, W)
  {
    WasStep(t, neg, W);
    LeftStep(t, neg, W);
    if t.kind.SiblingsKind? || t.kind.NegKind? {
      InnerMet(t, neg);
      LeftIsWas(t.inner, neg != t.kind.NegKind?, W);
    }
    if t.child.Cons? {
      LeftIsWas(t.child, neg, W);
    }
    if t.next.Cons? {
      LeftIsWas(t.next, neg, W);
    }
  }

  /** If all leaves of a list hold, it holds, and if none does, it does not. */
  lemma {:induction false} AllOrNone(t: Tree, neg: bool, W: set<Filter>)
    requires Met(t, neg)
    ensures Nodes(t) <= W ==> ListLeft(t, neg, W) && ListWas(t, neg, W) && ChainLeft(t, neg, W) && ChainWas(t, neg, W)
    ensures Nodes(t) !! W
        ==> !ListLeft(t, neg, W) && !ListWas(t, neg, W) && !ChainLeft(t, neg, W) && !ChainWas(t, neg, W)
  {
    assert t.node in Nodes(t);
    WasStep(t, neg, W);
    LeftStep(t, neg, W);
    if t.kind.SiblingsKind? || t.kind.NegKind? {
      InnerMet(t, neg);
      AllOrNone(t.inner, neg != t.kind.NegKind?, W);
    }
    if t.child.Cons? {
      AllOrNone(t.child, neg, W);
    }
    if t.next.Cons? {
      AllOrNone(t.next, neg, W);
    }
  }

  lemma SameMembers(W: set<Filter>, W': set<Filter>, A: set<Filter>, B: set<Filter>)
    requires W * A == W' * A && B <= A
    ensures W * B == W' * B && forall n | n in B :: n in W <==> n in W'
  {
    forall n | n in B ensures n in W <==> n in W' {
      assert n in W * A <==> n in W' * A;
    }
  }

  lemma {:induction false} OnlyNodes(t: Tree, neg: bool, W: set<Filter>, W': set<Filter>)
    requires W * Nodes(t) == W' * Nodes(t)
    ensures ListLeft(t, neg, W) == ListLeft(t, neg, W') && ListWas(t, neg, W) == ListWas(t, neg, W')
    ensures ChainLeft(t, neg, W) == ChainLeft(t, neg, W') && ChainWas(t, neg, W) == ChainWas(t, neg, W')
  {
    if t.Cons? {
      WasStep(t, neg, W);
      WasStep(t, neg, W');
      LeftStep(t, neg, W);
      LeftStep(t, neg, W');
      assert t.node in Nodes(t);
      SameMembers(W, W', Nodes(t), Nodes(t.inner));
      SameMembers(W, W', Nodes(t), Nodes(t.child));
      SameMembers(W, W', Nodes(t), Nodes(t.next));
      SameMembers(W, W', Nodes(t), {t.node});
      OnlyNodes(t.inner, neg != t.kind.NegKind?, W, W');
      OnlyNodes(t.child, neg, W, W');
      OnlyNodes(t.next, neg, W, W');
    }
  }

  /** Leaves on which a filter with a negated conjunction holds and its expansion does not. */
  ghost predicate Tells(t: Tree, neg: bool, W: set<Filter>) {
    W <= Nodes(t) && ListWas(t, neg, W) && !ListLeft(t, neg, W)
  }

  lemma HeadAllOrNone(t: Tree, neg: bool, W: set<Filter>)
    requires Met(t, neg)
    ensures Nodes(t.inner) + {t.node} <= W ==> HeadLeft(t, neg, W) && HeadWas(t, neg, W)
    ensures Nodes(t.inner) + {t.node} !! W ==> !HeadLeft(t, neg, W) && !HeadWas(t, neg, W)
  {
    if t.kind.SiblingsKind? || t.kind.NegKind? {
      InnerMet(t, neg);
      AllOrNone(t.inner, neg != t.kind.NegKind?, W);
    } else {
      assert t.node in {t.node};
    }
  }

  /** The rest of the list, if there is any, does not hold. */
  lemma RestNone(t: Tree, neg: bool, W: set<Filter>)
    requires Met(t, neg) && W !! Nodes(t.next)
    ensures ListWas(t, neg, W) == ChainWas(t, neg, W) && ListLeft(t, neg, W) == ChainLeft(t, neg, W)
  {
    WasStep(t, neg, W);
    LeftStep(t, neg, W);
    if t.next.Cons? {
      AllOrNone(t.next, neg, W);
    }
  }

  /** The conjunction that is negated is this one. */
  lemma TellsHere(t: Tree)
    requires Met(t, true) && t.child.Cons?
    ensures Tells(t, true, Nodes(t.child))
  {
    var W := Nodes(t.child);
    RestNone(t, true, W);
    WasStep(t, true, W);
    LeftStep(t, true, W);
    HeadAllOrNone(t, true, W);
    AllOrNone(t.child, true, W);
  }

  /** It is further down the chain. */
  lemma TellsChild(t: Tree, W: set<Filter>)
    requires Met(t, false) && t.child.Cons? && Tells(t.child, false, W)
    ensures Tells(t, false, W + Nodes(t.inner) + {t.node})
  {
    var W' := W + Nodes(t.inner) + {t.node};
    assert W' * Nodes(t.child) == W == W * Nodes(t.child);
    OnlyNodes(t.child, false, W, W');
    WasStep(t, false, W');
    LeftStep(t, false, W');
    WasStep(t.child, false, W');
    LeftStep(t.child, false, W');
    HeadAllOrNone(t, false, W');
    RestNone(t, false, W');
  }

  /** It is inside the node. */
  lemma TellsInner(t: Tree, neg: bool, W: set<Filter>)
    requires Met(t, neg) && (t.kind.SiblingsKind? || t.kind.NegKind?) && Tells(t.inner, neg != t.kind.NegKind?, W)
        && (neg ==> t.child.Nil?)
    ensures Tells(t, neg, W + Nodes(t.child))
  {
    var W' := W + Nodes(t.child);
    assert W' * Nodes(t.inner) == W == W * Nodes(t.inner);
    OnlyNodes(t.inner, neg != t.kind.NegKind?, W, W');
    WasStep(t, neg, W');
    LeftStep(t, neg, W');
    if t.child.Cons? {
      AllOrNone(t.child, neg, W');
    }
    RestNone(t, neg, W');
  }

  lemma TellsNext(t: Tree, W: set<Filter>)
    requires Met(t, false) && t.next.Cons? && Tells(t.next, false, W)
    ensures Tells(t, false, W)
  {
    WasStep(t, false, W);
    LeftStep(t, false, W);
    HeadAllOrNone(t, false, W);
  }

  /** Where a conjunction is negated, some leaves tell the filter from its expansion. */
  lemma {:induction false} SomeTell(t: Tree, neg: bool) returns (W: set<Filter>)
    requires Met(t, neg) && Conjoins(t, neg)
    ensures Tells(t, neg, W)
  {
    if neg && t.child.Cons? {
      W := Nodes(t.child);
      TellsHere(t);
    } else if Conjoins(t.next, neg) {
      W := SomeTell(t.next, neg);
      TellsNext(t, W);
    } else if Conjoins(t.child, neg) {
      W := SomeTell(t.child, neg);
      TellsChild(t, W);
      W := W + Nodes(t.inner) + {t.node};
    } else {
      InnerMet(t, neg);
      W := SomeTell(t.inner, neg != t.kind.NegKind?);
      TellsInner(t, neg, W);
      W := W + Nodes(t.child);
    }
  }

  ghost function SignSet(t: Tree, neg: bool, v: Valuation): set<Filter> {
    set n | n in Nodes(t) && v(n) != Parity(t, neg, n)
  }

  lemma KeepsAt(t: Tree, v: Valuation)
    requires Negatable(t, false) && Undoubled(t) && Met(t, false) && !Fails(t, false) && Unsigned(t)
    ensures !Conjoins(t, false) ==> (ListHolds(Expand(t, false), v) <==> ListHolds(t, v))
  {
    var W := SignSet(t, false, v);
    assert Signs(t, false, v, W);
    WasHolds(t, false, v, W);
    LeftHolds(t, false, v, W);
    if !Conjoins(t, false) {
      LeftIsWas(t, false, W);
    }
  }

  lemma LosesAt(t: Tree) returns (v: Valuation)
    requires Negatable(t, false) && Undoubled(t) && Met(t, false) && !Fails(t, false) && Unsigned(t)
    requires Conjoins(t, false)
    ensures ListHolds(t, v) && !ListHolds(Expand(t, false), v)
  {
    var W := SomeTell(t, false);
    v := (n: Filter) => (n in W) != Parity(t, false, n);
    assert Signs(t, false, v, W);
    WasHolds(t, false, v, W);
    LeftHolds(t, false, v, W);
  }

  /** Expanding the negations keeps the meaning if and only if no conjunction of several specifiers is
      negated (an odd number of times). */
  lemma KeepsMeaning(t: Tree)
    requires Negatable(t, false) && Undoubled(t) && !Fails(t, false) && Shape(t) && Unsigned(t) && Distinct(t)
    ensures (forall v: Valuation :: ListHolds(Expand(t, false), v) <==> ListHolds(t, v)) <==> !Conjoins(t, false)
  {
    if t.Cons? {
      if Conjoins(t, false) {
        var v := LosesAt(t);
      } else {
        forall v: Valuation ensures ListHolds(Expand(t, false), v) <==> ListHolds(t, v) {
          KeepsAt(t, v);
        }
      }
    }
  }

  // ----- a negation directly inside a negation -----

  /** The grammar cannot produce it; the pass would leave its leaf negated although the two cancel. */
  lemma DoubleNegation(f: Filter, h: Filter, a: Filter, x: Spec, v: Valuation)
    requires v(a)
    ensures var t := Cons(f, NegKind, false,
                          Cons(h, NegKind, false, Cons(a, LeafKind(x), false, Nil, Nil, Nil), Nil, Nil), Nil, Nil);
            Negatable(t, false) && !Undoubled(t) && !Fails(t, false) && ListHolds(t, v)
                && !ListHolds(Expand(t, false), v)
  {
    var ca := Cons(a, LeafKind(x), false, Nil, Nil, Nil);
    var ch := Cons(h, NegKind, false, ca, Nil, Nil);
    var t := Cons(f, NegKind, false, ch, Nil, Nil);
    OneLeaf(a, x, false, v);
    OneLeaf(a, x, true, v);
    InNegation(h, ca, true, v);
    InNegation(f, ch, false, v);
    assert Expand(t, false) == ca.(negate := true);
  }

  lemma OneLeaf(a: Filter, x: Spec, neg: bool, v: Valuation)
    ensures var l := Cons(a, LeafKind(x), neg, Nil, Nil, Nil);
            && (ListHolds(l, v) <==> v(a) != neg) && Expand(l, false) == l.(negate := false)
            && Negatable(l, true) && Negatable(l, false) && !Fails(l, true) && !Fails(l, false)
  {
    var l := Cons(a, LeafKind(x), neg, Nil, Nil, Nil);
    ListOfOne(l, v);
    assert ChainHolds(l.child, v);
    assert !GivesUp(l.child, true) && !GivesUp(l.child, false) && !Jams(l.child);
  }

  /** A negation that holds `t` and does not go on. */
  lemma InNegation(f: Filter, t: Tree, neg: bool, v: Valuation)
    requires t.Cons? && t.next.Nil? && t.child.Nil?
    ensures var u := Cons(f, NegKind, false, t, Nil, Nil);
            && (ListHolds(u, v) <==> !ListHolds(t, v))
            && (Expand(t, !neg).Cons? ==> Expand(u, neg) == Expand(t, !neg).(next := Nil, negate := !neg))
            && (Negatable(t, !neg) ==> Negatable(u, neg)) && (!Fails(t, !neg) ==> !Fails(u, neg))
  {
    var u := Cons(f, NegKind, false, t, Nil, Nil);
    ListOfOne(u, v);
    assert ChainHolds(u.child, v);
    assert !GivesUp(u.child, neg) && !Jams(u.child) && Negatable(u.child, neg);
    assert Tail(Expand(t, !neg), Expand(u.child, neg)) == Expand(t, !neg);
  }
}
