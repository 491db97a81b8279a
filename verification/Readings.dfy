/** What a filter tree says, as the ordered list of its alternatives, each a list of signed
    specifiers; and what the passes do to it. */
module Readings {
  import opened FilterSpec
  import opened FilterEntry
  import opened EntryOrder
  import opened FilterGraph
  import opened FilterTree
  import opened FilterNegation
  import opened FilterPasses

  type Alternative = seq<Literal>

  /** The alternatives of the chain of `t`'s first node; a specifier's sign is the parity of the
      negations around it, `neg` counting those outside. */
  ghost function ChainReads<N>(t: TreeOf<N>, neg: bool): seq<Alternative>
    decreases t, 1
  {
    if t.Nil? then [[]] else Cross(HeadReads(t, neg), ChainReads(t.child, neg))
  }

  ghost function HeadReads<N>(t: TreeOf<N>, neg: bool): seq<Alternative>
    requires t.Cons?
    decreases t, 0
  {
    match t.kind
    case LeafKind(s) => [[Literal(s, neg != t.negate)]]
    case NegKind => ListReads(t.inner, !neg)
    case _ => ListReads(t.inner, neg)
  }

  /** The alternatives of a whole list, in source order. */
  ghost function ListReads<N>(t: TreeOf<N>, neg: bool): seq<Alternative>
    decreases t, 2
  {
    if t.Nil? then [] else ChainReads(t, neg) + ListReads(t.next, neg)
  }

  lemma ListOfOneReads<N>(t: TreeOf<N>, neg: bool)
    requires t.Cons? && t.next.Nil?
    ensures ListReads(t, neg) == ChainReads(t, neg)
  {
    assert ChainReads(t, neg) + [] == ChainReads(t, neg);
  }

  lemma ChainOfOneReads<N>(t: TreeOf<N>, neg: bool)
    requires t.Cons? && t.child.Nil?
    ensures ChainReads(t, neg) == HeadReads(t, neg)
  {
    CrossUnit(HeadReads(t, neg));
  }

  lemma SameReads<N>(t: TreeOf<N>, u: TreeOf<N>, neg: bool)
    requires t.Cons? && u.Cons? && t.kind == u.kind && t.negate == u.negate && t.inner == u.inner && t.child == u.child
    ensures ChainReads(t, neg) == ChainReads(u, neg)
  {
  }

  // ----- expanding negations -----

  lemma {:induction false} TailReads<N>(i: TreeOf<N>, c: TreeOf<N>)
    requires OneEnd(i)
    ensures ChainReads(Tail(i, c), false) == Cross(ChainReads(i, false), ChainReads(c, false))
    ensures Tail(i, c).Cons? && Tail(i, c).next == i.next && Tail(i, c).kind == i.kind && Tail(i, c).negate == i.negate
  {
    if c.Nil? {
      CrossUnit(ChainReads(i, false));
    } else if i.child.Cons? {
      TailReads(i.child, c);
      CrossAssoc(HeadReads(i, false), ChainReads(i.child, false), ChainReads(c, false));
    } else {
      ChainOfOneReads(i, false);
      if i.kind.SiblingsKind? {
        TailReads(i.inner, c);
        ListOfOneReads(i.inner, false);
        ListOfOneReads(Tail(i.inner, c), false);
        ChainOfOneReads(Tail(i, c), false);
      }
    }
  }

  lemma Relabelled<N>(r: TreeOf<N>, n: TreeOf<N>, neg: bool)
    requires r.Cons? && r.negate == neg
    ensures ChainReads(r.(next := n, negate := neg), false) == ChainReads(r, false)
  {
  }

  lemma NegationReads<N>(t: TreeOf<N>, neg: bool)
    requires t.Cons? && t.kind.NegKind? && Negatable(t, neg) && Undoubled(t) && !Fails(t, neg) && Shape(t)
    requires ListReads(Expand(t.inner, !neg), false) == ListReads(t.inner, !neg)
    requires ChainReads(Expand(t.child, neg), false) == ChainReads(t.child, neg)
    ensures Expand(t, neg).Cons? && Expand(t, neg).next == Expand(t.next, neg)
    ensures ChainReads(Expand(t, neg), false) == ChainReads(t, neg)
  {
    var i, c := Expand(t.inner, !neg), Expand(t.child, neg);
    ExpandNil(t.inner, !neg);
    ExpandNil(t.child, neg);
    ListOfOneReads(i, false);
    CrossUnit(ChainReads(i, false));
    if t.child.Cons? {
      HeldEnds(t, neg);
      TailReads(i, c);
    }
    Relabelled(Tail(i, c), Expand(t.next, neg), !neg);
    assert Expand(t, neg) == Tail(i, c).(next := Expand(t.next, neg), negate := !neg);
  }

  lemma NodeReads<N>(t: TreeOf<N>, neg: bool)
    requires t.Cons? && !t.kind.NegKind? && !t.negate
    requires ListReads(Expand(t.inner, neg), false) == ListReads(t.inner, neg)
    requires ChainReads(Expand(t.child, neg), false) == ChainReads(t.child, neg)
    ensures ChainReads(Expand(t, neg), false) == ChainReads(t, neg)
  {
    assert HeadReads(Expand(t, neg), false) == HeadReads(t, neg);
  }

  /** Expanding the negations does not change the alternatives of the filter and their signs. */
  lemma {:induction false} ExpandReads<N>(t: TreeOf<N>, neg: bool)
    requires Negatable(t, neg) && Undoubled(t) && !Fails(t, neg) && Shape(t) && Unsigned(t)
    ensures ListReads(Expand(t, neg), false) == ListReads(t, neg)
    ensures ChainReads(Expand(t, neg), false) == ChainReads(t, neg)
  {
    if t.Cons? {
      PartsNegatable(t, neg);
      ExpandReads(t.child, neg);
      ExpandReads(t.next, neg);
      ExpandReads(t.inner, neg != t.kind.NegKind?);
      if t.kind.NegKind? {
        NegationReads(t, neg);
      } else {
        NodeReads(t, neg);
      }
    }
  }

  // ----- inlining groups -----

  /** A group says what its list says. */
  lemma {:induction false} UngroupReads<N>(t: TreeOf<N>, neg: bool)
    ensures ListReads(Ungroup(t), neg) == ListReads(t, neg)
    ensures ChainReads(Ungroup(t), neg) == ChainReads(t, neg)
  {
    if t.Cons? {
      UngroupReads(t.inner, neg);
      UngroupReads(t.child, neg);
      UngroupReads(t.next, neg);
      assert HeadReads(Ungroup(t), neg) == HeadReads(t, neg);
      assert Ungroup(t).child == Ungroup(t.child) && Ungroup(t).next == Ungroup(t.next);
    }
  }

  // ----- targets to the end -----

  /** `a` with its member at `i` moved to the end. */
  ghost function Move(a: Alternative, i: nat): Alternative
    requires i < |a|
  {
    a[..i] + (a[i+1..] + [a[i]])
  }

  /** `b` is `a`, or `a` with one target moved to its end. */
  ghost predicate Moved(a: Alternative, b: Alternative) {
    a == b || exists i :: 0 <= i < |a| && a[i].spec.TargetSpec? && b == Move(a, i)
  }

  ghost predicate AllMoved(xs: seq<Alternative>, ys: seq<Alternative>) {
    |xs| == |ys| && forall i | 0 <= i < |xs| :: Moved(xs[i], ys[i])
  }

  lemma MoveBehind(x: Alternative, a: Alternative, i: nat)
    requires i < |a|
    ensures Move(x + a, |x| + i) == x + Move(a, i)
  {
    assert (x + a)[..|x| + i] == x + a[..i];
    assert (x + a)[|x| + i + 1..] == a[i+1..];
    SeqAssoc(x, a[..i], a[i+1..] + [a[i]]);
  }

  lemma MovedBehind(x: Alternative, a: Alternative, b: Alternative)
    requires Moved(a, b)
    ensures Moved(x + a, x + b)
  {
    if a != b {
      var i :| 0 <= i < |a| && a[i].spec.TargetSpec? && b == Move(a, i);
      MoveBehind(x, a, i);
      assert (x + a)[|x| + i] == a[i];
    }
  }

  lemma {:induction false} CrossMoved(xs: seq<Alternative>, ys: seq<Alternative>, ys': seq<Alternative>)
    requires AllMoved(ys, ys')
    ensures AllMoved(Cross(xs, ys), Cross(xs, ys'))
  {
    if xs != [] {
      CrossMoved(xs[1..], ys, ys');
      forall i | 0 <= i < |ys| ensures Moved(xs[0] + ys[i], xs[0] + ys'[i]) {
        MovedBehind(xs[0], ys[i], ys'[i]);
      }
    }
  }

  lemma {:induction false} CrossLast(xs: seq<Alternative>, l: Literal)
    ensures |Cross(xs, [[l]])| == |xs| && forall i | 0 <= i < |xs| :: Cross(xs, [[l]])[i] == xs[i] + [l]
  {
    if xs != [] {
      CrossLast(xs[1..], l);
    }
  }

  lemma {:induction false} ConcatReads<N>(c: TreeOf<N>, d: TreeOf<N>, neg: bool)
    ensures ChainReads(Concat(c, d), neg) == Cross(ChainReads(c, neg), ChainReads(d, neg))
    ensures c.Cons? ==> Concat(c, d).Cons? && Concat(c, d).next == c.next
  {
    if c.Nil? {
      CrossNil(ChainReads(d, neg));
    } else {
      ConcatReads(c.child, d, neg);
      CrossAssoc(HeadReads(c, neg), ChainReads(c.child, neg), ChainReads(d, neg));
    }
  }

  lemma MovedFirst(l: Literal, x: Alternative)
    requires l.spec.TargetSpec?
    ensures Moved([l] + x, x + [l])
  {
    var a := [l] + x;
    assert a[0] == l && a[1..] == x;
    assert Move(a, 0) == x + [l];
  }

  lemma {:induction false} ChainMoved<N>(t: TreeOf<N>, neg: bool)
    ensures AllMoved(ChainReads(t, neg), ChainReads(ToEnd(t), neg))
  {
    if t.Cons? {
      if IsTarget(t) && t.child.Cons? {
        var d := t.(child := Nil);
        var l := Literal(t.kind.spec, neg != t.negate);
        var xs := ChainReads(t.child, neg);
        ConcatReads(t.child, d, neg);
        CrossUnit([[l]]);
        CrossLast(xs, l);
        CrossOne(l, xs);
        forall i | 0 <= i < |xs| ensures Moved([l] + xs[i], xs[i] + [l]) {
          MovedFirst(l, xs[i]);
        }
      } else if !t.kind.SiblingsKind? {
        ChainMoved(t.child, neg);
        CrossMoved(HeadReads(t, neg), ChainReads(t.child, neg), ChainReads(ToEnd(t.child), neg));
      }
    }
  }

  /** The pass keeps the alternatives of the rules it keeps, in order, up to the place of a target. */
  lemma {:induction false} ListMoved<N>(t: TreeOf<N>, neg: bool)
    requires Shape(t)
    ensures AllMoved(ListReads(Kept(t), neg), ListReads(ToEnd(t), neg))
  {
    if t.Cons? {
      ChainMoved(t, neg);
      if IsTarget(t) && t.child.Cons? {
        ConcatReads(t.child, t.(child := Nil), neg);
        ListOfOneReads(ToEnd(t), neg);
        ListOfOneReads(Kept(t), neg);
        SameReads(Kept(t), t, neg);
      } else {
        ListMoved(t.next, neg);
        SameReads(Kept(t), t, neg);
      }
    }
  }

  // ----- a moved target does not change the entry -----

  lemma FoldStep(e: Entry, l: Literal, ls: Alternative)
    ensures Fold(e, [l] + ls) == match ApplyLiteral(e, l) case None => None case Some(e') => Fold(e', ls)
  {
    assert ([l] + ls)[0] == l && ([l] + ls)[1..] == ls;
  }

  /** Two neighbours, one of them a target. */
  lemma FoldSwap(e: Entry, l: Literal, m: Literal, ls: Alternative)
    requires l.spec.TargetSpec?
    ensures Fold(e, [l] + ([m] + ls)) == Fold(e, [m] + ([l] + ls))
  {
    FoldStep(e, l, [m] + ls);
    FoldStep(e, m, [l] + ls);
    if ApplyLiteral(e, l).Some? {
      FoldStep(ApplyLiteral(e, l).value, m, ls);
    }
    if ApplyLiteral(e, m).Some? {
      FoldStep(ApplyLiteral(e, m).value, l, ls);
    }
    ApplySwap(e, l, m);
  }

  function Apply2(e: Entry, l: Literal, m: Literal): Option<Entry> {
    match ApplyLiteral(e, l) case None => None case Some(e') => ApplyLiteral(e', m)
  }

  lemma ApplySwap(e: Entry, l: Literal, m: Literal)
    requires l.spec.TargetSpec?
    ensures Apply2(e, l, m) == Apply2(e, m, l)
  {
    if !m.spec.TargetSpec? {
      PutCommutes(e, l, m);
    }
  }

  lemma {:induction false} FoldToEnd(e: Entry, l: Literal, y: Alternative)
    requires l.spec.TargetSpec?
    ensures Fold(e, [l] + y) == Fold(e, y + [l])
    decreases |y|
  {
    if y == [] {
      assert [l] + y == y + [l];
    } else {
      var ls := y[1..];
      assert y == [y[0]] + ls && y + [l] == [y[0]] + (ls + [l]);
      assert [l] + y == [l] + ([y[0]] + ls);
      FoldSwap(e, l, y[0], ls);
      FoldStep(e, y[0], [l] + ls);
      FoldStep(e, y[0], ls + [l]);
      if ApplyLiteral(e, y[0]).Some? {
        FoldToEnd(ApplyLiteral(e, y[0]).value, l, ls);
      }
    }
  }

  lemma {:induction false} FoldBehind(e: Entry, x: Alternative, a: Alternative, b: Alternative)
    requires forall d :: Fold(d, a) == Fold(d, b)
    ensures Fold(e, x + a) == Fold(e, x + b)
    decreases |x|
  {
    if x == [] {
      assert x + a == a && x + b == b;
    } else {
      assert x + a == [x[0]] + (x[1..] + a) && x + b == [x[0]] + (x[1..] + b);
      FoldStep(e, x[0], x[1..] + a);
      FoldStep(e, x[0], x[1..] + b);
      if ApplyLiteral(e, x[0]).Some? {
        FoldBehind(ApplyLiteral(e, x[0]).value, x[1..], a, b);
      }
    }
  }

  /** Moving a target to the end of an alternative changes nothing about the entry it gives. */
  lemma FoldMoved(e: Entry, a: Alternative, b: Alternative)
    requires Moved(a, b)
    ensures Fold(e, a) == Fold(e, b)
  {
    if a != b {
      var i :| 0 <= i < |a| && a[i].spec.TargetSpec? && b == Move(a, i);
      var y := a[i+1..];
      forall d ensures Fold(d, [a[i]] + y) == Fold(d, y + [a[i]]) {
        FoldToEnd(d, a[i], y);
      }
      assert a == a[..i] + ([a[i]] + y);
      FoldBehind(e, a[..i], [a[i]] + y, y + [a[i]]);
    }
  }
}
