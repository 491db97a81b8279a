/** What alternatives say about one packet, and why first match cannot tell a group that is one
    condition from the group's alternatives one after the other. */
module GroupValues {
  import opened FilterSpec
  import opened FilterEntry
  import opened FilterGraph
  import opened FilterTree
  import opened Readings
  import opened Netfilter
  import opened SourceVerdicts

  /** No negations, and exactly the leaves are empty inside. */
  ghost predicate Full<N>(t: TreeOf<N>) {
    t.Cons? ==> !t.kind.NegKind? && (t.inner.Nil? <==> t.kind.LeafKind?) && Full(t.inner) && Full(t.child)
                && Full(t.next)
  }

  // ----- values of alternatives -----

  /** One packet, as a packet of direction `d` that is forwarded if `fwd`. */
  datatype View = View(d: Direction, fwd: bool, p: Packet, env: Env)

  /** None for an alternative that does not describe the packet, otherwise its target if it has one. */
  type Val = Option<Option<Target>>

  function Along(a: Val, b: Val): Val {
    if a.None? || b.None? then None else Some(if a.value.Some? then a.value else b.value)
  }

  function Besides(a: Val, b: Val): Val {
    if a.Some? then a else b
  }

  function Barred(w: View): RoutingType {
    if w.fwd then LocalOnly else RoutedOnly
  }

  /** What an alternative, or the part of one inside or outside a group, says about the packet. */
  function AltVal(a: Alternative, fl: Flags, w: View): Val {
    if (DirectionOf(a).Some? ==> DirectionOf(a) == Some(w.d)) && Routing(a, fl) != Some(Barred(w))
        && AlternativeHolds(a, w.p, w.env)
    then Some(TargetIn(a))
    else None
  }

  /** The value of the first alternative that describes the packet. */
  function FirstVal(xs: seq<Alternative>, fl: Flags, w: View): Val {
    if xs == [] then None else Besides(AltVal(xs[0], fl, w), FirstVal(xs[1..], fl, w))
  }

  // ----- alternatives that pass a group -----

  /** An alternative's specifiers outside groups, and the value of the group it passes, if any. */
  datatype Pair = Pair(outer: Alternative, group: Option<Val>)

  function Beyond(x: Pair, y: Pair): Pair {
    Pair(x.outer + y.outer, if x.group.Some? then x.group else y.group)
  }

  function Extend(x: Pair, ys: seq<Pair>): (r: seq<Pair>)
    ensures |r| == |ys| && forall i | 0 <= i < |ys| :: r[i] == Beyond(x, ys[i])
  {
    seq(|ys|, i requires 0 <= i < |ys| => Beyond(x, ys[i]))
  }

  function CrossPairs(xs: seq<Pair>, ys: seq<Pair>): seq<Pair> {
    if xs == [] then [] else Extend(xs[0], ys) + CrossPairs(xs[1..], ys)
  }

  type Weigh = Alternative -> Val

  /** The value of a pair, where `h0` and `h` weigh what is outside of groups without and with one. */
  function PairVal(x: Pair, h0: Weigh, h: Weigh): Val {
    if x.group.None? then h0(x.outer) else Along(h(x.outer), x.group.value)
  }

  function FirstPair(xs: seq<Pair>, h0: Weigh, h: Weigh): Val {
    if xs == [] then None else Besides(PairVal(xs[0], h0, h), FirstPair(xs[1..], h0, h))
  }

  /** No difference can be told by first match, whatever stands before and behind. */
  ghost predicate Alike(xs: seq<Pair>, ys: seq<Pair>) {
    forall h0: Weigh, h: Weigh :: FirstPair(xs, h0, h) == FirstPair(ys, h0, h)
  }

  predicate NoGroups(xs: seq<Pair>) {
    xs != [] ==> xs[0].group.None? && NoGroups(xs[1..])
  }

  function After1(a: Alternative, h: Weigh): Weigh { b => h(a + b) }

  /** What follows, weighed as one. */
  function Rest0(ys: seq<Pair>, h0: Weigh, h: Weigh): Weigh { a => FirstPair(ys, After1(a, h0), After1(a, h)) }

  function FirstOuter(ys: seq<Pair>, h: Weigh): Val {
    if ys == [] then None else Besides(h(ys[0].outer), FirstOuter(ys[1..], h))
  }

  function Rest(ys: seq<Pair>, h: Weigh): Weigh { a => FirstOuter(ys, After1(a, h)) }

  lemma {:induction false} FirstPairAppend(xs: seq<Pair>, ys: seq<Pair>, h0: Weigh, h: Weigh)
    ensures FirstPair(xs + ys, h0, h) == Besides(FirstPair(xs, h0, h), FirstPair(ys, h0, h))
    decreases |xs|
  {
    if xs == [] {
      assert xs + ys == ys;
    } else {
      assert (xs + ys)[0] == xs[0] && (xs + ys)[1..] == xs[1..] + ys;
      FirstPairAppend(xs[1..], ys, h0, h);
    }
  }

  /** One pair in front of others. */
  lemma {:induction false} FirstExtend(x: Pair, ys: seq<Pair>, h0: Weigh, h: Weigh)
    ensures x.group.None? ==> FirstPair(Extend(x, ys), h0, h) == FirstPair(ys, After1(x.outer, h0), After1(x.outer, h))
    ensures x.group.Some?
        ==> FirstPair(Extend(x, ys), h0, h) == Along(FirstOuter(ys, After1(x.outer, h)), x.group.value)
    decreases |ys|
  {
    if ys != [] {
      FirstExtend(x, ys[1..], h0, h);
      assert Extend(x, ys)[1..] == Extend(x, ys[1..]);
    }
  }

  /** What follows can be weighed first. */
  lemma {:induction false} FirstBefore(xs: seq<Pair>, ys: seq<Pair>, h0: Weigh, h: Weigh)
    ensures FirstPair(CrossPairs(xs, ys), h0, h) == FirstPair(xs, Rest0(ys, h0, h), Rest(ys, h))
    decreases |xs|
  {
    if xs != [] {
      FirstBefore(xs[1..], ys, h0, h);
      FirstExtend(xs[0], ys, h0, h);
      FirstPairAppend(Extend(xs[0], ys), CrossPairs(xs[1..], ys), h0, h);
    }
  }

  lemma AlikeBefore(xs: seq<Pair>, xs': seq<Pair>, ys: seq<Pair>)
    requires Alike(xs, xs')
    ensures Alike(CrossPairs(xs, ys), CrossPairs(xs', ys))
  {
    forall h0: Weigh, h: Weigh ensures FirstPair(CrossPairs(xs, ys), h0, h) == FirstPair(CrossPairs(xs', ys), h0, h) {
      FirstBefore(xs, ys, h0, h);
      FirstBefore(xs', ys, h0, h);
      assert FirstPair(xs, Rest0(ys, h0, h), Rest(ys, h)) == FirstPair(xs', Rest0(ys, h0, h), Rest(ys, h));
    }
  }

  lemma {:induction false} AlikeBehind(xs: seq<Pair>, ys: seq<Pair>, ys': seq<Pair>)
    requires NoGroups(xs) && Alike(ys, ys')
    ensures Alike(CrossPairs(xs, ys), CrossPairs(xs, ys'))
    decreases |xs|
  {
    if xs != [] {
      AlikeBehind(xs[1..], ys, ys');
      forall h0: Weigh, h: Weigh ensures FirstPair(CrossPairs(xs, ys), h0, h) == FirstPair(CrossPairs(xs, ys'), h0, h) {
        FirstExtend(xs[0], ys, h0, h);
        FirstExtend(xs[0], ys', h0, h);
        FirstPairAppend(Extend(xs[0], ys), CrossPairs(xs[1..], ys), h0, h);
        FirstPairAppend(Extend(xs[0], ys'), CrossPairs(xs[1..], ys'), h0, h);
        var k0, k := After1(xs[0].outer, h0), After1(xs[0].outer, h);
        assert FirstPair(ys, k0, k) == FirstPair(ys', k0, k);
      }
    }
  }

  lemma AlikeAppend(xs: seq<Pair>, xs': seq<Pair>, ys: seq<Pair>, ys': seq<Pair>)
    requires Alike(xs, xs') && Alike(ys, ys')
    ensures Alike(xs + ys, xs' + ys')
  {
    forall h0: Weigh, h: Weigh ensures FirstPair(xs + ys, h0, h) == FirstPair(xs' + ys', h0, h) {
      FirstPairAppend(xs, ys, h0, h);
      FirstPairAppend(xs', ys', h0, h);
      assert FirstPair(xs, h0, h) == FirstPair(xs', h0, h) && FirstPair(ys, h0, h) == FirstPair(ys', h0, h);
    }
  }

  /** A group as one condition, and as its alternatives in turn. */
  function GroupPair(xs: seq<Alternative>, fl: Flags, w: View): seq<Pair> { [Pair([], Some(FirstVal(xs, fl, w)))] }

  function EachPair(xs: seq<Alternative>, fl: Flags, w: View): seq<Pair> {
    if xs == [] then [] else [Pair([], Some(AltVal(xs[0], fl, w)))] + EachPair(xs[1..], fl, w)
  }

  lemma {:induction false} EachFirst(xs: seq<Alternative>, fl: Flags, w: View, h0: Weigh, h: Weigh)
    ensures FirstPair(EachPair(xs, fl, w), h0, h) == Along(h([]), FirstVal(xs, fl, w))
    decreases |xs|
  {
    if xs != [] {
      EachFirst(xs[1..], fl, w, h0, h);
      var x := Pair([], Some(AltVal(xs[0], fl, w)));
      assert EachPair(xs, fl, w)[0] == x && EachPair(xs, fl, w)[1..] == EachPair(xs[1..], fl, w);
    }
  }

  lemma GroupAlike(xs: seq<Alternative>, fl: Flags, w: View)
    ensures Alike(GroupPair(xs, fl, w), EachPair(xs, fl, w))
  {
    forall h0: Weigh, h: Weigh ensures FirstPair(GroupPair(xs, fl, w), h0, h) == FirstPair(EachPair(xs, fl, w), h0, h) {
      EachFirst(xs, fl, w, h0, h);
      assert GroupPair(xs, fl, w)[1..] == [];
    }
  }

  // ----- the pairs of a tree -----

  /** The alternatives of a tree without negations, each group one condition, or its alternatives one
      after the other if `each`. */
  ghost function HeadPairs<N>(t: TreeOf<N>, each: bool, fl: Flags, w: View): seq<Pair>
    requires t.Cons?
    decreases t, 0
  {
    match t.kind
    case LeafKind(s) => [Pair([Literal(s, t.negate)], None)]
    case SubgroupKind(_) =>
      if each then EachPair(ListReads(t.inner, false), fl, w) else GroupPair(ListReads(t.inner, false), fl, w)
    case _ => ListPairs(t.inner, each, fl, w)
  }

  ghost function ChainPairs<N>(t: TreeOf<N>, each: bool, fl: Flags, w: View): seq<Pair>
    decreases t, 1
  {
    if t.Nil? then [Pair([], None)] else CrossPairs(HeadPairs(t, each, fl, w), ChainPairs(t.child, each, fl, w))
  }

  ghost function ListPairs<N>(t: TreeOf<N>, each: bool, fl: Flags, w: View): seq<Pair>
    decreases t, 2
  {
    if t.Nil? then [] else ChainPairs(t, each, fl, w) + ListPairs(t.next, each, fl, w)
  }

  /** Some chain of the list passes a group. */
  ghost predicate Grouping<N>(t: TreeOf<N>)
    decreases t, 1
  {
    t.Cons? && (GroupingHead(t) || Grouping(t.child) || Grouping(t.next))
  }

  ghost predicate GroupingHead<N>(t: TreeOf<N>)
    decreases t, 0
  {
    t.Cons? && (t.kind.SubgroupKind? || (t.kind.SiblingsKind? && Grouping(t.inner)))
  }

  /** No chain passes two groups. */
  ghost predicate OneGroupEach<N>(t: TreeOf<N>) {
    t.Cons? ==>
      && !(GroupingHead(t) && Grouping(t.child)) && (t.child.Cons? ==> t.child.next.Nil?)
      && (t.kind.SiblingsKind? ==> OneGroupEach(t.inner)) && OneGroupEach(t.child) && OneGroupEach(t.next)
  }

  lemma {:induction false} NoGroupsAppend(xs: seq<Pair>, ys: seq<Pair>)
    requires NoGroups(xs) && NoGroups(ys)
    ensures NoGroups(xs + ys)
    decreases |xs|
  {
    if xs == [] {
      assert xs + ys == ys;
    } else {
      assert (xs + ys)[0] == xs[0] && (xs + ys)[1..] == xs[1..] + ys;
      NoGroupsAppend(xs[1..], ys);
    }
  }

  lemma {:induction false} NoGroupsExtend(x: Pair, ys: seq<Pair>)
    requires x.group.None? && NoGroups(ys)
    ensures NoGroups(Extend(x, ys))
    decreases |ys|
  {
    if ys != [] {
      NoGroupsExtend(x, ys[1..]);
      assert Extend(x, ys)[1..] == Extend(x, ys[1..]);
    }
  }

  lemma {:induction false} NoGroupsCross(xs: seq<Pair>, ys: seq<Pair>)
    requires NoGroups(xs) && NoGroups(ys)
    ensures NoGroups(CrossPairs(xs, ys))
    decreases |xs|
  {
    if xs != [] {
      NoGroupsCross(xs[1..], ys);
      NoGroupsExtend(xs[0], ys);
      NoGroupsAppend(Extend(xs[0], ys), CrossPairs(xs[1..], ys));
    }
  }

  lemma HeadUngrouped<N>(t: TreeOf<N>, fl: Flags, w: View)
    requires t.Cons? && !GroupingHead(t) && !t.kind.NegKind?
    requires t.kind.SiblingsKind?
        ==> ListPairs(t.inner, true, fl, w) == ListPairs(t.inner, false, fl, w)
            && NoGroups(ListPairs(t.inner, false, fl, w))
    ensures HeadPairs(t, true, fl, w) == HeadPairs(t, false, fl, w) && NoGroups(HeadPairs(t, false, fl, w))
  {
    if t.kind.LeafKind? {
      var x := Pair([Literal(t.kind.spec, t.negate)], None);
      assert [x][1..] == [];
    }
  }

  /** Both readings of a part without groups are the same. */
  ghost predicate Idle(xs: seq<Pair>, ys: seq<Pair>) {
    xs == ys && NoGroups(ys)
  }

  lemma ChainUngrouped<N>(t: TreeOf<N>, fl: Flags, w: View)
    requires t.Cons? && Idle(HeadPairs(t, true, fl, w), HeadPairs(t, false, fl, w))
    requires Idle(ChainPairs(t.child, true, fl, w), ChainPairs(t.child, false, fl, w))
    ensures Idle(ChainPairs(t, true, fl, w), ChainPairs(t, false, fl, w))
  {
    NoGroupsCross(HeadPairs(t, false, fl, w), ChainPairs(t.child, false, fl, w));
  }

  lemma ListUngrouped<N>(t: TreeOf<N>, fl: Flags, w: View)
    requires t.Cons? && Idle(ChainPairs(t, true, fl, w), ChainPairs(t, false, fl, w))
    requires Idle(ListPairs(t.next, true, fl, w), ListPairs(t.next, false, fl, w))
    ensures Idle(ListPairs(t, true, fl, w), ListPairs(t, false, fl, w))
  {
    NoGroupsAppend(ChainPairs(t, false, fl, w), ListPairs(t.next, false, fl, w));
  }

  lemma NothingUngrouped<N>(t: TreeOf<N>, fl: Flags, w: View)
    requires t.Nil?
    ensures Idle(ChainPairs(t, true, fl, w), ChainPairs(t, false, fl, w))
    ensures Idle(ListPairs(t, true, fl, w), ListPairs(t, false, fl, w))
  {
    var x := Pair([], None);
    assert [x][1..] == [];
  }

  /** Where there are no groups there is nothing to tell. */
  lemma {:induction false} Ungrouped<N>(t: TreeOf<N>, fl: Flags, w: View)
    requires Full(t) && (t.Cons? ==> (t.child.Cons? ==> t.child.next.Nil?)) && OneGroupEach(t)
    ensures !Grouping(t) ==> Idle(ListPairs(t, true, fl, w), ListPairs(t, false, fl, w))
    ensures t.Nil? || (!GroupingHead(t) && !Grouping(t.child))
        ==> Idle(ChainPairs(t, true, fl, w), ChainPairs(t, false, fl, w))
    ensures t.Cons? && !GroupingHead(t) ==> Idle(HeadPairs(t, true, fl, w), HeadPairs(t, false, fl, w))
  {
    if t.Nil? {
      NothingUngrouped(t, fl, w);
    } else {
      if t.kind.SiblingsKind? {
        Ungrouped(t.inner, fl, w);
      }
      Ungrouped(t.child, fl, w);
      Ungrouped(t.next, fl, w);
      if !GroupingHead(t) {
        HeadUngrouped(t, fl, w);
        if !Grouping(t.child) {
          ChainUngrouped(t, fl, w);
          if !Grouping(t.next) {
            ListUngrouped(t, fl, w);
          }
        }
      }
    }
  }

  /** First match cannot tell a group from its alternatives in turn. */
  lemma {:induction false} PairsAlike<N>(t: TreeOf<N>, fl: Flags, w: View)
    requires Full(t) && OneGroupEach(t)
    ensures Alike(ListPairs(t, false, fl, w), ListPairs(t, true, fl, w))
    ensures Alike(ChainPairs(t, false, fl, w), ChainPairs(t, true, fl, w))
  {
    if t.Cons? {
      PairsAlike(t.child, fl, w);
      PairsAlike(t.next, fl, w);
      var h, h', c, c' := HeadPairs(t, false, fl, w), HeadPairs(t, true, fl, w), ChainPairs(t.child, false, fl, w),
          ChainPairs(t.child, true, fl, w);
      if GroupingHead(t) {
        if t.kind.SiblingsKind? {
          PairsAlike(t.inner, fl, w);
        } else {
          GroupAlike(ListReads(t.inner, false), fl, w);
        }
        Ungrouped(t.child, fl, w);
        assert c == c' by {
          assert t.child.Cons? ==> !GroupingHead(t.child) && !Grouping(t.child.child);
        }
        AlikeBefore(h, h', c);
      } else {
        Ungrouped(t, fl, w);
        AlikeBehind(h, c, c');
      }
      AlikeAppend(ChainPairs(t, false, fl, w), ChainPairs(t, true, fl, w), ListPairs(t.next, false, fl, w),
                  ListPairs(t.next, true, fl, w));
    }
  }

  // ----- alternatives taken apart at their group -----

  /** What stands before a group, inside it and behind it; without a group everything stands before. */
  datatype Split = Split(pre: Alternative, inner: Option<Alternative>, post: Alternative)

  function Inside(s: Split): Alternative { if s.inner.Some? then s.inner.value else [] }

  function Outside(s: Split): Alternative { s.pre + s.post }

  function Joined(s: Split): Alternative { s.pre + Inside(s) + s.post }

  function Compose(x: Split, y: Split): Split {
    if x.inner.None? then Split(x.pre + y.pre, y.inner, y.post) else Split(x.pre, x.inner, x.post + Joined(y))
  }

  function ComposeAll(x: Split, ys: seq<Split>): (r: seq<Split>)
    ensures |r| == |ys| && forall i | 0 <= i < |ys| :: r[i] == Compose(x, ys[i])
  {
    seq(|ys|, i requires 0 <= i < |ys| => Compose(x, ys[i]))
  }

  function CrossSplits(xs: seq<Split>, ys: seq<Split>): seq<Split> {
    if xs == [] then [] else ComposeAll(xs[0], ys) + CrossSplits(xs[1..], ys)
  }

  function EachSplit(xs: seq<Alternative>): seq<Split> {
    if xs == [] then [] else [Split([], Some(xs[0]), [])] + EachSplit(xs[1..])
  }

  ghost function HeadSplits<N>(t: TreeOf<N>): seq<Split>
    requires t.Cons?
    decreases t, 0
  {
    match t.kind
    case LeafKind(s) => [Split([Literal(s, t.negate)], None, [])]
    case SubgroupKind(_) => EachSplit(ListReads(t.inner, false))
    case _ => ListSplits(t.inner)
  }

  ghost function ChainSplits<N>(t: TreeOf<N>): seq<Split>
    decreases t, 1
  {
    if t.Nil? then [Split([], None, [])] else CrossSplits(HeadSplits(t), ChainSplits(t.child))
  }

  /** The alternatives of a list, in the order of its reading, taken apart at its groups. */
  ghost function ListSplits<N>(t: TreeOf<N>): seq<Split>
    decreases t, 2
  {
    if t.Nil? then [] else ChainSplits(t) + ListSplits(t.next)
  }

  ghost function PairOf(s: Split, fl: Flags, w: View): Pair {
    Pair(Outside(s), if s.inner.None? then None else Some(AltVal(s.inner.value, fl, w)))
  }

  /** The splits `ss` are the alternatives `xs` and the pairs `ps`; only if `grouping` may they pass groups. */
  ghost predicate Stand(ss: seq<Split>, xs: seq<Alternative>, ps: seq<Pair>, grouping: bool, fl: Flags, w: View) {
    && |ss| == |xs| == |ps|
    && forall i | 0 <= i < |ss| ::
         Joined(ss[i]) == xs[i] && PairOf(ss[i], fl, w) == ps[i] && (ss[i].inner.None? ==> ss[i].post == [])
             && (!grouping ==> ss[i].inner.None?)
  }

  lemma ComposeStands(x: Split, y: Split, fl: Flags, w: View)
    requires (x.inner.None? ==> x.post == []) && (y.inner.None? ==> y.post == []) && (x.inner.None? || y.inner.None?)
    ensures Joined(Compose(x, y)) == Joined(x) + Joined(y)
    ensures PairOf(Compose(x, y), fl, w) == Beyond(PairOf(x, fl, w), PairOf(y, fl, w))
    ensures Compose(x, y).inner.None? ==> Compose(x, y).post == [] && x.inner.None? && y.inner.None?
  {
    var c := Compose(x, y);
    if x.inner.None? {
      assert Joined(x) == x.pre;
      assert Joined(c) == (x.pre + y.pre) + Inside(y) + y.post == x.pre + (y.pre + Inside(y) + y.post);
      assert Outside(c) == (x.pre + y.pre) + y.post == (x.pre + x.post) + (y.pre + y.post);
    } else {
      assert Joined(y) == y.pre && Outside(y) == y.pre;
      assert Joined(c) == x.pre + Inside(x) + (x.post + y.pre) == (x.pre + Inside(x) + x.post) + y.pre;
      assert Outside(c) == x.pre + (x.post + y.pre) == (x.pre + x.post) + y.pre;
    }
  }

  lemma StandAppend(ss: seq<Split>, xs: seq<Alternative>, ps: seq<Pair>, ss': seq<Split>, xs': seq<Alternative>,
                    ps': seq<Pair>,
                    b: bool, b': bool, fl: Flags, w: View)
    requires Stand(ss, xs, ps, b, fl, w) && Stand(ss', xs', ps', b', fl, w)
    ensures Stand(ss + ss', xs + xs', ps + ps', b || b', fl, w)
  {
  }

  lemma {:induction false} CrossStands(ss: seq<Split>, xs: seq<Alternative>, ps: seq<Pair>, ss': seq<Split>,
                                       xs': seq<Alternative>, ps': seq<Pair>,
                                       b: bool, b': bool, fl: Flags, w: View)
    requires Stand(ss, xs, ps, b, fl, w) && Stand(ss', xs', ps', b', fl, w) && !(b && b')
    ensures Stand(CrossSplits(ss, ss'), Cross(xs, xs'), CrossPairs(ps, ps'), b || b', fl, w)
    decreases |ss|
  {
    if ss != [] {
      CrossStands(ss[1..], xs[1..], ps[1..], ss', xs', ps', b, b', fl, w);
      forall i | 0 <= i < |ss'| ensures
        Joined(Compose(ss[0], ss'[i])) == xs[0] + xs'[i]
            && PairOf(Compose(ss[0], ss'[i]), fl, w) == Beyond(ps[0], ps'[i])
      {
        ComposeStands(ss[0], ss'[i], fl, w);
      }
      assert Stand(ComposeAll(ss[0], ss'), Prefix(xs[0], xs'), Extend(ps[0], ps'), b || b', fl, w) by {
        forall i | 0 <= i < |ss'| ensures Compose(ss[0], ss'[i]).inner.None? ==> Compose(ss[0], ss'[i]).post == [] {
          ComposeStands(ss[0], ss'[i], fl, w);
        }
      }
      StandAppend(ComposeAll(ss[0], ss'), Prefix(xs[0], xs'), Extend(ps[0], ps'),
                  CrossSplits(ss[1..], ss'), Cross(xs[1..], xs'), CrossPairs(ps[1..], ps'), b || b', b || b', fl, w);
    }
  }

  lemma {:induction false} EachStands(xs: seq<Alternative>, fl: Flags, w: View)
    ensures Stand(EachSplit(xs), xs, EachPair(xs, fl, w), true, fl, w)
    decreases |xs|
  {
    if xs != [] {
      EachStands(xs[1..], fl, w);
      var s := Split([], Some(xs[0]), []);
      assert Joined(s) == xs[0];
    }
  }

  lemma HeadStands<N>(t: TreeOf<N>, fl: Flags, w: View)
    requires t.Cons? && Full(t)
        && (t.kind.SiblingsKind?
            ==> Stand(ListSplits(t.inner), ListReads(t.inner, false), ListPairs(t.inner, true, fl, w),
                      Grouping(t.inner), fl, w))
    ensures Stand(HeadSplits(t), HeadReads(t, false), HeadPairs(t, true, fl, w), GroupingHead(t), fl, w)
  {
    EachStands(ListReads(t.inner, false), fl, w);
    if t.kind.LeafKind? {
      var s := Split([Literal(t.kind.spec, t.negate)], None, []);
      assert Joined(s) == [Literal(t.kind.spec, t.negate)] == Outside(s);
    }
  }

  lemma {:induction false} SplitsStand<N>(t: TreeOf<N>, fl: Flags, w: View)
    requires Full(t) && OneGroupEach(t)
    ensures Stand(ListSplits(t), ListReads(t, false), ListPairs(t, true, fl, w), Grouping(t), fl, w)
    ensures Stand(ChainSplits(t), ChainReads(t, false), ChainPairs(t, true, fl, w),
                  t.Cons? && (GroupingHead(t) || Grouping(t.child)), fl, w)
  {
    if t.Nil? {
      var s := Split([], None, []);
      assert Joined(s) == [] == Outside(s);
    } else {
      if t.kind.SiblingsKind? {
        SplitsStand(t.inner, fl, w);
      }
      HeadStands(t, fl, w);
      SplitsStand(t.child, fl, w);
      SplitsStand(t.next, fl, w);
      ChildStands(t, fl, w);
      CrossStands(HeadSplits(t), HeadReads(t, false), HeadPairs(t, true, fl, w),
                  ChainSplits(t.child), ChainReads(t.child, false), ChainPairs(t.child, true, fl, w), GroupingHead(t),
                  Grouping(t.child), fl, w);
      StandAppend(ChainSplits(t), ChainReads(t, false), ChainPairs(t, true, fl, w),
                  ListSplits(t.next), ListReads(t.next, false), ListPairs(t.next, true, fl, w),
                  GroupingHead(t) || Grouping(t.child), Grouping(t.next), fl, w);
    }
  }

  lemma ChildStands<N>(t: TreeOf<N>, fl: Flags, w: View)
    requires t.Cons? && OneGroupEach(t)
    requires Stand(ChainSplits(t.child), ChainReads(t.child, false), ChainPairs(t.child, true, fl, w),
                   t.child.Cons? && (GroupingHead(t.child) || Grouping(t.child.child)), fl, w)
    ensures Stand(ChainSplits(t.child), ChainReads(t.child, false), ChainPairs(t.child, true, fl, w), Grouping(t.child),
                  fl, w)
  {
  }

  /** Every alternative that passes a group says what its parts say. */
  ghost predicate Separable<N>(t: TreeOf<N>, fl: Flags, w: View) {
    forall s | s in ListSplits(t) && s.inner.Some? ::
        AltVal(Joined(s), fl, w) == Along(AltVal(Outside(s), fl, w), AltVal(s.inner.value, fl, w))
  }

  function Weight(fl: Flags, w: View): Weigh { a => AltVal(a, fl, w) }

  lemma {:induction false} StandFirst(ss: seq<Split>, xs: seq<Alternative>, ps: seq<Pair>, b: bool, fl: Flags, w: View)
    requires Stand(ss, xs, ps, b, fl, w)
    requires forall s | s in ss && s.inner.Some? ::
        AltVal(Joined(s), fl, w) == Along(AltVal(Outside(s), fl, w), AltVal(s.inner.value, fl, w))
    ensures FirstPair(ps, Weight(fl, w), Weight(fl, w)) == FirstVal(xs, fl, w)
    decreases |ss|
  {
    if ss != [] {
      assert ss[0] in ss && Joined(ss[0]) == xs[0] && PairOf(ss[0], fl, w) == ps[0];
      if ss[0].inner.None? {
        assert Outside(ss[0]) == Joined(ss[0]);
      }
      StandFirst(ss[1..], xs[1..], ps[1..], b, fl, w);
    }
  }

  /** First match over alternatives with groups as single conditions is first match over all alternatives. */
  lemma GroupsAsConditions<N>(t: TreeOf<N>, fl: Flags, w: View)
    requires Full(t) && OneGroupEach(t) && Separable(t, fl, w)
    ensures FirstPair(ListPairs(t, false, fl, w), Weight(fl, w), Weight(fl, w)) == FirstVal(ListReads(t, false), fl, w)
  {
    PairsAlike(t, fl, w);
    SplitsStand(t, fl, w);
    StandFirst(ListSplits(t), ListReads(t, false), ListPairs(t, true, fl, w), Grouping(t), fl, w);
    assert FirstPair(ListPairs(t, false, fl, w), Weight(fl, w), Weight(fl, w))
        == FirstPair(ListPairs(t, true, fl, w), Weight(fl, w), Weight(fl, w));
  }
}
