/** The alternatives of a filter taken apart at their groups: which path each belongs to, and what its
    parts say. */
module GroupSplits {
  import opened FilterSpec
  import opened FilterEntry
  import opened EntryOrder
  import opened FilterGraph
  import opened FilterTree
  import opened FilterNegation
  import opened FilterPasses
  import opened FilterSyntax
  import opened SyntaxForms
  import opened SyntaxReadings
  import opened Readings
  import opened RuleWalk
  import opened CompiledRules
  import opened Netfilter
  import IptablesRules
  import opened SourceVerdicts
  import opened GroupValues
  import opened GroupVerdicts
  import opened GroupCounts

  // ----- splits and paths -----

  lemma {:induction false} CrossSplitsHas(xs: seq<Split>, ys: seq<Split>, x: Split, y: Split)
    requires x in xs && y in ys
    ensures Compose(x, y) in CrossSplits(xs, ys)
    decreases |xs|
  {
    if x == xs[0] {
      var i :| 0 <= i < |ys| && ys[i] == y;
      assert ComposeAll(x, ys)[i] == Compose(x, y);
    } else {
      CrossSplitsHas(xs[1..], ys, x, y);
    }
  }

  lemma {:induction false} CrossSplitsOf(xs: seq<Split>, ys: seq<Split>, s: Split) returns (x: Split, y: Split)
    requires s in CrossSplits(xs, ys)
    ensures x in xs && y in ys && s == Compose(x, y)
    decreases |xs|
  {
    if s in ComposeAll(xs[0], ys) {
      var i :| 0 <= i < |ys| && ComposeAll(xs[0], ys)[i] == s;
      x, y := xs[0], ys[i];
    } else {
      x, y := CrossSplitsOf(xs[1..], ys, s);
    }
  }

  const SOMEVIEW := View(Input, false, Packet(None, None, 0, 0, 0, 0, 0, 0, IptablesRules.New, false), SOMEENV)
  const SOMEENV := Env((a, b) => true, (a, b) => true, (a, b) => true, (a, b) => true, a => 0)

  /** A split is made from an alternative of the reading. */
  lemma SplitFine<N>(t: TreeOf<N>, s: Split)
    requires Full(t) && OneGroupEach(t)
    ensures s in ListSplits(t)
        ==> (s.inner.None? ==> s.post == []) && (!Grouping(t) ==> s.inner.None?) && Joined(s) in ListReads(t, false)
    ensures s in ChainSplits(t) ==>
      && (s.inner.None? ==> s.post == []) && Joined(s) in ChainReads(t, false)
      && (t.Cons? && !GroupingHead(t) && !Grouping(t.child) ==> s.inner.None?)
  {
    SplitsStand(t, NOFLAGS, SOMEVIEW);
    if s in ListSplits(t) {
      var i :| 0 <= i < |ListSplits(t)| && ListSplits(t)[i] == s;
      assert Joined(s) == ListReads(t, false)[i];
    }
    if s in ChainSplits(t) {
      var i :| 0 <= i < |ChainSplits(t)| && ChainSplits(t)[i] == s;
      assert Joined(s) == ChainReads(t, false)[i];
    }
  }

  const NOFLAGS := Flags(false, false)

  lemma SplitOf<N>(t: TreeOf<N>, x: Alternative) returns (s: Split)
    requires Full(t) && OneGroupEach(t) && x in ListReads(t, false)
    ensures s in ListSplits(t) && Joined(s) == x
  {
    SplitsStand(t, NOFLAGS, SOMEVIEW);
    var i :| 0 <= i < |ListReads(t, false)| && ListReads(t, false)[i] == x;
    s := ListSplits(t)[i];
  }

  lemma {:induction false} EachSplitOf(xs: seq<Alternative>, s: Split)
    ensures s in EachSplit(xs) <==> s.pre == [] && s.post == [] && s.inner.Some? && s.inner.value in xs
  {
    if xs != [] {
      EachSplitOf(xs[1..], s);
      assert EachSplit(xs) == [Split([], Some(xs[0]), [])] + EachSplit(xs[1..]);
    }
  }

  /** The path `p` has what stands outside in `s`, and its group what is inside. */
  ghost predicate Takes(root: Tree, g: Graph, p: Path, s: Split) {
    && Outer(g, p) == Outside(s) && (HasGroup(g, p) <==> s.inner.Some?)
    && (s.inner.Some? ==> s.inner.value in ListReads(InnerList(At(root, GroupIn(g, p))), false))
  }

  lemma HeadTakes(root: Tree, t: Tree, k: Filter?, g: Graph, s: Split)
    requires t.Cons? && Unrolled(t, k, g) && At(root, t.node) == t && (t.kind.LeafKind? || t.kind.SubgroupKind?)
        && s in HeadSplits(t)
    ensures Takes(root, g, [t.node], s)
  {
    var p := [t.node];
    assert p[0] == t.node && p[1..] == [];
    assert Outer(g, []) == [] && !HasGroup(g, []);
    assert Outer(g, p) == (if IsLeaf(g, t.node) then [LitOf(g, t.node)] else []) + [];
    if t.kind.SubgroupKind? {
      EachSplitOf(ListReads(t.inner, false), s);
      assert HasGroup(g, p) && GroupIn(g, p) == t.node;
    } else {
      assert s == Split([Literal(t.kind.spec, t.negate)], None, []);
    }
  }

  lemma TakesBoth(root: Tree, g: Graph, p: Path, q: Path, x: Split, y: Split)
    requires Takes(root, g, p, x) && Takes(root, g, q, y) && (x.inner.None? || y.inner.None?)
    requires (x.inner.None? ==> x.post == []) && (y.inner.None? ==> y.post == [])
    ensures Takes(root, g, p + q, Compose(x, y))
  {
    PathAppend(g, p, q);
    ComposeStands(x, y, NOFLAGS, SOMEVIEW);
  }

  lemma {:induction false} SplitPath(root: Tree, t: Tree, k: Filter?, g: Graph, s: Split) returns (c: Path, l: Path)
    requires Subtree(root, t) && NegFree(t) && OneGroupEach(t) && Unrolled(t, k, g)
    ensures s in ChainSplits(t) ==> c in ChainOf(t) && Takes(root, g, c, s)
    ensures s in ListSplits(t) ==> l in PathsOf(t) && Takes(root, g, l, s)
    decreases t
  {
    c, l := [], [];
    if t.Cons? {
      SubtreeParts(root, t);
      if s in ChainSplits(t) {
        var x, y := CrossSplitsOf(HeadSplits(t), ChainSplits(t.child), s);
        var c1, l1 := SplitPath(root, t.child, k, g, y);
        var h := [t.node];
        if t.kind.SiblingsKind? {
          var c2, l2 := SplitPath(root, t.inner, After(t, k), g, x);
          SplitFine(t.inner, x);
          h := l2;
        } else {
          HeadTakes(root, t, k, g, x);
          EachSplitOf(ListReads(t.inner, false), x);
        }
        ChildSplit(t, y);
        CrossHas(if t.kind.SiblingsKind? then PathsOf(t.inner) else [[t.node]], ChainOf(t.child), h, c1);
        TakesBoth(root, g, h, c1, x, y);
        c := h + c1;
      }
      if s in ListSplits(t) {
        if s in ChainSplits(t) {
          l := c;
        } else {
          var c3, l3 := SplitPath(root, t.next, k, g, s);
          l := l3;
        }
      }
    }
  }

  /** The splits of the rest of a chain. */
  lemma ChildSplit<N>(t: TreeOf<N>, y: Split)
    requires t.Cons? && Full(t) && OneGroupEach(t) && y in ChainSplits(t.child)
    ensures (y.inner.None? ==> y.post == []) && (GroupingHead(t) ==> y.inner.None?)
  {
    SplitFine(t.child, y);
    if t.child.Nil? {
      assert y == Split([], None, []);
    }
  }

  // ----- what the parts of an alternative say -----

  lemma {:induction false} PartsAppend(a: Alternative, b: Alternative, p: Packet, env: Env)
    ensures TargetIn(a + b) == OrElse(TargetIn(a), TargetIn(b))
    ensures DirectionOf(a + b) == OrElse(DirectionOf(a), DirectionOf(b))
    ensures RoutingOf(a + b) == OrElse(RoutingOf(a), RoutingOf(b))
    ensures LastDport(a + b) == OrElse(LastDport(b), LastDport(a))
    ensures DportMarked(a + b) <==> DportMarked(a) || DportMarked(b)
    ensures OthersHold(a + b, p, env) <==> OthersHold(a, p, env) && OthersHold(b, p, env)
    decreases |a|
  {
    if a == [] {
      assert a + b == b;
    } else {
      assert (a + b)[0] == a[0] && (a + b)[1..] == a[1..] + b;
      PartsAppend(a[1..], b, p, env);
    }
  }

  lemma {:induction false} NoPorts(a: Alternative)
    requires !EntryOrder.Gives(a, DportBit)
    ensures LastDport(a).None? && !DportMarked(a)
  {
    if a != [] {
      NoPorts(a[1..]);
    }
  }

  /** The counts of a split's parts add up. */
  lemma SplitCount(s: Split, k: Bit)
    requires s.inner.Some?
    ensures Count(Joined(s), k) == Count(Outside(s), k) + Count(s.inner.value, k)
  {
    CountAppend(s.pre + s.inner.value, s.post, k);
    CountAppend(s.pre, s.inner.value, k);
    CountAppend(s.pre, s.post, k);
  }

  /** The specifiers inside and outside a group are apart: at most one side has ports, at most one a
      routing option, only the inside a target and only the outside a direction. */
  ghost predicate PartsApart(s: Split) {
    && s.inner.Some? && TargetIn(Outside(s)).None? && DirectionOf(s.inner.value).None?
    && !(EntryOrder.Gives(Outside(s), DportBit) && EntryOrder.Gives(s.inner.value, DportBit))
    && Count(Joined(s), RoutingBit) <= 1
  }

  lemma SplitSays(s: Split, w: View)
    requires PartsApart(s)
    ensures TargetIn(Joined(s)) == TargetIn(s.inner.value) && DirectionOf(Joined(s)) == DirectionOf(Outside(s))
    ensures AlternativeHolds(Joined(s), w.p, w.env)
        <==> AlternativeHolds(Outside(s), w.p, w.env) && AlternativeHolds(s.inner.value, w.p, w.env)
    ensures RoutingOf(Outside(s)).None? || RoutingOf(s.inner.value).None?
    ensures RoutingOf(Joined(s)) == OrElse(RoutingOf(Outside(s)), RoutingOf(s.inner.value))
  {
    var i := s.inner.value;
    PartsAppend(s.pre + i, s.post, w.p, w.env);
    PartsAppend(s.pre, i, w.p, w.env);
    PartsAppend(s.pre, s.post, w.p, w.env);
    SplitCount(s, RoutingBit);
    CountRouting(Outside(s));
    CountRouting(i);
    if EntryOrder.Gives(i, DportBit) {
      NoPorts(Outside(s));
    } else {
      NoPorts(i);
    }
  }

  /** The routing an alternative without its own gets. */
  function Default(fl: Flags): Option<RoutingType> {
    if fl.local then Some(LocalOnly) else if fl.route then Some(RoutedOnly) else None
  }

  /** An alternative that passes a group gives no routing option, or that of the flags. */
  ghost predicate Agrees(s: Split, fl: Flags) {
    s.inner.Some? && Default(fl).Some? && RoutingOf(Joined(s)).Some? ==> RoutingOf(Joined(s)) == Default(fl)
  }

  /** The parts of an alternative say what it says exactly when the flags do not come between them. */
  lemma PartsSay(s: Split, fl: Flags, w: View)
    requires PartsApart(s)
    ensures Default(fl) != Some(Barred(w)) || Agrees(s, fl) ==>
      AltVal(Joined(s), fl, w) == Along(AltVal(Outside(s), fl, w), AltVal(s.inner.value, fl, w))
    ensures Default(fl) == Some(Barred(w)) && !Agrees(s, fl)
        ==> Along(AltVal(Outside(s), fl, w), AltVal(s.inner.value, fl, w)) == None
  {
    SplitSays(s, w);
  }

  // ----- the parts of the alternatives of a filter -----

  /** An alternative of a list that is walked, taken apart, and its path. */
  lemma PartPath(root: Tree, t: Tree, g: Graph, rk: Rank, b: Backend, e: Entry, h: nat, x: Alternative)
    returns (s: Split, q: Path)
    requires Part(root, t, g, rk, b, e, h) && Unrolled(t, null, g) && OneGroupEach(t) && x in ListReads(t, false)
    ensures s in ListSplits(t) && Joined(s) == x && q in PathsOf(t) && Takes(root, g, q, s) && PortsNamed(Outside(s))
  {
    s := SplitOf(t, x);
    var c;
    c, q := SplitPath(root, t, null, g, s);
    PathEntry(root, t, g, rk, b, e, h, q);
  }

  /** The same for an alternative of a group. */
  lemma InnerPath(root: Tree, g: Graph, rk: Rank, b: Backend, n: Filter, x: Alternative) returns (s: Split, q: Path)
    requires Walked(root, g, rk, b) && n in g && IsGroup(g, n) && x in ListReads(InnerList(At(root, n)), false)
    ensures At(root, n).Cons? && s in ListSplits(At(root, n).inner) && Joined(s) == x
    ensures OneGroupEach(At(root, n).inner) && Full(At(root, n).inner)
    ensures q in PathsOf(At(root, n).inner) && Takes(root, g, q, s) && PortsNamed(Outside(s))
    ensures s.inner.Some? ==>
      var m := GroupIn(g, q);
      && n in rk && m in rk && m in g && rk[m] < rk[n] && IsGroup(g, m)
      && s.inner.value in ListReads(InnerList(At(root, m)), false)
  {
    var e := GroupPart(root, g, rk, b, n);
    var t := At(root, n).inner;
    GroupList(root, g, rk, b, n);
    GroupsCount(root, g, rk, b, t);
    s, q := PartPath(root, t, g, rk, b, e, Height(rk, g[n].u.list), x);
  }

  /** Every alternative of a group's list that gives ports gives a protocol. */
  lemma {:induction false} InnerPorts(root: Tree, g: Graph, rk: Rank, b: Backend, n: Filter, x: Alternative)
    requires Walked(root, g, rk, b) && n in g && IsGroup(g, n) && x in ListReads(InnerList(At(root, n)), false)
    ensures PortsNamed(x)
    decreases if n in rk then rk[n] else 0
  {
    var s, q := InnerPath(root, g, rk, b, n, x);
    if s.inner.None? {
      SplitFine(At(root, n).inner, s);
      assert Joined(s) == Outside(s);
    } else {
      InnerPorts(root, g, rk, b, GroupIn(g, q), s.inner.value);
      SplitGives(s, DportBit);
      SplitGives(s, ProtoBit);
    }
  }

  lemma SplitGives(s: Split, k: Bit)
    requires s.inner.Some?
    ensures EntryOrder.Gives(Joined(s), k) <==> EntryOrder.Gives(Outside(s), k) || EntryOrder.Gives(s.inner.value, k)
  {
    SplitCount(s, k);
    CountGives(Joined(s), k);
    CountGives(Outside(s), k);
    CountGives(s.inner.value, k);
  }

  /** The alternatives of a list that is walked have their specifiers apart. */
  lemma SplitsApart(root: Tree, t: Tree, k: Filter?, g: Graph, rk: Rank, b: Backend, e: Entry, h: nat, s: Split)
    requires Walked(root, g, rk, b) && Part(root, t, g, rk, b, e, h) && Unrolled(t, k, g) && OneGroupEach(t)
    requires s in ListSplits(t) && s.inner.Some?
    ensures PartsApart(s)
  {
    var c, p := SplitPath(root, t, k, g, s);
    PathTidy(root, t, g, rk, b, e, h, p);
    PathEntry(root, t, g, rk, b, e, h, p);
    InsideGives(root, g, rk, b, GroupIn(g, p), s.inner.value);
    SplitFine(t, s);
    OnceInReads(t, RoutingBit, Joined(s));
    OnceInReads(t, ProtoBit, Joined(s));
    PortsOnOneSide(s);
  }

  lemma OnceInReads(t: Tree, k: Bit, a: Alternative)
    requires Full(t) && k in SINGLE && (forall k | k in SINGLE :: MostList(t, k) <= 1) && a in ListReads(t, false)
    ensures Count(a, k) <= 1
  {
    ReadsMost(t, k, a);
  }

  lemma InsideGives(root: Tree, g: Graph, rk: Rank, b: Backend, n: Filter, i: Alternative)
    requires Walked(root, g, rk, b) && n in g && IsGroup(g, n) && i in ListReads(InnerList(At(root, n)), false)
    ensures DirectionOf(i).None? && PortsNamed(i)
  {
    GroupsUndirected(root, g, rk, b, n);
    InnerPorts(root, g, rk, b, n, i);
    GroupList(root, g, rk, b, n);
    ReadsMost(At(root, n).inner, DirectionBit, i);
    CountNone(i);
  }

  lemma PortsOnOneSide(s: Split)
    requires s.inner.Some? && PortsNamed(Outside(s)) && PortsNamed(s.inner.value) && Count(Joined(s), ProtoBit) <= 1
    ensures !(EntryOrder.Gives(Outside(s), DportBit) && EntryOrder.Gives(s.inner.value, DportBit))
  {
    SplitCount(s, ProtoBit);
    CountGives(Outside(s), ProtoBit);
    CountGives(s.inner.value, ProtoBit);
  }

  // ----- an alternative of a group within one of the filter -----

  ghost predicate Contains(a: Alternative, x: Alternative) {
    exists u, v :: a == u + x + v
  }

  lemma ContainsIn(u: Alternative, a: Alternative, v: Alternative, x: Alternative)
    requires Contains(a, x)
    ensures Contains(u + a + v, x)
  {
    var c, d :| a == c + x + d;
    assert u + a + v == (u + c) + x + (d + v);
  }

  lemma SomeSplit<N>(t: TreeOf<N>) returns (c: Split)
    requires Full(t)
    ensures c in ChainSplits(t)
    decreases t
  {
    if t.Nil? {
      c := Split([], None, []);
    } else {
      var h := SomeHead(t);
      var d := SomeSplit(t.child);
      CrossSplitsHas(HeadSplits(t), ChainSplits(t.child), h, d);
      c := Compose(h, d);
    }
  }

  lemma SomeHead<N>(t: TreeOf<N>) returns (h: Split)
    requires t.Cons? && Full(t)
    ensures h in HeadSplits(t)
    decreases t, 0
  {
    match t.kind
    case LeafKind(s) => h := Split([Literal(s, t.negate)], None, []);
    case SiblingsKind => h := SomeSplit(t.inner);
    case SubgroupKind(_) =>
      var c, l := Reached(t.inner, TargetBit);
      h := Split([], Some(l), []);
      EachSplitOf(ListReads(t.inner, false), h);
    case NegKind =>
      assert false;
  }

  /** A split of the chain of `t` that is made of a split of its head and one of what follows. */
  lemma ComposeContains(t: Tree, h: Split, d: Split, x: Alternative)
    requires t.Cons? && Full(t) && OneGroupEach(t) && h in HeadSplits(t) && d in ChainSplits(t.child)
    requires (h.inner.Some? && Contains(Joined(h), x)) || (d.inner.Some? && Contains(Joined(d), x))
    requires h.inner.None? ==> h.post == []
    requires h.inner.None? || d.inner.None?
    ensures Compose(h, d) in ListSplits(t) && Compose(h, d).inner.Some? && Contains(Joined(Compose(h, d)), x)
  {
    ChildSplit(t, d);
    CrossSplitsHas(HeadSplits(t), ChainSplits(t.child), h, d);
    JoinedContains(h, d, x);
  }

  lemma JoinedContains(h: Split, d: Split, x: Alternative)
    requires (h.inner.Some? && Contains(Joined(h), x)) || (d.inner.Some? && Contains(Joined(d), x))
    requires (h.inner.None? ==> h.post == []) && (d.inner.None? ==> d.post == []) && (h.inner.None? || d.inner.None?)
    ensures Compose(h, d).inner.Some? && Contains(Joined(Compose(h, d)), x)
  {
    ComposeStands(h, d, NOFLAGS, SOMEVIEW);
    var a, b := Joined(h), Joined(d);
    if h.inner.Some? {
      ContainsIn([], a, b, x);
      assert [] + a + b == a + b;
    } else {
      ContainsIn(a, b, [], x);
      assert a + b + [] == a + b;
    }
  }

  lemma GroupingAt(t: Tree, n: Filter)
    requires n in Nodes(t) && Full(t) && At(t, n).Cons? && At(t, n).kind.SubgroupKind?
    ensures Grouping(t)
    ensures t.Cons? && n in {t.node} + Nodes(t.inner) && (n == t.node || n in Nodes(t.inner)) ==> GroupingHead(t)
    decreases t
  {
    if n == t.node {
    } else if n in Nodes(t.inner) {
      GroupingAt(t.inner, n);
    } else if n in Nodes(t.child) {
      GroupingAt(t.child, n);
    } else {
      GroupingAt(t.next, n);
    }
  }

  /** Each alternative of a group is part of an alternative of the list the group is in. */
  lemma {:induction false} SplitThrough(t: Tree, n: Filter, x: Alternative) returns (s: Split)
    requires n in Nodes(t) && Distinct(t) && Full(t) && Shape(t) && OneGroupEach(t) && At(t, n).Cons?
    requires At(t, n).kind.SubgroupKind?
    requires x in ListReads(At(t, n).inner, false)
    requires forall m | m in Nodes(t) && At(t, m).Cons? && At(t, m).kind.SubgroupKind? :: OneGroupEach(At(t, m).inner)
    ensures s in ListSplits(t) && s.inner.Some? && Contains(Joined(s), x)
    decreases t
  {
    GroupingAt(t, n);
    if n == t.node || n in Nodes(t.inner) {
      var h: Split;
      if n == t.node {
        h := Split([], Some(x), []);
        EachSplitOf(ListReads(t.inner, false), h);
        assert Joined(h) == [] + x + [];
      } else {
        PartsAt(t, t);
        if t.kind.SubgroupKind? {
          assert At(t, t.node) == t && t.node in Nodes(t);
        }
        var i := SplitThrough(t.inner, n, x);
        h := i;
        if t.kind.SubgroupKind? {
          SplitFine(t.inner, i);
          h := Split([], Some(Joined(i)), []);
          EachSplitOf(ListReads(t.inner, false), h);
          assert Joined(h) == Joined(i);
        }
      }
      var d := SomeSplit(t.child);
      ChildSplit(t, d);
      ComposeContains(t, h, d, x);
      s := Compose(h, d);
    } else if n in Nodes(t.child) {
      PartsAt(t, t);
      var i := SplitThrough(t.child, n, x);
      ChildListSplit(t, i);
      GroupingAt(t.child, n);
      var h := SomeHead(t);
      HeadFine(t, h);
      ComposeContains(t, h, i, x);
      s := Compose(h, i);
    } else {
      PartsAt(t, t);
      s := SplitThrough(t.next, n, x);
    }
  }

  lemma ChildListSplit(t: Tree, i: Split)
    requires t.Cons? && Shape(t) && i in ListSplits(t.child)
    ensures i in ChainSplits(t.child)
  {
    if t.child.Cons? {
      assert ListSplits(t.child.next) == [];
    }
  }

  lemma HeadFine(t: Tree, h: Split)
    requires t.Cons? && Full(t) && OneGroupEach(t) && !GroupingHead(t) && h in HeadSplits(t)
    ensures h.inner.None? && h.post == []
  {
    if t.kind.SiblingsKind? {
      SplitFine(t.inner, h);
    }
  }

  lemma {:induction false} ContainsRouting(a: Alternative, x: Alternative)
    requires Contains(a, x) && Count(a, RoutingBit) <= 1 && RoutingOf(x).Some?
    ensures RoutingOf(a) == RoutingOf(x)
  {
    var u, v :| a == u + x + v;
    CountAppend(u + x, v, RoutingBit);
    CountAppend(u, x, RoutingBit);
    CountRouting(u);
    CountRouting(x);
    PartsAppend(u + x, v, SOMEVIEW.p, SOMEENV);
    PartsAppend(u, x, SOMEVIEW.p, SOMEENV);
  }
}
