/** The alternatives of a filter with its groups kept as brackets: which paths they take through the
    groups, and what their parts say of a packet. */
module GroupNests {
  import opened FilterSpec
  import opened FilterEntry
  import opened EntryOrder
  import opened FilterGraph
  import opened FilterTree
  import opened FilterNegation
  import opened FilterPasses
  import opened Readings
  import opened RuleWalk
  import opened Netfilter
  import opened SourceVerdicts
  import opened EntryChecks
  import opened OnewayRules
  import opened GroupValues
  import opened GroupVerdicts
  import opened GroupCounts
  import opened GroupSplits
  import opened InlinedGroups

  /** An alternative: what stands before the group it passes, what it says inside, and what stands
      behind; without a group everything may stand before. */
  datatype Nest = Nest(pre: Alternative, inner: Option<Nest>, post: Alternative)

  /** The brackets left out. */
  function Flat(x: Nest): Alternative {
    x.pre + (if x.inner.Some? then Flat(x.inner.value) else []) + x.post
  }

  function Outermost(x: Nest): Alternative { x.pre + x.post }

  /** What stands in the innermost group. */
  function Innermost(x: Nest): Alternative {
    if x.inner.Some? then Innermost(x.inner.value) else Outermost(x)
  }

  function SplitIn(x: Nest): Split {
    Split(x.pre, if x.inner.Some? then Some(Flat(x.inner.value)) else None, x.post)
  }

  /** The path has what stands around the group, and its group what is inside. */
  ghost predicate Follows(root: Tree, g: Graph, p: Path, x: Nest)
    decreases x, 0
  {
    && Outer(g, p) == Outermost(x) && (HasGroup(g, p) <==> x.inner.Some?)
    && (x.inner.Some? ==> NestOf(root, g, InnerList(At(root, GroupIn(g, p))), x.inner.value))
  }

  /** `x` is an alternative of the list `t`. */
  ghost predicate NestOf(root: Tree, g: Graph, t: Tree, x: Nest)
    decreases x, 1
  {
    SplitIn(x) in ListSplits(t) && exists p | p in PathsOf(t) :: Follows(root, g, p, x)
  }

  /** A nest of a list is an alternative of its reading. */
  lemma NestReads(root: Tree, g: Graph, t: Tree, x: Nest)
    requires NestOf(root, g, t, x) && Full(t) && OneGroupEach(t)
    ensures Flat(x) in ListReads(t, false) && Joined(SplitIn(x)) == Flat(x)
  {
    SplitFine(t, SplitIn(x));
  }

  // ----- every alternative is one -----

  lemma {:induction false} GroupNest(root: Tree, g: Graph, rk: Rank, b: Backend, n: Filter, a: Alternative)
    returns (x: Nest)
    requires Walked(root, g, rk, b) && n in g && IsGroup(g, n) && a in ListReads(InnerList(At(root, n)), false)
    ensures NestOf(root, g, InnerList(At(root, n)), x) && Flat(x) == a
    decreases if n in rk then rk[n] else 0
  {
    var s, q := InnerPath(root, g, rk, b, n, a);
    x := SplitNest(root, g, rk, b, At(root, n).inner, s, q, if n in rk then rk[n] else 0);
  }

  lemma {:induction false} SplitNest(root: Tree, g: Graph, rk: Rank, b: Backend, t: Tree, s: Split, q: Path, bound: nat)
    returns (x: Nest)
    requires Walked(root, g, rk, b) && s in ListSplits(t) && q in PathsOf(t) && Takes(root, g, q, s)
    requires s.inner.Some? ==> GroupIn(g, q) in rk && rk[GroupIn(g, q)] < bound
    ensures NestOf(root, g, t, x) && Flat(x) == Joined(s)
    decreases bound, 0
  {
    x := Nest(s.pre, None, s.post);
    if s.inner.Some? {
      var y := GroupNest(root, g, rk, b, GroupIn(g, q), s.inner.value);
      x := Nest(s.pre, Some(y), s.post);
    }
    assert SplitIn(x) == s && Follows(root, g, q, x);
  }

  /** Every alternative of the filter is a nest without its brackets. */
  lemma EveryNest(root: Tree, g: Graph, rk: Rank, b: Backend, a: Alternative) returns (x: Nest)
    requires Walked(root, g, rk, b) && a in ListReads(root, false)
    ensures NestOf(root, g, root, x) && Flat(x) == a
  {
    WalkedPart(root, g, rk, b);
    GroupsCount(root, g, rk, b, root);
    var s := SplitOf(root, a);
    var c, q := SplitPath(root, root, null, g, s);
    if s.inner.Some? {
      GroupBelow(g, rk, PathsOf(root), q, Height(rk, Root(root)));
    }
    x := SplitNest(root, g, rk, b, root, s, q, Height(rk, Root(root)));
  }

  // ----- every path through the groups is one -----

  lemma {:induction false} OneGroupParts(g: Graph, p: Path, q: Path)
    requires OneGroup(g, p + q)
    ensures OneGroup(g, p) && OneGroup(g, q) && !(HasGroup(g, p) && HasGroup(g, q))
    decreases |p|
  {
    if p == [] {
      assert p + q == q;
    } else {
      assert (p + q)[0] == p[0] && (p + q)[1..] == p[1..] + q;
      OneGroupParts(g, p[1..], q);
      PathAppend(g, p[1..], q);
    }
  }

  lemma {:induction false} CrossHasParts<T>(xs: seq<seq<T>>, ys: seq<seq<T>>, z: seq<T>) returns (x: seq<T>, y: seq<T>)
    requires z in Cross(xs, ys)
    ensures x in xs && y in ys && z == x + y
    decreases |xs|
  {
    if z in Prefix(xs[0], ys) {
      var i :| 0 <= i < |ys| && Prefix(xs[0], ys)[i] == z;
      x, y := xs[0], ys[i];
    } else {
      x, y := CrossHasParts(xs[1..], ys, z);
    }
  }

  /** The path's own split, `a` being said in its group. */
  ghost predicate Parted(g: Graph, p: Path, a: Alternative, s: Split) {
    Outer(g, p) == Outside(s) && s.inner == if HasGroup(g, p) then Some(a) else None
  }

  /** What is said in the path's group is one of the group's alternatives. */
  ghost predicate SaidInside(root: Tree, g: Graph, p: Path, a: Alternative) {
    HasGroup(g, p) ==> a in ListReads(InnerList(At(root, GroupIn(g, p))), false)
  }

  lemma HeadParted(root: Tree, t: Tree, k: Filter?, g: Graph, a: Alternative) returns (s: Split)
    requires t.Cons? && Unrolled(t, k, g) && At(root, t.node) == t && (t.kind.LeafKind? || t.kind.SubgroupKind?)
    requires SaidInside(root, g, [t.node], a)
    ensures s in HeadSplits(t) && Parted(g, [t.node], a, s) && (s.inner.None? ==> s.post == [])
  {
    var p := [t.node];
    assert p[0] == t.node && p[1..] == [];
    assert Outer(g, []) == [] && !HasGroup(g, []);
    assert Outer(g, p) == (if IsLeaf(g, t.node) then [LitOf(g, t.node)] else []) + [];
    if t.kind.SubgroupKind? {
      assert HasGroup(g, p) && GroupIn(g, p) == t.node;
      s := Split([], Some(a), []);
      EachSplitOf(ListReads(t.inner, false), s);
    } else {
      s := Split([Literal(t.kind.spec, t.negate)], None, []);
    }
  }

  lemma PartedBoth(g: Graph, p: Path, q: Path, a: Alternative, x: Split, y: Split)
    requires Parted(g, p, a, x) && Parted(g, q, a, y) && !(HasGroup(g, p) && HasGroup(g, q))
    requires (x.inner.None? ==> x.post == []) && (y.inner.None? ==> y.post == [])
    ensures Parted(g, p + q, a, Compose(x, y))
    ensures Compose(x, y).inner.None? ==> Compose(x, y).post == []
  {
    PathAppend(g, p, q);
    ComposeStands(x, y, NOFLAGS, SOMEVIEW);
  }

  lemma {:induction false} ChainParted(root: Tree, t: Tree, k: Filter?, g: Graph, p: Path, a: Alternative)
    returns (s: Split)
    requires Subtree(root, t) && NegFree(t) && Unrolled(t, k, g)
    requires p in ChainOf(t) && OneGroup(g, p) && SaidInside(root, g, p, a)
    ensures s in ChainSplits(t) && Parted(g, p, a, s) && (s.inner.None? ==> s.post == [])
    decreases t, 0
  {
    if t.Nil? {
      s := Split([], None, []);
      assert Outer(g, []) == [];
    } else {
      SubtreeParts(root, t);
      var h, c := CrossHasParts(if t.kind.SiblingsKind? then PathsOf(t.inner) else [[t.node]], ChainOf(t.child), p);
      OneGroupParts(g, h, c);
      PathAppend(g, h, c);
      var x, y;
      if t.kind.SiblingsKind? {
        x := ListParted(root, t.inner, After(t, k), g, h, a);
      } else {
        x := HeadParted(root, t, k, g, a);
      }
      y := ChainParted(root, t.child, k, g, c, a);
      CrossSplitsHas(HeadSplits(t), ChainSplits(t.child), x, y);
      PartedBoth(g, h, c, a, x, y);
      s := Compose(x, y);
    }
  }

  lemma {:induction false} ListParted(root: Tree, t: Tree, k: Filter?, g: Graph, p: Path, a: Alternative)
    returns (s: Split)
    requires Subtree(root, t) && NegFree(t) && Unrolled(t, k, g)
    requires p in PathsOf(t) && OneGroup(g, p) && SaidInside(root, g, p, a)
    ensures s in ListSplits(t) && Parted(g, p, a, s) && (s.inner.None? ==> s.post == [])
    decreases t, 1
  {
    SubtreeParts(root, t);
    if p in ChainOf(t) {
      s := ChainParted(root, t, k, g, p, a);
    } else {
      s := ListParted(root, t.next, k, g, p, a);
    }
  }

  /** A path of a list that is walked, with a nest of its group, makes a nest of the list. */
  lemma PathNest(root: Tree, t: Tree, k: Filter?, g: Graph, rk: Rank, b: Backend, e: Entry, h: nat, p: Path,
                 y: Option<Nest>)
    returns (x: Nest)
    requires Walked(root, g, rk, b) && Part(root, t, g, rk, b, e, h) && Unrolled(t, k, g) && p in PathsOf(t)
    requires HasGroup(g, p) <==> y.Some?
    requires y.Some? ==>
      var n := GroupIn(g, p);
      n in g && NestOf(root, g, InnerList(At(root, n)), y.value)
    ensures NestOf(root, g, t, x) && x.inner == y && Outermost(x) == Outer(g, p)
  {
    PathEntry(root, t, g, rk, b, e, h, p);
    var a := if y.Some? then Flat(y.value) else [];
    if y.Some? {
      InnerSound(root, g, rk, b, GroupIn(g, p));
      NestReads(root, g, At(root, GroupIn(g, p)).inner, y.value);
    }
    var s := ListParted(root, t, k, g, p, a);
    x := Nest(s.pre, y, s.post);
    assert SplitIn(x) == s && Follows(root, g, p, x);
  }

  lemma InnerSound(root: Tree, g: Graph, rk: Rank, b: Backend, n: Filter)
    requires Walked(root, g, rk, b) && n in g && IsGroup(g, n)
    ensures At(root, n).Cons? && OneGroupEach(At(root, n).inner) && Full(At(root, n).inner)
  {
    AtNode(root, null, g, n);
    GroupList(root, g, rk, b, n);
    GroupsCount(root, g, rk, b, At(root, n).inner);
  }

  // ----- what its parts say -----

  predicate PartsHold(x: Nest, p: Packet, env: Env) {
    AlternativeHolds(Outermost(x), p, env) && (x.inner.Some? ==> PartsHold(x.inner.value, p, env))
  }

  /** No part of it is for local packets only. */
  predicate PartsRouted(x: Nest, fl: Flags) {
    Routing(Outermost(x), fl) != Some(LocalOnly) && (x.inner.Some? ==> PartsRouted(x.inner.value, fl))
  }

  /** The list of the group an alternative passes, and an entry it is walked from. */
  lemma InnerOf(root: Tree, t: Tree, k: Filter?, g: Graph, rk: Rank, b: Backend, e: Entry, h: nat, x: Nest)
    returns (t': Tree, e': Entry, h': nat)
    requires Walked(root, g, rk, b) && Part(root, t, g, rk, b, e, h) && Unrolled(t, k, g) && NestOf(root, g, t, x)
    requires x.inner.Some?
    ensures Part(root, t', g, rk, b, e', h') && Unrolled(t', null, g) && NestOf(root, g, t', x.inner.value)
    ensures AllAgree(root, b.flags) ==> Agrees(SplitIn(x.inner.value), b.flags)
  {
    var p :| p in PathsOf(t) && Follows(root, g, p, x);
    var n := GroupIn(g, p);
    e' := GroupPart(root, g, rk, b, n);
    GroupList(root, g, rk, b, n);
    t', h' := At(root, n).inner, Height(rk, g[n].u.list);
    if AllAgree(root, b.flags) {
      InnerAgrees(root, g, rk, b, n, x.inner.value);
    }
  }

  lemma InnerAgrees(root: Tree, g: Graph, rk: Rank, b: Backend, n: Filter, x: Nest)
    requires Walked(root, g, rk, b) && AllAgree(root, b.flags) && n in g && IsGroup(g, n) && At(root, n).Cons?
    requires NestOf(root, g, At(root, n).inner, x)
    ensures Agrees(SplitIn(x), b.flags)
  {
    WalkedPart(root, g, rk, b);
    GroupsCount(root, g, rk, b, root);
    InnerSound(root, g, rk, b, n);
    InnerAgree(root, g, rk, b, n, SplitIn(x));
  }

  lemma NestApart(root: Tree, t: Tree, k: Filter?, g: Graph, rk: Rank, b: Backend, e: Entry, h: nat, x: Nest)
    requires Walked(root, g, rk, b) && Part(root, t, g, rk, b, e, h) && Unrolled(t, k, g) && NestOf(root, g, t, x)
    ensures Joined(SplitIn(x)) == Flat(x) && (x.inner.Some? ==> PartsApart(SplitIn(x)))
    ensures Flat(x) in ListReads(t, false)
  {
    GroupsCount(root, g, rk, b, t);
    NestReads(root, g, t, x);
    if x.inner.Some? {
      SplitsApart(root, t, k, g, rk, b, e, h, SplitIn(x));
    }
  }

  lemma WholeSays(x: Nest, p: Packet, env: Env)
    requires x.inner.Some? && PartsApart(SplitIn(x))
    ensures TargetIn(Flat(x)) == TargetIn(Flat(x.inner.value)) && DirectionOf(Flat(x)) == DirectionOf(Outermost(x))
    ensures AlternativeHolds(Flat(x), p, env)
       <==> AlternativeHolds(Outermost(x), p, env) && AlternativeHolds(Flat(x.inner.value), p, env)
    ensures RoutingOf(Outermost(x)).None? || RoutingOf(Flat(x.inner.value)).None?
    ensures RoutingOf(Flat(x)) == OrElse(RoutingOf(Outermost(x)), RoutingOf(Flat(x.inner.value)))
  {
    assert Flat(x) == Joined(SplitIn(x)) && Outermost(x) == Outside(SplitIn(x));
    SplitSays(SplitIn(x), View(Input, false, p, env));
  }

  lemma NothingInside(x: Nest)
    requires x.inner.None?
    ensures Flat(x) == Outermost(x)
  {
  }

  /** The whole says what its parts say; its target is the innermost one's, its direction the outermost's. */
  lemma {:induction false} NestSays(root: Tree, t: Tree, k: Filter?, g: Graph, rk: Rank, b: Backend, e: Entry, h: nat,
                                    x: Nest, p: Packet, env: Env)
    requires Walked(root, g, rk, b) && Part(root, t, g, rk, b, e, h) && Unrolled(t, k, g) && NestOf(root, g, t, x)
    ensures TargetIn(Flat(x)) == TargetIn(Innermost(x)) && DirectionOf(Flat(x)) == DirectionOf(Outermost(x))
    ensures AlternativeHolds(Flat(x), p, env) <==> PartsHold(x, p, env)
    decreases x
  {
    NestApart(root, t, k, g, rk, b, e, h, x);
    if x.inner.Some? {
      var t', e', h' := InnerOf(root, t, k, g, rk, b, e, h, x);
      NestSays(root, t', null, g, rk, b, e', h', x.inner.value, p, env);
      WholeSays(x, p, env);
    } else {
      NothingInside(x);
    }
  }

  lemma WholeRouted(x: Nest, fl: Flags)
    requires x.inner.Some? && PartsApart(SplitIn(x))
    requires Default(fl) != Some(LocalOnly) || Agrees(SplitIn(x), fl)
    ensures Routing(Flat(x), fl) != Some(LocalOnly)
       <==> Routing(Outermost(x), fl) != Some(LocalOnly) && Routing(Flat(x.inner.value), fl) != Some(LocalOnly)
  {
    assert Flat(x) == Joined(SplitIn(x));
    WholeSays(x, SOMEVIEW.p, SOMEENV);
  }

  /** Where the flags do not come between the parts, the whole may be forwarded when each part may. */
  lemma {:induction false} NestRouted(root: Tree, t: Tree, k: Filter?, g: Graph, rk: Rank, b: Backend, e: Entry, h: nat,
                                      x: Nest)
    requires Walked(root, g, rk, b) && Part(root, t, g, rk, b, e, h) && Unrolled(t, k, g) && NestOf(root, g, t, x)
    requires Default(b.flags) != Some(LocalOnly) || (AllAgree(root, b.flags) && Agrees(SplitIn(x), b.flags))
    ensures Routing(Flat(x), b.flags) != Some(LocalOnly) <==> PartsRouted(x, b.flags)
    decreases x
  {
    NestApart(root, t, k, g, rk, b, e, h, x);
    if x.inner.Some? {
      var t', e', h' := InnerOf(root, t, k, g, rk, b, e, h, x);
      NestRouted(root, t', null, g, rk, b, e', h', x.inner.value);
      WholeRouted(x, b.flags);
    } else {
      NothingInside(x);
    }
  }

  // ----- its protocol -----

  predicate StatefulIn(a: Alternative) { ProtocolAmong(a, {TCP, UDP}) }

  lemma {:induction false} CountProtocol(a: Alternative)
    ensures ProtocolIn(a).None? <==> Count(a, ProtoBit) == 0
  {
    if a != [] {
      CountProtocol(a[1..]);
    }
  }

  lemma {:induction false} InnermostCounts(x: Nest)
    requires ProtocolIn(Innermost(x)).Some?
    ensures Count(Flat(x), ProtoBit) >= 1
    decreases x
  {
    if x.inner.Some? {
      InnermostCounts(x.inner.value);
      assert Flat(x) == Joined(SplitIn(x));
      SplitCount(SplitIn(x), ProtoBit);
    } else {
      CountProtocol(Outermost(x));
      assert Flat(x) == Outermost(x);
    }
  }

  /** If the innermost group gives the protocol, nothing around it does. */
  lemma ProtocolInside(root: Tree, t: Tree, k: Filter?, g: Graph, rk: Rank, b: Backend, e: Entry, h: nat, x: Nest)
    requires Walked(root, g, rk, b) && Part(root, t, g, rk, b, e, h) && Unrolled(t, k, g) && NestOf(root, g, t, x)
    requires x.inner.Some? && ProtocolIn(Innermost(x)).Some?
    ensures ProtocolIn(Outermost(x)).None?
  {
    NestApart(root, t, k, g, rk, b, e, h, x);
    OnceInReads(t, ProtoBit, Flat(x));
    SplitCount(SplitIn(x), ProtoBit);
    InnermostCounts(x.inner.value);
    CountProtocol(Outermost(x));
  }
}
