/** Why a filter whose groups can be inlined is orderly: what the inlined rules are refused for. */
module GroupCounts {
  import opened FilterSpec
  import opened FilterEntry
  import opened EntryOrder
  import opened FilterGraph
  import opened FilterTree
  import opened FilterNegation
  import opened FilterPasses
  import opened FilterSyntax
  import opened SyntaxForms
  import opened SyntaxReadings
  import opened Readings
  import opened RuleWalk
  import opened CompiledRules
  import opened Netfilter
  import IptablesRules
  import opened SourceVerdicts
  import opened GroupValues
  import opened GroupVerdicts

  type Bit = FilterEntry.Kind

  function Count(a: Alternative, k: Bit): nat {
    if a == [] then 0 else (if KindOf(a[0].spec) == k then 1 else 0) + Count(a[1..], k)
  }

  lemma {:induction false} CountAppend(a: Alternative, b: Alternative, k: Bit)
    ensures Count(a + b, k) == Count(a, k) + Count(b, k)
    decreases |a|
  {
    if a == [] {
      assert a + b == b;
    } else {
      assert (a + b)[0] == a[0] && (a + b)[1..] == a[1..] + b;
      CountAppend(a[1..], b, k);
    }
  }

  // ----- the most specifiers of a kind that an alternative of a tree has -----

  ghost function MostHead<N>(t: TreeOf<N>, k: Bit): nat
    requires t.Cons?
    decreases t, 0
  {
    if t.kind.LeafKind? then (if KindOf(t.kind.spec) == k then 1 else 0) else MostList(t.inner, k)
  }

  ghost function MostChain<N>(t: TreeOf<N>, k: Bit): nat
    decreases t, 1
  {
    if t.Nil? then 0 else MostHead(t, k) + MostChain(t.child, k)
  }

  ghost function MostList<N>(t: TreeOf<N>, k: Bit): nat
    decreases t, 2
  {
    if t.Nil? then 0 else if MostChain(t, k) >= MostList(t.next, k) then MostChain(t, k) else MostList(t.next, k)
  }

  lemma {:induction false} CrossHas<T>(xs: seq<seq<T>>, ys: seq<seq<T>>, x: seq<T>, y: seq<T>)
    requires x in xs && y in ys
    ensures x + y in Cross(xs, ys)
    decreases |xs|
  {
    if x == xs[0] {
      var i :| 0 <= i < |ys| && ys[i] == y;
      assert Prefix(x, ys)[i] == x + y;
    } else {
      CrossHas(xs[1..], ys, x, y);
    }
  }

  lemma {:induction false} CrossSplit<T>(xs: seq<seq<T>>, ys: seq<seq<T>>, p: seq<T>) returns (x: seq<T>, y: seq<T>)
    requires p in Cross(xs, ys)
    ensures x in xs && y in ys && p == x + y
    decreases |xs|
  {
    if p in Prefix(xs[0], ys) {
      var i :| 0 <= i < |ys| && Prefix(xs[0], ys)[i] == p;
      x, y := xs[0], ys[i];
    } else {
      x, y := CrossSplit(xs[1..], ys, p);
    }
  }

  lemma LeafReached<N>(t: TreeOf<N>, k: Bit)
    requires t.Cons?
    ensures t.kind.LeafKind? ==>
      var h := [Literal(t.kind.spec, t.negate)]; h in HeadReads(t, false) && Count(h, k) == MostHead(t, k)
  {
    if t.kind.LeafKind? {
      var h := [Literal(t.kind.spec, t.negate)];
      assert h[1..] == [] && h == HeadReads(t, false)[0];
    }
  }

  lemma HeadReached<N>(t: TreeOf<N>, k: Bit, h: Alternative)
    requires t.Cons? && Full(t)
    requires if t.kind.LeafKind? then h == [Literal(t.kind.spec, t.negate)]
             else h in ListReads(t.inner, false) && Count(h, k) == MostList(t.inner, k)
    ensures h in HeadReads(t, false) && Count(h, k) == MostHead(t, k)
  {
    LeafReached(t, k);
  }

  /** The most is reached. */
  lemma {:induction false} Reached<N>(t: TreeOf<N>, k: Bit) returns (c: Alternative, l: Alternative)
    requires Full(t)
    ensures c in ChainReads(t, false) && Count(c, k) == MostChain(t, k)
    ensures t.Cons? ==> l in ListReads(t, false) && Count(l, k) == MostList(t, k)
    decreases t
  {
    c, l := [], [];
    if t.Cons? {
      var c1, l1 := Reached(t.child, k);
      var c2, l2 := Reached(t.inner, k);
      var c3, l3 := Reached(t.next, k);
      var h := if t.kind.LeafKind? then [Literal(t.kind.spec, t.negate)] else l2;
      HeadReached(t, k, h);
      CrossHas(HeadReads(t, false), ChainReads(t.child, false), h, c1);
      CountAppend(h, c1, k);
      c := h + c1;
      l := if MostChain(t, k) >= MostList(t.next, k) then c else l3;
    }
  }

  lemma MostOne<N>(t: TreeOf<N>, k: Bit)
    requires Full(t) && forall a | a in ListReads(t, false) :: Count(a, k) <= 1
    ensures MostList(t, k) <= 1
  {
    var c, l := Reached(t, k);
  }

  lemma HeadCount<N>(t: TreeOf<N>, k: Bit, x: Alternative)
    requires t.Cons? && Full(t) && x in HeadReads(t, false)
    requires !t.kind.LeafKind? && x in ListReads(t.inner, false) ==> Count(x, k) <= MostList(t.inner, k)
    ensures Count(x, k) <= MostHead(t, k)
  {
    if t.kind.LeafKind? {
      assert x == [Literal(t.kind.spec, t.negate)] && x[1..] == [];
    }
  }

  /** No alternative has more. */
  lemma {:induction false} ReadsMost<N>(t: TreeOf<N>, k: Bit, a: Alternative)
    requires Full(t)
    ensures a in ListReads(t, false) ==> Count(a, k) <= MostList(t, k)
    ensures a in ChainReads(t, false) ==> Count(a, k) <= MostChain(t, k)
    decreases t
  {
    if t.Cons? {
      ReadsMost(t.next, k, a);
      if a in ChainReads(t, false) {
        var x, y := CrossSplit(HeadReads(t, false), ChainReads(t.child, false), a);
        CountAppend(x, y, k);
        ReadsMost(t.child, k, y);
        if !t.kind.LeafKind? {
          ReadsMost(t.inner, k, x);
        }
        HeadCount(t, k, x);
      }
      assert a in ListReads(t, false) ==> a in ChainReads(t, false) || a in ListReads(t.next, false);
    }
  }

  // ----- paths of nodes -----

  /** The most that a path's specifiers and groups can add up to. */
  ghost function Sum(root: Tree, p: Path, k: Bit): nat {
    if p == [] then 0 else (if At(root, p[0]).Nil? then 0 else MostHead(At(root, p[0]), k)) + Sum(root, p[1..], k)
  }

  lemma {:induction false} SumAppend(root: Tree, p: Path, q: Path, k: Bit)
    ensures Sum(root, p + q, k) == Sum(root, p, k) + Sum(root, q, k)
    decreases |p|
  {
    if p == [] {
      assert p + q == q;
    } else {
      assert (p + q)[0] == p[0] && (p + q)[1..] == p[1..] + q;
      SumAppend(root, p[1..], q, k);
    }
  }

  lemma MostBoth<N>(t: TreeOf<N>, k: Bit)
    requires t.Cons?
    ensures MostChain(t, k) == MostHead(t, k) + MostChain(t.child, k)
    ensures MostChain(t, k) <= MostList(t, k) && MostList(t.next, k) <= MostList(t, k)
  {
  }

  lemma NodeSum(root: Tree, t: Tree, k: Bit)
    requires t.Cons? && At(root, t.node) == t
    ensures Sum(root, [t.node], k) == MostHead(t, k)
  {
    var p := [t.node];
    assert p[0] == t.node && p[1..] == [];
  }

  /** A path sums up to no more than the most of its list. */
  lemma {:induction false} PathSum(root: Tree, t: Tree, p: Path, k: Bit)
    requires Distinct(t) && NegFree(t) && forall n | n in Nodes(t) :: At(root, n) == At(t, n)
    ensures p in PathsOf(t) ==> Sum(root, p, k) <= MostList(t, k)
    ensures p in ChainOf(t) ==> Sum(root, p, k) <= MostChain(t, k)
    decreases t
  {
    if t.Cons? {
      PartsAt(root, t);
      MostBoth(t, k);
      PathSum(root, t.next, p, k);
      if p in ChainOf(t) {
        var heads := if t.kind.SiblingsKind? then PathsOf(t.inner) else [[t.node]];
        var x, y := CrossSplit(heads, ChainOf(t.child), p);
        PathSum(root, t.child, y, k);
        SumAppend(root, x, y, k);
        if t.kind.SiblingsKind? {
          PathSum(root, t.inner, x, k);
        } else {
          NodeSum(root, t, k);
        }
        assert Sum(root, x, k) <= MostHead(t, k);
      }
      assert p in PathsOf(t) ==> p in ChainOf(t) || p in PathsOf(t.next);
    }
  }

  lemma OuterCount(g: Graph, p: Path, k: Bit)
    requires p != []
    ensures Count(Outer(g, p), k)
         == (if IsLeaf(g, p[0]) && KindOf(g[p[0]].u.spec) == k then 1 else 0) + Count(Outer(g, p[1..]), k)
  {
    if IsLeaf(g, p[0]) {
      var l := LitOf(g, p[0]);
      assert Outer(g, p) == [l] + Outer(g, p[1..]);
      CountAppend([l], Outer(g, p[1..]), k);
      assert [l][1..] == [];
    } else {
      assert Outer(g, p) == [] + Outer(g, p[1..]) == Outer(g, p[1..]);
    }
  }

  /** What is outside the group and the most that is inside it. */
  lemma {:induction false} SumParts(root: Tree, g: Graph, p: Path, k: Bit)
    requires Held(root, g) && OneGroup(g, p)
    ensures !HasGroup(g, p) ==> Sum(root, p, k) == Count(Outer(g, p), k)
    ensures HasGroup(g, p) ==> At(root, GroupIn(g, p)).Cons?
    ensures HasGroup(g, p) ==> Sum(root, p, k) == Count(Outer(g, p), k) + MostList(At(root, GroupIn(g, p)).inner, k)
    decreases |p|
  {
    if p != [] {
      AtNode(root, null, g, p[0]);
      SumParts(root, g, p[1..], k);
      OuterCount(g, p, k);
    }
  }

  lemma MostParts(t: Tree, k: Bit)
    requires t.Cons? && Shape(t)
    ensures MostList(t.next, k) <= MostList(t, k) && MostList(t.child, k) <= MostChain(t, k) <= MostList(t, k)
    ensures !t.kind.LeafKind? ==> MostList(t.inner, k) <= MostList(t, k)
  {
    assert MostChain(t, k) == MostHead(t, k) + MostChain(t.child, k);
    assert MostList<Filter>(Nil, k) == 0;
    assert t.child.Cons? ==> MostList(t.child, k) == MostChain(t.child, k);
  }

  /** A group inside a list has no more than the list. */
  lemma {:induction false} GroupMost(t: Tree, n: Filter, k: Bit)
    requires n in Nodes(t) && Shape(t)
    ensures At(t, n).Cons? && (!At(t, n).kind.LeafKind? ==> MostList(At(t, n).inner, k) <= MostList(t, k))
    decreases t
  {
    MostParts(t, k);
    if n == t.node {
    } else if n in Nodes(t.inner) {
      GroupMost(t.inner, n, k);
    } else if n in Nodes(t.child) {
      GroupMost(t.child, n, k);
    } else {
      GroupMost(t.next, n, k);
    }
  }

  // ----- nodes outside groups lie on paths -----

  /** The nodes of a list that are in none of its groups. */
  ghost function Tops(t: Tree): set<Filter> {
    if t.Nil? then {}
    else {t.node} + (if t.kind.SiblingsKind? then Tops(t.inner) else {}) + Tops(t.child) + Tops(t.next)
  }

  lemma {:induction false} SomePath(t: Tree) returns (c: Path, l: Path)
    requires Full(t)
    ensures c in ChainOf(t) && (t.Cons? ==> l in PathsOf(t))
    decreases t
  {
    c, l := [], [];
    if t.Cons? {
      var c1, l1 := SomePath(t.child);
      var c2, l2 := SomePath(t.inner);
      var h := if t.kind.SiblingsKind? then l2 else [t.node];
      CrossHas(if t.kind.SiblingsKind? then PathsOf(t.inner) else [[t.node]], ChainOf(t.child), h, c1);
      c := h + c1;
      l := c;
    }
  }

  lemma {:induction false} PathThrough(t: Tree, n: Filter) returns (p: Path)
    requires Full(t) && Shape(t) && n in Tops(t) && !At(t, n).Nil? && !At(t, n).kind.SiblingsKind? && Distinct(t)
    ensures n in p && p in PathsOf(t)
    ensures n !in Nodes(t.next) ==> p in ChainOf(t)
    decreases t
  {
    TopsAreNodes(t.inner);
    TopsAreNodes(t.child);
    TopsAreNodes(t.next);
    var heads := if t.kind.SiblingsKind? then PathsOf(t.inner) else [[t.node]];
    if n in Nodes(t.next) {
      p := PathThrough(t.next, n);
    } else if n in Nodes(t.child) {
      var q := PathThrough(t.child, n);
      var c, l := SomePath(t.inner);
      var h := if t.kind.SiblingsKind? then l else [t.node];
      CrossHas(heads, ChainOf(t.child), h, q);
      p := h + q;
    } else {
      var c, l := SomePath(t.child);
      var h := [t.node];
      if t.kind.SiblingsKind? {
        h := PathThrough(t.inner, n);
      }
      CrossHas(heads, ChainOf(t.child), h, c);
      p := h + c;
    }
  }

  lemma {:induction false} TopsAreNodes(t: Tree)
    ensures Tops(t) <= Nodes(t)
  {
    if t.Cons? {
      TopsAreNodes(t.inner);
      TopsAreNodes(t.child);
      TopsAreNodes(t.next);
    }
  }

  /** A group is outside all groups or inside one that is. */
  lemma {:induction false} TopOf(t: Tree, n: Filter) returns (m: Filter)
    requires n in Nodes(t) && Distinct(t) && Shape(t) && At(t, n).Cons? && !At(t, n).kind.SiblingsKind? && NegFree(t)
    ensures m in Tops(t) && At(t, m).Cons? && !At(t, m).kind.SiblingsKind?
    ensures m == n || (n in Nodes(At(t, m).inner) && At(At(t, m).inner, n) == At(t, n) && At(t, m).kind.SubgroupKind?)
    decreases t
  {
    TopsAreNodes(t.inner);
    TopsAreNodes(t.child);
    TopsAreNodes(t.next);
    if n == t.node {
      m := n;
    } else if n in Nodes(t.inner) {
      if t.kind.SiblingsKind? {
        m := TopOf(t.inner, n);
      } else {
        m := t.node;
      }
    } else if n in Nodes(t.child) {
      m := TopOf(t.child, n);
    } else {
      m := TopOf(t.next, n);
    }
  }

  // ----- orderly filters -----

  /** The specifiers that an accepted rule has once. */
  const SINGLE: set<Bit> := {DirectionBit, TargetBit, RoutingBit, ProtoBit}

  lemma {:induction false} CountNone(a: Alternative)
    ensures TargetIn(a).None? <==> Count(a, TargetBit) == 0
    ensures DirectionOf(a).None? <==> Count(a, DirectionBit) == 0
  {
    if a != [] {
      CountNone(a[1..]);
    }
  }

  lemma {:induction false} CountGives(a: Alternative, k: Bit)
    ensures Count(a, k) >= 1 <==> EntryOrder.Gives(a, k)
  {
    if a != [] {
      CountGives(a[1..], k);
    }
  }

  lemma {:induction false} CountRouting(a: Alternative)
    ensures RoutingOf(a).None? <==> Count(a, RoutingBit) == 0
  {
    if a != [] {
      CountRouting(a[1..]);
    }
  }

  /** An alternative that has an entry has each of them at most once. */
  lemma {:induction false} OnceEach(a: Alternative, k: Bit)
    requires !Repeats(a) && k in SINGLE
    ensures Count(a, k) <= 1
    decreases |a|
  {
    if a != [] {
      OnceEach(a[1..], k);
      CountGives(a[1..], k);
    }
  }

  /** Every alternative of a filter whose inlined rules are all accepted has them at most once. */
  ghost predicate Single(root: Tree) {
    forall k | k in SINGLE :: MostList(root, k) <= 1
  }

  lemma {:induction false} EntriesOf(xs: seq<Alternative>, a: Alternative, fl: Flags)
    requires Entries(EMPTY, xs, fl).Some? && a in xs
    ensures EntryOf(EMPTY, a, fl).Some?
    decreases |xs|
  {
    if a != xs[0] {
      EntriesOf(xs[1..], a, fl);
    }
  }

  lemma InlinedSingle(root: Tree, fl: Flags)
    requires Full(root) && Entries(EMPTY, ListReads(root, false), fl).Some?
    ensures Single(root)
  {
    forall k | k in SINGLE ensures MostList(root, k) <= 1 {
      forall a | a in ListReads(root, false) ensures Count(a, k) <= 1 {
        EntriesOf(ListReads(root, false), a, fl);
        FoldSucceedsExactly(EMPTY, a);
        OnceEach(a, k);
      }
      MostOne(root, k);
    }
  }

  /** The setting: the prepared tree in the heap, no rule lost, and single specifiers. */
  ghost predicate Neat(root: Tree, g: Graph, rk: Rank, b: Backend) {
    Held(root, g) && Ranked(g, rk) && Walkable(g) && Filled(g) && Shape(root) && Full(root) && Single(root)
        && Directed(b)
  }

  /** A part of the prepared tree that is walked from a fresh entry with success. */
  ghost predicate Part(root: Tree, t: Tree, g: Graph, rk: Rank, b: Backend, e: Entry, h: nat) {
    && Neat(root, g, rk, b) && Distinct(t) && Shape(t) && Full(t) && NegFree(t) && Nodes(t) <= Nodes(root)
    && (forall n | n in Nodes(t) :: At(root, n) == At(t, n)) && (forall k | k in SINGLE :: MostList(t, k) <= 1)
    && Fresh(e) && PathsBelow(g, rk, PathsOf(t), h) && Run(g, rk, b, e, PathsOf(t), h).result >= 0
  }

  /** What a group's list may hold, and where its paths are found. */
  lemma GroupList(root: Tree, g: Graph, rk: Rank, b: Backend, n: Filter)
    requires Neat(root, g, rk, b) && n in g && IsGroup(g, n)
    ensures var s := At(root, n);
            && s.Cons? && g[n].u.list == Root(s.inner) && ListPaths(g, rk, g[n].u.list) == PathsOf(s.inner)
            && (forall k | k in SINGLE :: MostList(s.inner, k) <= 1)
            && Distinct(s.inner) && NegFree(s.inner) && Shape(s.inner) && Full(s.inner) && Nodes(s.inner) <= Nodes(root)
            && (forall m | m in Nodes(s.inner) :: At(root, m) == At(s.inner, m))
            && Unrolled(s.inner, null, g)
  {
    AtNode(root, null, g, n);
    UnrolledPaths(At(root, n).inner, null, g, rk);
    CrossUnit(PathsOf(At(root, n).inner));
    InnerParts(root, n);
    forall k | k in SINGLE ensures MostList(At(root, n).inner, k) <= 1 {
      GroupMost(root, n, k);
    }
  }

  /** The body of the group on a path that was walked with success was walked with success. */
  lemma {:induction false} BodyOnPath(g: Graph, rk: Rank, b: Backend, e: Entry, p: Path, bound: nat)
    returns (from: Entry)
    requires Ranked(g, rk) && PathBelow(g, rk, p, bound) && RunPath(g, rk, b, e, p, bound).result >= 0 && HasGroup(g, p)
    ensures var n := GroupIn(g, p); RunList(g, rk, b, GroupEntry(from, g[n].u.name), g[n].u.list).result >= 0
    decreases |p|
  {
    StopIsFailure(g, rk, b, e, p[0]);
    if IsGroup(g, p[0]) {
      from := e;
    } else {
      from := BodyOnPath(g, rk, b, Step(g, rk, b, e, p[0]).entry, p[1..], bound);
    }
  }

  /** A group's list that was walked with success is such a part. */
  lemma BodyPart(root: Tree, g: Graph, rk: Rank, b: Backend, n: Filter, from: Entry)
    requires Neat(root, g, rk, b) && n in g && IsGroup(g, n)
    requires RunList(g, rk, b, GroupEntry(from, g[n].u.name), g[n].u.list).result >= 0
    ensures At(root, n).Cons? && g[n].u.list != null && PathsOf(At(root, n).inner) != []
    ensures Part(root, At(root, n).inner, g, rk, b, GroupEntry(from, g[n].u.name), Height(rk, g[n].u.list))
    ensures forall q | q in PathsOf(At(root, n).inner) && HasGroup(g, q) ::
        GroupIn(g, q) in rk && n in rk && rk[GroupIn(g, q)] < rk[n]
  {
    var l := g[n].u.list;
    var ps := ListPaths(g, rk, l);
    GroupList(root, g, rk, b, n);
    ListBelow(g, rk, l, Height(rk, l));
    ChainNonempty(g, rk, l);
    FreshEntries(from, g[n].u.name);
    forall q | q in ps && HasGroup(g, q) ensures GroupIn(g, q) in rk && rk[GroupIn(g, q)] < rk[n] {
      GroupBelow(g, rk, ps, q, Height(rk, l));
    }
  }

  /** What the entry of a path shows of its specifiers. */
  lemma PathEntry(root: Tree, t: Tree, g: Graph, rk: Rank, b: Backend, e: Entry, h: nat, p: Path)
    requires Part(root, t, g, rk, b, e, h) && p in PathsOf(t)
    ensures PathBelow(g, rk, p, h) && RunPath(g, rk, b, e, p, h).result >= 0 && OneGroup(g, p)
    ensures PortsNamed(Outer(g, p)) && (!HasGroup(g, p) ==> TargetIn(Outer(g, p)).Some?)
    ensures e.groupname.None? ==> DirectionOf(Outer(g, p)).Some?
  {
    RunHas(g, rk, b, e, PathsOf(t), h, p);
    RunHasOneGroup(g, rk, b, e, p, h);
    PathGives(g, rk, b, e, e, p, h);
    EntryShows(g, b, e, p, RunPath(g, rk, b, e, p, h).rules[0]);
  }

  lemma EntryShows(g: Graph, b: Backend, e: Entry, p: Path, d: Entry)
    requires Fresh(e) && GroupVerdicts.Gives(g, b, e, e, p, d)
    ensures PortsNamed(Outer(g, p)) && (!HasGroup(g, p) ==> TargetIn(Outer(g, p)).Some?)
    ensures e.groupname.None? ==> DirectionOf(Outer(g, p)).Some?
  {
    var out := Outer(g, p);
    FoldRoute(e, out);
    FoldPorts(e, out);
    assert Given(e, ProtoBit).None?;
  }

  /** Ports come with a protocol. */
  ghost predicate PortsNamed(a: Alternative) {
    EntryOrder.Gives(a, DportBit) ==> EntryOrder.Gives(a, ProtoBit)
  }

  lemma {:induction false} FoldPorts(e: Entry, a: Alternative)
    requires Fold(e, a).Some?
    ensures EntryOrder.Gives(a, DportBit) || e.dport.Some? <==> Fold(e, a).value.dport.Some?
    ensures EntryOrder.Gives(a, ProtoBit) || e.proto.Some? <==> Fold(e, a).value.proto.Some?
    decreases |a|
  {
    if a != [] {
      FoldPorts(ApplyLiteral(e, a[0]).value, a[1..]);
      PortFields(e, a[0]);
    }
  }

  lemma PortFields(e: Entry, l: Literal)
    requires ApplyLiteral(e, l).Some?
    ensures ApplyLiteral(e, l).value.dport.Some? <==> e.dport.Some? || l.spec.DportSpec?
    ensures ApplyLiteral(e, l).value.proto.Some? <==> e.proto.Some? || l.spec.ProtoSpec?
  {
  }

  /** A group whose body can be walked to the end has a target in it. */
  lemma {:induction false} BodyTarget(root: Tree, g: Graph, rk: Rank, b: Backend, n: Filter, from: Entry)
    requires Neat(root, g, rk, b) && n in g && IsGroup(g, n)
    requires RunList(g, rk, b, GroupEntry(from, g[n].u.name), g[n].u.list).result >= 0
    ensures At(root, n).Cons? && MostList(At(root, n).inner, TargetBit) >= 1
    decreases rk[n]
  {
    BodyPart(root, g, rk, b, n, from);
    var t, e, h := At(root, n).inner, GroupEntry(from, g[n].u.name), Height(rk, g[n].u.list);
    var q := PathsOf(t)[0];
    PathEntry(root, t, g, rk, b, e, h, q);
    PathSum(root, t, q, TargetBit);
    SumParts(root, g, q, TargetBit);
    CountNone(Outer(g, q));
    if HasGroup(g, q) {
      var from2 := BodyOnPath(g, rk, b, e, q, h);
      BodyTarget(root, g, rk, b, GroupIn(g, q), from2);
    }
  }

  /** A path that was walked with success is tidy. */
  lemma PathTidy(root: Tree, t: Tree, g: Graph, rk: Rank, b: Backend, e: Entry, h: nat, p: Path)
    requires Part(root, t, g, rk, b, e, h) && p in PathsOf(t)
    ensures Tidy(g, p)
  {
    PathEntry(root, t, g, rk, b, e, h, p);
    if HasGroup(g, p) {
      var from := BodyOnPath(g, rk, b, e, p, h);
      BodyTarget(root, g, rk, b, GroupIn(g, p), from);
      PathSum(root, t, p, TargetBit);
      SumParts(root, g, p, TargetBit);
      CountNone(Outer(g, p));
      assert TargetBit in SINGLE;
    }
  }

  lemma {:induction false} OnlyGroup(g: Graph, p: Path, n: Filter)
    requires OneGroup(g, p) && n in p && IsGroup(g, n)
    ensures HasGroup(g, p) && GroupIn(g, p) == n
    decreases |p|
  {
    if p[0] != n {
      OnlyGroup(g, p[1..], n);
    }
  }

  /** Every group's body was walked with success. */
  lemma {:induction false} EveryBody(root: Tree, t: Tree, g: Graph, rk: Rank, b: Backend, e: Entry, h: nat, n: Filter)
    returns (from: Entry)
    requires Part(root, t, g, rk, b, e, h) && n in Nodes(t) && IsGroup(g, n)
    ensures RunList(g, rk, b, GroupEntry(from, g[n].u.name), g[n].u.list).result >= 0
    decreases t
  {
    AtNode(root, null, g, n);
    var m := TopOf(t, n);
    TopsAreNodes(t);
    AtNode(root, null, g, m);
    var p := PathThrough(t, m);
    PathEntry(root, t, g, rk, b, e, h, p);
    OnlyGroup(g, p, m);
    from := BodyOnPath(g, rk, b, e, p, h);
    if m != n {
      InnerParts(t, m);
      BodyPart(root, g, rk, b, m, from);
      from := EveryBody(root, At(root, m).inner, g, rk, b, GroupEntry(from, g[m].u.name), Height(rk, g[m].u.list), n);
    }
  }

  lemma {:induction false} InnerParts(t: Tree, n: Filter)
    requires n in Nodes(t) && Shape(t) && Full(t)
    ensures var s := At(t, n); s.Cons? && Shape(s.inner) && Full(s.inner) && s.inner < t && Nodes(s.inner) <= Nodes(t)
    decreases t
  {
    if n == t.node {
    } else if n in Nodes(t.inner) {
      InnerParts(t.inner, n);
    } else if n in Nodes(t.child) {
      InnerParts(t.child, n);
    } else {
      InnerParts(t.next, n);
    }
  }

  /** The walk of the whole filter. */
  ghost predicate Walked(root: Tree, g: Graph, rk: Rank, b: Backend) {
    && Neat(root, g, rk, b) && In(g, Root(root)) && ListPaths(g, rk, Root(root)) == PathsOf(root)
    && RunList(g, rk, b, EMPTY, Root(root)).result >= 0
  }

  lemma WalkedPart(root: Tree, g: Graph, rk: Rank, b: Backend)
    requires Walked(root, g, rk, b)
    ensures Part(root, root, g, rk, b, EMPTY, Height(rk, Root(root)))
  {
    ListBelow(g, rk, Root(root), Height(rk, Root(root)));
    FreshEntries(EMPTY, "");
  }

  /** Outside groups every path gives a direction, so no group's list does. */
  lemma GroupsUndirected(root: Tree, g: Graph, rk: Rank, b: Backend, n: Filter)
    requires Walked(root, g, rk, b) && n in g && IsGroup(g, n)
    ensures At(root, n).Cons? && MostList(At(root, n).inner, DirectionBit) == 0
  {
    WalkedPart(root, g, rk, b);
    AtNode(root, null, g, n);
    var m := TopOf(root, n);
    TopsAreNodes(root);
    AtNode(root, null, g, m);
    var p := PathThrough(root, m);
    PathEntry(root, root, g, rk, b, EMPTY, Height(rk, Root(root)), p);
    OnlyGroup(g, p, m);
    PathSum(root, root, p, DirectionBit);
    SumParts(root, g, p, DirectionBit);
    CountNone(Outer(g, p));
    assert DirectionBit in SINGLE;
    if m != n {
      InnerParts(root, m);
      GroupMost(At(root, m).inner, n, DirectionBit);
    }
  }

  /** A group's list is a part, from some entry its body was walked from. */
  lemma GroupPart(root: Tree, g: Graph, rk: Rank, b: Backend, n: Filter) returns (e: Entry)
    requires Walked(root, g, rk, b) && n in g && IsGroup(g, n)
    ensures At(root, n).Cons? && Part(root, At(root, n).inner, g, rk, b, e, Height(rk, g[n].u.list))
    ensures forall q | q in PathsOf(At(root, n).inner) && HasGroup(g, q) ::
        GroupIn(g, q) in rk && n in rk && rk[GroupIn(g, q)] < rk[n]
  {
    WalkedPart(root, g, rk, b);
    var from := EveryBody(root, root, g, rk, b, EMPTY, Height(rk, Root(root)), n);
    BodyPart(root, g, rk, b, n, from);
    e := GroupEntry(from, g[n].u.name);
  }

  lemma BodyTidy(root: Tree, g: Graph, rk: Rank, b: Backend, n: Filter, q: Path)
    requires Walked(root, g, rk, b) && n in g && IsGroup(g, n) && q in ListPaths(g, rk, g[n].u.list)
    ensures Tidy(g, q) && DirectionOf(Outer(g, q)).None?
  {
    var e := GroupPart(root, g, rk, b, n);
    GroupList(root, g, rk, b, n);
    var t := At(root, n).inner;
    PathTidy(root, t, g, rk, b, e, Height(rk, g[n].u.list), q);
    PathEntry(root, t, g, rk, b, e, Height(rk, g[n].u.list), q);
    GroupsUndirected(root, g, rk, b, n);
    PathSum(root, t, q, DirectionBit);
    SumParts(root, g, q, DirectionBit);
    CountNone(Outer(g, q));
  }

  // ----- no chain passes two groups -----

  /** A part of the prepared tree. */
  ghost predicate Subtree(root: Tree, t: Tree) {
    && Distinct(t) && Shape(t) && Full(t) && Nodes(t) <= Nodes(root)
        && (forall n | n in Nodes(t) :: At(root, n) == At(t, n))
  }

  lemma SubtreeParts(root: Tree, t: Tree)
    requires t.Cons? && Subtree(root, t)
    ensures Subtree(root, t.inner) && Subtree(root, t.child) && Subtree(root, t.next) && At(root, t.node) == t
    ensures t.node in Nodes(root)
  {
    assert t.node in Nodes(t);
    PartsAt(root, t);
  }

  lemma GroupHasTarget(root: Tree, g: Graph, rk: Rank, b: Backend, t: Tree)
    requires Walked(root, g, rk, b) && t.Cons? && t.kind.SubgroupKind? && At(root, t.node) == t && t.node in Nodes(root)
    ensures MostHead(t, TargetBit) >= 1
  {
    AtNode(root, null, g, t.node);
    WalkedPart(root, g, rk, b);
    var from := EveryBody(root, root, g, rk, b, EMPTY, Height(rk, Root(root)), t.node);
    BodyTarget(root, g, rk, b, t.node, from);
  }

  /** What passes a group has a target in it, so no chain passes two. */
  lemma {:induction false} GroupsCount(root: Tree, g: Graph, rk: Rank, b: Backend, t: Tree)
    requires Walked(root, g, rk, b) && Subtree(root, t) && MostList(t, TargetBit) <= 1
    ensures Grouping(t) ==> MostList(t, TargetBit) >= 1
    ensures t.Cons? && GroupingHead(t) ==> MostHead(t, TargetBit) >= 1
    ensures OneGroupEach(t)
    decreases t
  {
    if t.Cons? {
      SubtreeParts(root, t);
      MostParts(t, TargetBit);
      MostBoth(t, TargetBit);
      GroupsCount(root, g, rk, b, t.child);
      GroupsCount(root, g, rk, b, t.next);
      if t.kind.SubgroupKind? {
        GroupHasTarget(root, g, rk, b, t);
      } else {
        GroupsCount(root, g, rk, b, t.inner);
      }
      ChainMost(t, TargetBit);
      if GroupingHead(t) {
        assert MostHead(t, TargetBit) >= 1;
      }
      if Grouping(t.child) {
        assert MostChain(t.child, TargetBit) >= 1;
      }
    }
  }

  lemma ChainMost<N>(t: TreeOf<N>, k: Bit)
    requires t.Cons? && Shape(t)
    ensures MostList(t.child, k) == MostChain(t.child, k)
    ensures t.kind.SiblingsKind? ==> MostHead(t, k) == MostList(t.inner, k)
  {
    if t.child.Cons? {
      assert MostList(t.child.next, k) == 0;
    }
  }
}
