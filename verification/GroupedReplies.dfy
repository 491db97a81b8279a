/** Which replies the loaded script of a filter with groups lets back: exactly those of the accepted
    connections whose protocol is named inside the innermost group. */
module GroupedReplies {
  import opened FilterSpec
  import opened FilterEntry
  import opened FilterGraph
  import opened FilterSyntax
  import opened FilterTree
  import opened FilterNegation
  import opened SyntaxForms
  import opened SyntaxReadings
  import opened Readings
  import opened CompiledRules
  import opened IptablesRules
  import opened Netfilter
  import opened RuleMeaning
  import opened LoadedScript
  import opened ScriptVerdicts
  import opened SourceVerdicts
  import opened EntryChecks
  import opened OnewayRules
  import opened RuleWalk
  import opened GroupValues
  import opened GroupVerdicts
  import opened GroupCounts
  import opened GroupSplits
  import opened InlinedGroups
  import opened GroupedScript
  import opened GroupedChains
  import opened GroupedPackets
  import opened GroupedSource
  import opened GroupNests

  function Opposite(d: Direction): Direction { if d == Input then Output else Input }

  /** The reply `q` to the packet `w.p`, as a packet of the opposite direction. */
  function Back(w: View, q: Packet): View { View(Opposite(w.d), w.fwd, q, w.env) }

  // ----- the reply rule of one path -----

  /** What stands around a group, or in the innermost one, is said of the packet of this view. */
  predicate Said(a: Alternative, fl: Flags, w: View) {
    AlternativeHolds(a, w.p, w.env) && (w.fwd ==> Routing(a, fl) != Some(LocalOnly))
  }

  /** The rule has a reply rule that matches. */
  predicate Reverses(e: Entry, w: View, q: Packet) {
    WantsReply(false, e, Opposite(w.d), w.fwd) && MatchAll(ReverseMatches(e), q, w.env)
  }

  /** What the rule of a path has of it. */
  lemma PathRule(g: Graph, b: Backend, e0: Entry, p: Path, e: Entry, w: View)
    requires Fresh(e0) && Gives(g, b, e0, e0, p, e) && Tidy(g, p)
    ensures e.proto == ProtocolIn(Outer(g, p))
    ensures HasGroup(g, p) ==> e.target == Some(ToSubgroup) && e.subgroup == Some(g[GroupIn(g, p)].u.name)
    ensures !HasGroup(g, p) && e.target.Some? ==> e.target == Finals(TargetIn(Outer(g, p)))
  {
    FoldProtocol(e0, Outer(g, p));
    assert Given(e0, ProtoBit).None?;
  }

  /** The entry of a rule without a protocol of its own has no message type either. */
  lemma NoType(e: Entry, w: View, q: Packet)
    requires Regular(e, w.env) && (e.proto.None? || Stateful(e)) && ReplyTo(q, w.p)
    ensures MatchAll(ReverseMatches(e), q, w.env) <==> Says(e, w.p, w.env)
  {
    ReverseMeans(e, q, w.env);
    ScriptVerdicts.SameSays(e, w.p, q, w.env);
  }

  /** The rule that jumps to a group reverses when what stands around the group is said. */
  lemma JumpReverses(g: Graph, b: Backend, e0: Entry, p: Path, e: Entry, w: View, q: Packet)
    requires Fresh(e0) && Gives(g, b, e0, e0, p, e) && Tidy(g, p) && HasGroup(g, p)
    requires Regular(e, w.env) && ReplyTo(q, w.p) && ProtocolIn(Outer(g, p)).None?
    ensures Reverses(e, w, q) <==> !e.oneway && e.direction == Some(w.d) && Said(Outer(g, p), b.flags, w)
  {
    PathRule(g, b, e0, p, e, w);
    PathSays(g, b, e0, p, e, w);
    NoType(e, w, q);
    DirectionsOpposed(e, w.d);
  }

  lemma DirectionsOpposed(e: Entry, d: Direction)
    requires e.direction.Some?
    ensures e.direction != Some(Opposite(d)) <==> e.direction == Some(d)
  {
    if e.direction.value == Input {
      assert e.direction == Some(Input);
    } else {
      assert e.direction == Some(Output);
    }
  }

  /** The rule of the innermost part reverses when the part accepts tcp or udp. */
  lemma LastReverses(g: Graph, b: Backend, e0: Entry, p: Path, e: Entry, w: View, q: Packet)
    requires Fresh(e0) && Gives(g, b, e0, e0, p, e) && !HasGroup(g, p)
    requires Regular(e, w.env) && ReplyTo(q, w.p)
    ensures Reverses(e, w, q) <==>
      && !e.oneway && e.direction == Some(w.d) && Said(Outer(g, p), b.flags, w)
      && TargetIn(Outer(g, p)) == Some(Accept) && StatefulIn(Outer(g, p))
  {
    PathRule(g, b, e0, p, e, w);
    PathSays(g, b, e0, p, e, w);
    DirectionsOpposed(e, w.d);
    assert Stateful(e) <==> StatefulIn(Outer(g, p));
    if Stateful(e) {
      NoType(e, w, q);
    }
  }

  // ----- one list of a walk -----

  lemma {:induction false} RulesAll(cs: seq<Call>)
    ensures forall e | e in Rules(cs) :: e in AllRules(cs)
    decreases cs
  {
    if cs != [] {
      RulesAll(cs[1..]);
    }
  }

  /** The body of a group that was called. */
  lemma {:induction false} CalledBody(cs: seq<Call>, group: Option<string>, known: Known, g: Graph, rk: Rank,
                                      b: Backend,
                                      bound: nat, n: string, d: Option<Direction>)
    returns (c: Call)
    requires Ranked(g, rk) && Trace(cs, group, known, g, rk, b, true, bound) && (n, d) in Called(cs)
    ensures c.GroupCall? && c.name == n && c.from.direction == d && IsBody(g, rk, b, c, true)
    ensures Trace(c.body, Some(n), {}, g, rk, b, true, rk[c.at])
    ensures Called(c.body) <= Called(cs) && forall e | e in Rules(c.body) :: e in AllRules(cs)
    decreases cs
  {
    match cs[0]
    case RuleCall(_) =>
      c := CalledBody(cs[1..], group, known, g, rk, b, bound, n, d);
    case GroupCall(name, at, from, body) =>
      if (n, d) == (name, from.direction) {
        c := cs[0];
        RulesAll(body);
      } else if (n, d) in Called(body) {
        c := CalledBody(body, Some(name), {}, g, rk, b, rk[at], n, d);
      } else {
        c := CalledBody(cs[1..], group, known + {(name, from.direction)}, g, rk, b, bound, n, d);
      }
  }

  /** The calls `xs` hand over the rules of the list `t`, walked from the entry `e0`. */
  ghost predicate Level(root: Tree, calls: seq<Call>, g: Graph, rk: Rank, b: Backend, xs: seq<Call>,
                        group: Option<string>,
                        t: Tree, e0: Entry, h: nat, bound: nat) {
    && Part(root, t, g, rk, b, e0, h) && Unrolled(t, null, g) && Trace(xs, group, {}, g, rk, b, true, bound)
    && Rules(xs) == Run(g, rk, b, e0, PathsOf(t), h).rules && Called(xs) <= Called(calls)
    && (forall e | e in Rules(xs) :: e in AllRules(calls)) && e0.groupname == group && !e0.oneway
    && (forall p | p in PathsOf(t) :: Fits(g, rk, group, p, bound))
  }

  ghost predicate Fits(g: Graph, rk: Rank, group: Option<string>, p: Path, bound: nat) {
    && Tidy(g, p) && (HasGroup(g, p) ==> GroupIn(g, p) in rk && rk[GroupIn(g, p)] < bound)
    && (group.Some? ==> DirectionOf(Outer(g, p)).None?)
  }

  lemma MainLevel(root: Tree, calls: seq<Call>, g: Graph, rk: Rank, b: Backend)
    requires Walked(root, g, rk, b) && Trace(calls, None, {}, g, rk, b, true, Height(rk, Root(root)))
    requires RunList(g, rk, b, EMPTY, Root(root)).rules == Rules(calls)
    ensures Level(root, calls, g, rk, b, calls, None, root, EMPTY, Height(rk, Root(root)), Height(rk, Root(root)))
  {
    var h := Height(rk, Root(root));
    WalkedPart(root, g, rk, b);
    RulesAll(calls);
    forall p | p in PathsOf(root) ensures Fits(g, rk, None, p, h) {
      PathTidy(root, root, g, rk, b, EMPTY, h, p);
      if HasGroup(g, p) {
        GroupBelow(g, rk, PathsOf(root), p, h);
      }
    }
  }

  lemma GroupLevel(root: Tree, calls: seq<Call>, g: Graph, rk: Rank, b: Backend, bound: nat, n: Filter, d: Direction)
    returns (xs: seq<Call>, e0: Entry, h: nat)
    requires Walked(root, g, rk, b) && DistinctNames(g) && Trace(calls, None, {}, g, rk, b, true, bound)
    requires n in g && IsGroup(g, n) && (g[n].u.name, Some(d)) in Called(calls)
    ensures At(root, n).Cons? && e0.direction == Some(d) && n in rk
    ensures Level(root, calls, g, rk, b, xs, Some(g[n].u.name), At(root, n).inner, e0, h, rk[n])
  {
    var c := CalledBody(calls, None, {}, g, rk, b, bound, g[n].u.name, Some(d));
    assert c.at == n;
    BodyPart(root, g, rk, b, n, c.from);
    GroupList(root, g, rk, b, n);
    xs, e0, h := c.body, GroupEntry(c.from, c.name), Height(rk, g[n].u.list);
    forall p | p in PathsOf(At(root, n).inner) ensures Fits(g, rk, Some(c.name), p, rk[n]) {
      BodyTidy(root, g, rk, b, n, p);
    }
  }

  /** The one rule of a path. */
  lemma OneRule(g: Graph, rk: Rank, b: Backend, e0: Entry, p: Path, h: nat) returns (e: Entry)
    requires Ranked(g, rk) && PathBelow(g, rk, p, h) && RunPath(g, rk, b, e0, p, h).result >= 0
    ensures e in RunPath(g, rk, b, e0, p, h).rules && Gives(g, b, e0, e0, p, e)
  {
    PathGives(g, rk, b, e0, e0, p, h);
    e := RunPath(g, rk, b, e0, p, h).rules[0];
  }

  lemma RuleKeeps(g: Graph, b: Backend, e0: Entry, p: Path, e: Entry)
    requires Fresh(e0) && Gives(g, b, e0, e0, p, e) && !e0.oneway
    ensures e.groupname == e0.groupname && (Unmarked(Outer(g, p)) ==> !e.oneway)
  {
    PathSays(g, b, e0, p, e, SOMEVIEW);
    if Unmarked(Outer(g, p)) {
      FoldUnmarked(e0, Outer(g, p));
    }
  }

  /** The rule of one of the list's paths. */
  lemma LevelRule(root: Tree, calls: seq<Call>, g: Graph, rk: Rank, b: Backend, xs: seq<Call>, group: Option<string>,
                  t: Tree, e0: Entry, h: nat, bound: nat, p: Path)
    returns (e: Entry)
    requires Level(root, calls, g, rk, b, xs, group, t, e0, h, bound) && p in PathsOf(t)
    ensures e in Rules(xs) && e in AllRules(calls) && Gives(g, b, e0, e0, p, e) && e.groupname == group
    ensures Unmarked(Outer(g, p)) ==> !e.oneway
  {
    RunHas(g, rk, b, e0, PathsOf(t), h, p);
    e := OneRule(g, rk, b, e0, p, h);
    RuleKeeps(g, b, e0, p, e);
  }

  // ----- replies that get back -----

  /** Every part is said of the packet. */
  predicate AllSaid(x: Nest, fl: Flags, w: View) {
    Said(Outermost(x), fl, w) && (x.inner.Some? ==> AllSaid(x.inner.value, fl, w))
  }

  predicate AcceptsInside(x: Nest) {
    TargetIn(Innermost(x)) == Some(Accept) && StatefulIn(Innermost(x))
  }

  lemma UnmarkedParts(x: Nest)
    requires Unmarked(Flat(x))
    ensures Unmarked(Outermost(x)) && (x.inner.Some? ==> Unmarked(Flat(x.inner.value)))
  {
    forall l | l in Outermost(x) ensures !l.spec.OnewaySpec? {
      assert l in Flat(x);
    }
    if x.inner.Some? {
      forall l | l in Flat(x.inner.value) ensures !l.spec.OnewaySpec? {
        assert l in Flat(x);
      }
    }
  }

  /** What the whole walk is known to be. */
  ghost predicate Standing(root: Tree, calls: seq<Call>, g: Graph, rk: Rank, b: Backend, env: Env) {
    && Walked(root, g, rk, b) && WholeTrace(calls, root, g, rk, b, Height(rk, Root(root)))
    && RunList(g, rk, b, EMPTY, Root(root)).rules == Rules(calls) && AllRegular(AllRules(calls), env)
  }

  /** The list's walk starts from the packet's direction, or the alternative gives it. */
  ghost predicate Heads(e0: Entry, x: Nest, d: Direction) {
    if e0.groupname.Some? then e0.direction == Some(d) else DirectionOf(Outermost(x)) == Some(d)
  }

  /** The rule for the outermost part of an alternative that is said, if it accepts inside, reverses. */
  lemma PartReverses(root: Tree, calls: seq<Call>, g: Graph, rk: Rank, b: Backend, xs: seq<Call>, group: Option<string>,
                     t: Tree, e0: Entry, h: nat, bound: nat, x: Nest, p: Path, w: View, q: Packet)
    returns (e: Entry)
    requires Standing(root, calls, g, rk, b, w.env) && Level(root, calls, g, rk, b, xs, group, t, e0, h, bound)
    requires NestOf(root, g, t, x) && p in PathsOf(t) && Follows(root, g, p, x) && ReplyTo(q, w.p) && Unmarked(Flat(x))
    requires AllSaid(x, b.flags, w) && AcceptsInside(x) && Heads(e0, x, w.d)
    ensures e in Rules(xs) && e in AllRules(calls) && e.groupname == group && Reverses(e, w, q)
    ensures e.direction == Some(w.d) && (group.Some? ==> e.iface.None?)
    ensures if x.inner.Some? then e.target == Some(ToSubgroup) && e.subgroup == Some(g[GroupIn(g, p)].u.name)
            else e.target != Some(ToSubgroup)
  {
    e := LevelRule(root, calls, g, rk, b, xs, group, t, e0, h, bound, p);
    UnmarkedParts(x);
    PathSays(g, b, e0, p, e, w);
    PathRule(g, b, e0, p, e, w);
    assert Fits(g, rk, group, p, bound) && Regular(e, w.env);
    if x.inner.Some? {
      ProtocolInside(root, t, null, g, rk, b, e0, h, x);
      JumpReverses(g, b, e0, p, e, w, q);
    } else {
      LastReverses(g, b, e0, p, e, w, q);
    }
  }

  lemma {:induction false} NestReplied(root: Tree, calls: seq<Call>, g: Graph, rk: Rank, b: Backend, xs: seq<Call>,
                                       group: Option<string>, t: Tree, e0: Entry, h: nat, bound: nat, x: Nest, w: View,
                                       q: Packet, n: nat)
    requires Standing(root, calls, g, rk, b, w.env) && Level(root, calls, g, rk, b, xs, group, t, e0, h, bound)
    requires NestOf(root, g, t, x) && ReplyTo(q, w.p) && Unmarked(Flat(x)) && n >= bound
    requires AllSaid(x, b.flags, w) && AcceptsInside(x) && Heads(e0, x, w.d) && Called(xs) <= Called(calls)
    ensures Replied(AllRules(calls), group, false, Back(w, q), n)
    decreases x
  {
    var p :| p in PathsOf(t) && Follows(root, g, p, x);
    var e := PartReverses(root, calls, g, rk, b, xs, group, t, e0, h, bound, x, p, w, q);
    if x.inner.Some? {
      var m := GroupIn(g, p);
      var top := Height(rk, Root(root));
      assert Fits(g, rk, group, p, bound);
      JumpIsKnown(root, calls, xs, group, g, rk, b, top, bound, e, w);
      var ys, e1, h1 := GroupLevel(root, calls, g, rk, b, top, m, w.d);
      UnmarkedParts(x);
      NestReplied(root, calls, g, rk, b, ys, Some(g[m].u.name), At(root, m).inner, e1, h1, rk[m], x.inner.value, w, q,
                  n - 1);
    }
    assert Replies(AllRules(calls), e, false, Back(w, q), n);
  }

  // ----- and no others -----

  lemma {:induction false} InGroupHas(es: seq<Entry>, group: Option<string>, e: Entry)
    requires e in es && e.groupname == group
    ensures e in InGroup(es, group)
    decreases |es|
  {
    if e != es[0] {
      InGroupHas(es[1..], group, e);
    }
  }

  /** The rule of a path: where the path is found and what it gives. */
  ghost predicate OfPath(root: Tree, g: Graph, rk: Rank, b: Backend, t: Tree, e1: Entry, h: nat, e0: Entry, p: Path,
                         e: Entry) {
    && Part(root, t, g, rk, b, e1, h) && Unrolled(t, null, g) && p in PathsOf(t) && Fresh(e0)
    && Gives(g, b, e0, e0, p, e) && Tidy(g, p)
  }

  /** A nest that is said and accepts inside. */
  ghost predicate Accepting(root: Tree, g: Graph, t: Tree, x: Nest, fl: Flags, w: View) {
    NestOf(root, g, t, x) && AllSaid(x, fl, w) && AcceptsInside(x)
  }

  /** A rule with a target of its own that reverses stands for an alternative that is said and accepts. */
  lemma LastReturns(root: Tree, g: Graph, rk: Rank, b: Backend, t: Tree, e1: Entry, h: nat, e0: Entry, p: Path,
                    e: Entry,
                    w: View, q: Packet)
    returns (x: Nest)
    requires Walked(root, g, rk, b) && OfPath(root, g, rk, b, t, e1, h, e0, p, e) && Regular(e, w.env)
    requires !HasGroup(g, p) && ReplyTo(q, w.p) && Reverses(e, w, q)
    ensures Accepting(root, g, t, x, b.flags, w) && Outermost(x) == Outer(g, p) && e.direction == Some(w.d)
  {
    x := PathNest(root, t, null, g, rk, b, e1, h, p, None);
    LastReverses(g, b, e0, p, e, w, q);
  }

  /** And one that jumps, if there is one where it jumps to. */
  lemma ThroughReturns(root: Tree, g: Graph, rk: Rank, b: Backend, t: Tree, e1: Entry, h: nat, e0: Entry, p: Path,
                       e: Entry, w: View, q: Packet, y: Nest)
    returns (x: Nest)
    requires Walked(root, g, rk, b) && OfPath(root, g, rk, b, t, e1, h, e0, p, e) && Regular(e, w.env)
    requires HasGroup(g, p) && ReplyTo(q, w.p) && Reverses(e, w, q)
    requires Accepting(root, g, InnerList(At(root, GroupIn(g, p))), y, b.flags, w)
    ensures Accepting(root, g, t, x, b.flags, w) && Outermost(x) == Outer(g, p) && e.direction == Some(w.d)
  {
    x := PathNest(root, t, null, g, rk, b, e1, h, p, Some(y));
    ProtocolInside(root, t, null, g, rk, b, e1, h, x);
    JumpReverses(g, b, e0, p, e, w, q);
  }

  lemma TheRule(g: Graph, rk: Rank, b: Backend, e0: Entry, p: Path, h: nat, e: Entry)
    requires Ranked(g, rk) && PathBelow(g, rk, p, h) && RunPath(g, rk, b, e0, p, h).result >= 0
    requires e in RunPath(g, rk, b, e0, p, h).rules
    ensures Gives(g, b, e0, e0, p, e)
  {
    PathGives(g, rk, b, e0, e0, p, h);
  }

  /** The path of a rule of a list. */
  lemma ListRule(root: Tree, t: Tree, g: Graph, rk: Rank, b: Backend, e0: Entry, h: nat, e: Entry) returns (p: Path)
    requires Part(root, t, g, rk, b, e0, h) && Unrolled(t, null, g) && e in Run(g, rk, b, e0, PathsOf(t), h).rules
    ensures OfPath(root, g, rk, b, t, e0, h, e0, p, e)
  {
    p := RunFrom(g, rk, b, e0, PathsOf(t), h, e);
    TheRule(g, rk, b, e0, p, h, e);
    PathTidy(root, t, g, rk, b, e0, h, p);
  }

  /** The path of a rule in the chain of a group. */
  lemma MemberPath(root: Tree, calls: seq<Call>, g: Graph, rk: Rank, b: Backend, m: Filter, e: Entry)
    returns (e1: Entry, h: nat, e0: Entry, p: Path)
    requires Walked(root, g, rk, b) && DistinctNames(g)
    requires Trace(calls, None, {}, g, rk, b, true, Height(rk, Root(root)))
    requires m in g && IsGroup(g, m) && e in AllRules(calls) && e.groupname == Some(g[m].u.name)
    ensures OfPath(root, g, rk, b, InnerList(At(root, m)), e1, h, e0, p, e)
  {
    InGroupHas(AllRules(calls), Some(g[m].u.name), e);
    ChainRules(calls, g[m].u.name);
    var from;
    from, p := ChainPath(root, calls, g, rk, b, m, e);
    e1 := GroupPart(root, g, rk, b, m);
    GroupList(root, g, rk, b, m);
    e0, h := GroupEntry(from, g[m].u.name), Height(rk, g[m].u.list);
    TheRule(g, rk, b, e0, p, h, e);
    BodyTidy(root, g, rk, b, m, p);
  }

  /** The path of a rule outside groups. */
  lemma OutsidePath(root: Tree, calls: seq<Call>, g: Graph, rk: Rank, b: Backend, e: Entry) returns (p: Path)
    requires Walked(root, g, rk, b) && RunList(g, rk, b, EMPTY, Root(root)).rules == Rules(calls)
    requires Trace(calls, None, {}, g, rk, b, true, Height(rk, Root(root)))
    requires e in AllRules(calls) && e.groupname == None
    ensures OfPath(root, g, rk, b, root, EMPTY, Height(rk, Root(root)), EMPTY, p, e)
    ensures e.direction == DirectionOf(Outer(g, p))
  {
    var h := Height(rk, Root(root));
    InGroupHas(AllRules(calls), None, e);
    MainRules(calls, None, {}, g, rk, b, h);
    WalkedPart(root, g, rk, b);
    p := ListRule(root, root, g, rk, b, EMPTY, h, e);
    PathSays(g, b, EMPTY, p, e, SOMEVIEW);
  }

  lemma OwnReply(es: seq<Entry>, e: Entry, w: View, q: Packet, n: nat)
    requires Replies(es, e, false, Back(w, q), n)
    ensures Reverses(e, w, q)
  {
  }

  /** The rule that answers where this one jumps to. */
  lemma NextReply(es: seq<Entry>, e: Entry, name: string, v: View, n: nat) returns (d: Entry)
    requires Replies(es, e, false, v, n) && e.target == Some(ToSubgroup) && e.subgroup == Some(name)
    ensures n > 0 && d in es && d.groupname == Some(name) && Replies(es, d, false, v, n - 1)
  {
    d :| d in es && d.groupname == Some(name) && Replies(es, d, false, v, n - 1);
  }

  lemma {:induction false} PathReturns(root: Tree, calls: seq<Call>, g: Graph, rk: Rank, b: Backend, t: Tree, e1: Entry,
                                       h: nat, e0: Entry, p: Path, e: Entry, w: View, q: Packet, n: nat)
    returns (x: Nest)
    requires Standing(root, calls, g, rk, b, w.env) && OfPath(root, g, rk, b, t, e1, h, e0, p, e)
    requires e in AllRules(calls) && ReplyTo(q, w.p) && Replies(AllRules(calls), e, false, Back(w, q), n)
    ensures Accepting(root, g, t, x, b.flags, w) && Outermost(x) == Outer(g, p) && e.direction == Some(w.d)
    decreases n, 0
  {
    assert Regular(e, w.env);
    PathRule(g, b, e0, p, e, w);
    OwnReply(AllRules(calls), e, w, q, n);
    if HasGroup(g, p) {
      var m := GroupIn(g, p);
      var d := NextReply(AllRules(calls), e, g[m].u.name, Back(w, q), n);
      var y := GroupReturns(root, calls, g, rk, b, m, d, w, q, n - 1);
      x := ThroughReturns(root, g, rk, b, t, e1, h, e0, p, e, w, q, y);
    } else {
      x := LastReturns(root, g, rk, b, t, e1, h, e0, p, e, w, q);
    }
  }

  lemma {:induction false} GroupReturns(root: Tree, calls: seq<Call>, g: Graph, rk: Rank, b: Backend, m: Filter,
                                        e: Entry, w: View, q: Packet, n: nat)
    returns (x: Nest)
    requires Standing(root, calls, g, rk, b, w.env) && m in g && IsGroup(g, m) && ReplyTo(q, w.p)
    requires e in AllRules(calls) && e.groupname == Some(g[m].u.name)
    requires Replies(AllRules(calls), e, false, Back(w, q), n)
    ensures Accepting(root, g, InnerList(At(root, m)), x, b.flags, w)
    decreases n, 1
  {
    var e1, h, e0, p := MemberPath(root, calls, g, rk, b, m, e);
    x := PathReturns(root, calls, g, rk, b, InnerList(At(root, m)), e1, h, e0, p, e, w, q, n);
  }

  lemma MainReturns(root: Tree, calls: seq<Call>, g: Graph, rk: Rank, b: Backend, w: View, q: Packet, n: nat)
    returns (x: Nest)
    requires Standing(root, calls, g, rk, b, w.env) && ReplyTo(q, w.p)
    requires Replied(AllRules(calls), None, false, Back(w, q), n)
    ensures Accepting(root, g, root, x, b.flags, w) && DirectionOf(Outermost(x)) == Some(w.d)
  {
    var es := AllRules(calls);
    var e :| e in es && e.groupname == None && Replies(es, e, false, Back(w, q), n);
    var p := OutsidePath(root, calls, g, rk, b, e);
    x := PathReturns(root, calls, g, rk, b, root, EMPTY, Height(rk, Root(root)), EMPTY, p, e, w, q, n);
  }

  // ----- exactly which replies get back -----

  /** An alternative that applies to the packet and accepts, and names tcp or udp in its innermost group.
      (For packets to and from the machine its routing option does not count.) */
  predicate LetsReplyBack(x: Nest, fl: Flags, w: View) {
    && DirectionOf(Flat(x)) == Some(w.d) && AlternativeHolds(Flat(x), w.p, w.env)
    && (w.fwd ==> Routing(Flat(x), fl) != Some(LocalOnly))
    && TargetIn(Flat(x)) == Some(Accept) && StatefulIn(Innermost(x))
  }

  ghost predicate ComesBack(root: Tree, g: Graph, fl: Flags, w: View) {
    exists x :: NestOf(root, g, root, x) && LetsReplyBack(x, fl, w)
  }

  lemma {:induction false} AllSaidParts(x: Nest, fl: Flags, w: View)
    ensures AllSaid(x, fl, w) <==> PartsHold(x, w.p, w.env) && (w.fwd ==> PartsRouted(x, fl))
    decreases x
  {
    if x.inner.Some? {
      AllSaidParts(x.inner.value, fl, w);
    }
  }

  /** What is said of the parts is said of the whole. */
  lemma WholeOrParts(root: Tree, g: Graph, rk: Rank, b: Backend, x: Nest, w: View)
    requires Walked(root, g, rk, b) && NestOf(root, g, root, x) && (w.fwd ==> FlagsAgree(root, b.flags, true))
    ensures LetsReplyBack(x, b.flags, w)
       <==> AllSaid(x, b.flags, w) && AcceptsInside(x) && DirectionOf(Outermost(x)) == Some(w.d)
  {
    var h := Height(rk, Root(root));
    WalkedPart(root, g, rk, b);
    NestSays(root, root, null, g, rk, b, EMPTY, h, x, w.p, w.env);
    if w.fwd {
      NestRouted(root, root, null, g, rk, b, EMPTY, h, x);
    }
    AllSaidParts(x, b.flags, w);
  }

  /** No alternative carries the mark that leaves out reply rules. */
  lemma NestUnmarked(ast: RuleList, k: Lookup, root: Tree, g: Graph, x: Nest)
    requires AllMoved(Compiled(ast, k), ListReads(root, false)) && Full(root) && OneGroupEach(root)
    requires NestOf(root, g, root, x)
    ensures Unmarked(Flat(x))
  {
    NestReads(root, g, root, x);
    var ys := ListReads(root, false);
    var i :| 0 <= i < |ys| && ys[i] == Flat(x);
    RulesUnmarked(Pruned(KeptRules(ast, k), k), k);
    assert Moved(Compiled(ast, k)[i], Flat(x)) && Unmarked(Compiled(ast, k)[i]);
    MovedUnmarked(Compiled(ast, k)[i], Flat(x));
  }

  lemma MovedUnmarked(a: Alternative, b: Alternative)
    requires Moved(a, b) && Unmarked(a)
    ensures Unmarked(b)
  {
    if a != b {
      var i :| 0 <= i < |a| && a[i].spec.TargetSpec? && b == Move(a, i);
      forall l | l in b ensures !l.spec.OnewaySpec? {
        assert l in a;
      }
    }
  }

  lemma WalkStands(ast: RuleList, k: Lookup, v6: bool, fl: Flags, calls: seq<Call>, root: Tree, g: Graph, rk: Rank,
                   env: Env)
    requires BothWalk(ast, k, GroupBackend(v6, false, fl), calls, root, g, rk) && Deployed(calls, env)
    ensures Standing(root, calls, g, rk, GroupBackend(v6, false, fl), env) && OneGroupEach(root) && Full(root)
  {
    var b := GroupBackend(v6, false, fl);
    BothWalked(ast, k, b, calls, root, g, rk);
    GroupsAreTidy(root, g, rk, b);
    WalkFits(calls, root, g, rk, v6, false, fl, env);
    WalkedPart(root, g, rk, b);
    GroupsCount(root, g, rk, b, root);
  }

  /** The reply rules let a reply through exactly when some alternative of the filter lets it back. */
  lemma ReplyPassesExactly(ast: RuleList, k: Lookup, v6: bool, fl: Flags, calls: seq<Call>, root: Tree, g: Graph,
                           rk: Rank,
                          w: View, q: Packet)
    requires BothWalk(ast, k, GroupBackend(v6, false, fl), calls, root, g, rk) && Deployed(calls, w.env)
    requires ReplyTo(q, w.p) && (w.fwd ==> FlagsAgree(root, fl, true))
    ensures ReplyPasses(calls, false, Back(w, q), Height(rk, Root(root))) <==> ComesBack(root, g, fl, w)
  {
    var b, top := GroupBackend(v6, false, fl), Height(rk, Root(root));
    WalkStands(ast, k, v6, fl, calls, root, g, rk, w.env);
    if ReplyPasses(calls, false, Back(w, q), top) {
      var x := MainReturns(root, calls, g, rk, b, w, q, top);
      WholeOrParts(root, g, rk, b, x, w);
    }
    if ComesBack(root, g, fl, w) {
      var x :| NestOf(root, g, root, x) && LetsReplyBack(x, fl, w);
      WholeOrParts(root, g, rk, b, x, w);
      NestUnmarked(ast, k, root, g, x);
      MainLevel(root, calls, g, rk, b);
      NestReplied(root, calls, g, rk, b, calls, None, root, EMPTY, top, top, x, w, q, top);
    }
  }

  /** The loaded script accepts a reply, in the chain opposite to that of the packet it answers, exactly
      when some alternative of the filter that applies to that packet accepts it and names tcp or udp in
      its innermost group; any other reply is a packet like those that open a connection. */
  lemma RepliesExactly(ast: RuleList, k: Lookup, v6: bool, fl: Flags, calls: seq<Call>, root: Tree, g: Graph, rk: Rank,
                       style: Style, before: Ruleset, w: View, q: Packet, rs: Ruleset, depth: nat)
    requires Loads(ast, k, v6, false, fl, calls, root, g, rk, style, before, w.env, rs) && !w.fwd && ReplyTo(q, w.p)
    requires FlagsAgree(root, fl, false) && depth >= Height(rk, Root(root))
    ensures Filtered(rs, if w.d == Input then OUTPUT else INPUT, q, w.env, depth)
         == Some(if ComesBack(root, g, fl, w) then Accepted
                 else OrDrop(FirstOf(Compiled(ast, k), fl, Opposite(w.d), false, q, w.env)))
  {
    ReplyPassesExactly(ast, k, v6, fl, calls, root, g, rk, w, q);
    LocalPackets(ast, k, v6, false, fl, calls, root, g, rk, style, before, Back(w, q), rs, depth);
  }

  /** A forwarded reply gets through exactly when an input alternative lets it back or an output
      alternative accepts it, and an output alternative lets it back or an input one lets it on. */
  lemma ForwardedRepliesExactly(ast: RuleList, k: Lookup, v6: bool, fl: Flags, calls: seq<Call>, root: Tree, g: Graph,
                                rk: Rank, style: Style, before: Ruleset, p: Packet, q: Packet, env: Env, rs: Ruleset,
                                depth: nat)
    requires Loads(ast, k, v6, false, fl, calls, root, g, rk, style, before, env, rs) && ReplyTo(q, p)
    requires FlagsAgree(root, fl, true) && depth > 2 * Height(rk, Root(root))
    ensures var i, o, xs := View(Input, true, p, env), View(Output, true, p, env), Compiled(ast, k);
            Filtered(rs, FORWARD, q, env, depth) == Some(Accepted) <==>
              && (ComesBack(root, g, fl, i) || FirstOf(xs, fl, Output, true, q, env) == Some(Accepted))
              && (ComesBack(root, g, fl, o) || LetsOn(style, FirstOf(xs, fl, Input, true, q, env)))
  {
    ReplyPassesExactly(ast, k, v6, fl, calls, root, g, rk, View(Input, true, p, env), q);
    ReplyPassesExactly(ast, k, v6, fl, calls, root, g, rk, View(Output, true, p, env), q);
    ForwardedPackets(ast, k, v6, false, fl, calls, root, g, rk, style, before, q, env, rs, depth);
  }

  // ----- from an alternative of the source -----

  /** Every alternative of the source is one of the prepared filter, its target perhaps moved to the end,
      with brackets where it passes groups. */
  lemma SourceNest(ast: RuleList, k: Lookup, b: Backend, calls: seq<Call>, root: Tree, g: Graph, rk: Rank,
                   a: Alternative)
    returns (x: Nest)
    requires BothWalk(ast, k, b, calls, root, g, rk) && a in Compiled(ast, k)
    ensures NestOf(root, g, root, x) && Moved(a, Flat(x))
  {
    BothWalked(ast, k, b, calls, root, g, rk);
    var i :| 0 <= i < |Compiled(ast, k)| && Compiled(ast, k)[i] == a;
    x := EveryNest(root, g, rk, b, ListReads(root, false)[i]);
  }

  /** Moving the target changes nothing of what an alternative says. */
  lemma MovedSays(a: Alternative, b: Alternative, fl: Flags, p: Packet, env: Env)
    requires Moved(a, b) && EntryOf(EMPTY, a, fl).Some?
    ensures TargetIn(a) == TargetIn(b) && DirectionOf(a) == DirectionOf(b) && Routing(a, fl) == Routing(b, fl)
    ensures AlternativeHolds(a, p, env) <==> AlternativeHolds(b, p, env)
  {
    FoldMoved(EMPTY, a, b);
    FoldedEntry(a, fl);
    FoldedEntry(b, fl);
    EntryClaims(a, fl, p, env);
    EntryClaims(b, fl, p, env);
    FinalsTell(TargetIn(a), TargetIn(b));
  }

  lemma FinalsTell(s: Option<Target>, t: Option<Target>)
    requires Finals(s) == Finals(t)
    ensures s == t
  {
  }

  lemma {:induction false} EntryAmong(xs: seq<Alternative>, fl: Flags, a: Alternative)
    requires Entries(EMPTY, xs, fl).Some? && a in xs
    ensures EntryOf(EMPTY, a, fl).Some?
    decreases |xs|
  {
    if a != xs[0] {
      EntryAmong(xs[1..], fl, a);
    }
  }

  /** An alternative of the source that applies to a packet and accepts it. */
  predicate AppliesAccepting(a: Alternative, fl: Flags, w: View) {
    && DirectionOf(a) == Some(w.d) && AlternativeHolds(a, w.p, w.env) && TargetIn(a) == Some(Accept)
    && (w.fwd ==> Routing(a, fl) != Some(LocalOnly))
  }

  /** It lets the reply back if its innermost group, or the rule itself if it has none, names tcp or udp. */
  lemma SourceComesBack(ast: RuleList, k: Lookup, b: Backend, calls: seq<Call>, root: Tree, g: Graph, rk: Rank,
                        w: View, a: Alternative, x: Nest)
    requires BothWalk(ast, k, b, calls, root, g, rk) && a in Compiled(ast, k) && AppliesAccepting(a, b.flags, w)
    requires NestOf(root, g, root, x) && Moved(a, Flat(x)) && StatefulIn(Innermost(x))
    ensures ComesBack(root, g, b.flags, w)
  {
    EntryAmong(Compiled(ast, k), b.flags, a);
    MovedSays(a, Flat(x), b.flags, w.p, w.env);
    assert LetsReplyBack(x, b.flags, w);
  }

  lemma PassedInMain(rs: Ruleset, style: Style, es: seq<Entry>, W: set<Walk>, top: nat, cs: seq<Call>, w: View,
                     depth: nat)
    requires GroupedPackets.Ready(rs, style, false, es, W, top, cs, w) && !w.fwd && depth >= top
    requires Replied(es, None, false, w, top)
    ensures Filtered(rs, BaseFor(w.d, false), w.p, w.env, depth) == Some(Accepted)
  {
    MainEvaluates(rs, style, false, es, W, top, cs, w, None, -1, depth);
  }

  lemma PassedIsAccepted(ast: RuleList, k: Lookup, v6: bool, fl: Flags, calls: seq<Call>, root: Tree, g: Graph,
                         rk: Rank,
                         style: Style, before: Ruleset, w: View, rs: Ruleset, depth: nat)
    requires Loads(ast, k, v6, false, fl, calls, root, g, rk, style, before, w.env, rs) && !w.fwd && Tracked(w)
    requires depth >= Height(rk, Root(root)) && ReplyPasses(calls, false, w, Height(rk, Root(root)))
    ensures Filtered(rs, BaseFor(w.d, false), w.p, w.env, depth) == Some(Accepted)
  {
    LoadedReady(ast, k, v6, false, fl, calls, root, g, rk, style, before, w, rs);
    PassedInMain(rs, style, AllRules(calls), Walks(calls, rk), Height(rk, Root(root)), calls, w, depth);
  }

  /** Replies get back, through groups as well: when an alternative of the source that applies to a packet
      to or from the machine accepts it, and names tcp or udp in its innermost group, the loaded script
      accepts the reply in the opposite chain. */
  lemma GroupedRepliesGetBack(ast: RuleList, k: Lookup, v6: bool, fl: Flags, calls: seq<Call>, root: Tree, g: Graph,
                              rk: Rank, style: Style, before: Ruleset, w: View, q: Packet, rs: Ruleset, depth: nat,
                              a: Alternative, x: Nest)
    requires Loads(ast, k, v6, false, fl, calls, root, g, rk, style, before, w.env, rs) && !w.fwd && ReplyTo(q, w.p)
    requires a in Compiled(ast, k) && AppliesAccepting(a, fl, w) && depth >= Height(rk, Root(root))
    requires NestOf(root, g, root, x) && Moved(a, Flat(x)) && StatefulIn(Innermost(x))
    ensures Filtered(rs, if w.d == Input then OUTPUT else INPUT, q, w.env, depth) == Some(Accepted)
  {
    SourceComesBack(ast, k, GroupBackend(v6, false, fl), calls, root, g, rk, w, a, x);
    ReplyPassesExactly(ast, k, v6, fl, calls, root, g, rk, w, q);
    PassedIsAccepted(ast, k, v6, fl, calls, root, g, rk, style, before, Back(w, q), rs, depth);
  }

  /** And through the router, when an input and an output alternative do so. */
  lemma ForwardedGroupedRepliesGetBack(ast: RuleList, k: Lookup, v6: bool, fl: Flags, calls: seq<Call>, root: Tree,
                                       g: Graph, rk: Rank, style: Style, before: Ruleset, p: Packet, q: Packet,
                                       env: Env, rs: Ruleset, depth: nat, a: Alternative, x: Nest, c: Alternative,
                                       y: Nest)
    requires Loads(ast, k, v6, false, fl, calls, root, g, rk, style, before, env, rs) && ReplyTo(q, p)
    requires FlagsAgree(root, fl, true) && depth > 2 * Height(rk, Root(root))
    requires a in Compiled(ast, k) && AppliesAccepting(a, fl, View(Input, true, p, env))
    requires NestOf(root, g, root, x) && Moved(a, Flat(x)) && StatefulIn(Innermost(x))
    requires c in Compiled(ast, k) && AppliesAccepting(c, fl, View(Output, true, p, env))
    requires NestOf(root, g, root, y) && Moved(c, Flat(y)) && StatefulIn(Innermost(y))
    ensures Filtered(rs, FORWARD, q, env, depth) == Some(Accepted)
  {
    var b := GroupBackend(v6, false, fl);
    SourceComesBack(ast, k, b, calls, root, g, rk, View(Input, true, p, env), a, x);
    SourceComesBack(ast, k, b, calls, root, g, rk, View(Output, true, p, env), c, y);
    ForwardedRepliesExactly(ast, k, v6, fl, calls, root, g, rk, style, before, p, q, env, rs, depth);
  }

  // ----- a protocol named outside the group -----

  const TCP_GIVEN := Literal(ProtoSpec(Proto(TCP, "tcp")), false)

  function TcpEntry(): Entry { DirectedEntry().(proto := Some(Proto(TCP, "tcp"))) }

  function AcceptingEntry(e: Entry): Entry { e.(whatsSet := e.whatsSet + {TargetBit}, target := Some(Final(Accept))) }

  /** The entries of `input * proto tcp [ "g" accept ]`, and of the same with the group inlined. */
  lemma OutsideEntries()
    ensures Fold(EMPTY, [INPUT_ANY, TCP_GIVEN]) == Some(TcpEntry())
    ensures EntryOf(EMPTY, [INPUT_ANY, TCP_GIVEN, ACCEPT_IT], NOFLAGS) == Some(AcceptingEntry(TcpEntry()))
    ensures EntryOf(GroupEntry(TcpEntry(), "g"), [ACCEPT_IT], NOFLAGS)
        == Some(AcceptingEntry(GroupEntry(TcpEntry(), "g")))
    ensures Finish(AssignGroup(TcpEntry(), "g"), NOFLAGS) == Some(AssignGroup(TcpEntry(), "g"))
  {
    assert EMPTY.whatsSet + {DirectionBit} == {DirectionBit};
    FoldTwo(EMPTY, INPUT_ANY, TCP_GIVEN);
    FoldStep(EMPTY, INPUT_ANY, [TCP_GIVEN, ACCEPT_IT]);
    assert [INPUT_ANY] + [TCP_GIVEN, ACCEPT_IT] == [INPUT_ANY, TCP_GIVEN, ACCEPT_IT];
    FoldTwo(DirectedEntry(), TCP_GIVEN, ACCEPT_IT);
    FoldStep(GroupEntry(TcpEntry(), "g"), ACCEPT_IT, []);
    assert [ACCEPT_IT] == [ACCEPT_IT] + [];
  }

  /** The calls of `input * proto tcp [ "g" accept ]`. */
  function OutsideCalls(n: Filter): seq<Call> {
    var e := TcpEntry();
    [GroupCall("g", n, e, [RuleCall(AcceptingEntry(GroupEntry(e, "g")))]), RuleCall(AssignGroup(e, "g"))]
  }

  lemma OutsideRules(n: Filter)
    ensures var cs, body, jump := OutsideCalls(n), AcceptingEntry(GroupEntry(TcpEntry(), "g")),
    AssignGroup(TcpEntry(), "g");
            && AllRules(cs) == [body, jump] && Rules(cs) == [jump] && GroupNames(cs) == ["g"]
                && ChainIn(cs, "g") == [body]
            && Announced(cs, {}) && AllFit(cs) && (forall m: string | m != "g" :: ChainIn(cs, m) == [])
  {
    var cs, body, jump := OutsideCalls(n), AcceptingEntry(GroupEntry(TcpEntry(), "g")), AssignGroup(TcpEntry(), "g");
    var c := [RuleCall(body)];
    assert cs[1..] == [RuleCall(jump)] && [RuleCall(jump)][1..] == [] && c[1..] == [];
    assert Rules([RuleCall(jump)]) == [jump] + Rules([]);
    assert Rules(cs) == [] + Rules([RuleCall(jump)]) == [jump];
    assert AllRules(c) == [body] + [] && AllRules([RuleCall(jump)]) == [jump] + [];
    assert AllFit(c) && AllFit([RuleCall(jump)]);
    assert Announced(c, {"g"}) && Announced([RuleCall(jump)], {"g"});
    assert {} + {"g"} == {"g"};
  }

  lemma OutsideSorted(n: Filter)
    ensures Sorted(AllRules(OutsideCalls(n)), {Walk("g", Some(Input), 0)}, 1, OutsideCalls(n))
  {
    var cs, body, jump := OutsideCalls(n), AcceptingEntry(GroupEntry(TcpEntry(), "g")), AssignGroup(TcpEntry(), "g");
    var k := Walk("g", Some(Input), 0);
    OutsideRules(n);
    assert Placed(jump, {k}, 1) by { assert k in {k}; }
    assert PlacedIn(body, {k}, 1) by { assert k in {k} && Placed(body, {k}, 0); }
    forall m: string ensures InGroup([body, jump], Some(m)) == ChainIn(cs, m) { ChainRules(cs, m); }
    InGroupOne(jump, None);
    assert [body, jump][1..] == [jump] && InGroup([body, jump], None) == [] + InGroup([jump], None);
  }

  lemma OutsideReady(n: Filter, rs: Ruleset, style: Style, w: View)
    requires Holding(rs, style, false, AllRules(OutsideCalls(n)), {"g"}) && Tracked(w) && w.env.protoNum("tcp") == TCP
    ensures GroupedPackets.Ready(rs, style, false, AllRules(OutsideCalls(n)), {Walk("g", Some(Input), 0)}, 1,
                                 OutsideCalls(n), w)
  {
    var k := Walk("g", Some(Input), 0);
    OutsideSorted(n);
    OutsideRules(n);
    assert NamesOf({k}) == {"g"} by { assert k in {k}; }
  }

  /** The reply to a packet it accepts is let back by nobody. */
  lemma OutsideUnanswered(n: Filter, w: View, top: nat)
    requires w.d == Output
    ensures !Replied(AllRules(OutsideCalls(n)), None, false, w, top)
    ensures forall style, out, cs, depth: nat :: Decided(style, out, Rules(OutsideCalls(n)), cs, w, depth) == None
  {
    var es := AllRules(OutsideCalls(n));
    OutsideRules(n);
    assert [AssignGroup(TcpEntry(), "g")][1..] == [];
    forall e | e in es && e.groupname == None ensures !Replies(es, e, false, w, top) {
      if Replies(es, e, false, w, top) {
        assert e == AssignGroup(TcpEntry(), "g");
        var d := NextReply(es, e, "g", w, top);
      }
    }
  }

  /** With the protocol outside the group, `input * proto tcp [ "g" accept ]`, the connection is accepted
      and its replies are dropped; with the group inlined they get back. */
  lemma ProtocolOutside(n: Filter, style: Style, before: Ruleset, p: Packet, q: Packet, env: Env, depth: nat)
    requires p.state == New && p.proto == TCP && ReplyTo(q, p) && env.protoNum("tcp") == TCP && depth >= 1
    ensures EntryOf(EMPTY, [INPUT_ANY, TCP_GIVEN, ACCEPT_IT], NOFLAGS).Some?
    ensures var inlined := EntryOf(EMPTY, [INPUT_ANY, TCP_GIVEN, ACCEPT_IT], NOFLAGS).value;
            AllPlain([inlined])
                && Filtered(Loaded(style, false, [inlined], before), OUTPUT, q, env, depth) == Some(Accepted)
    ensures var e := Fold(EMPTY, [INPUT_ANY, TCP_GIVEN]);
            && e.Some? && var body, jump := EntryOf(GroupEntry(e.value, "g"), [ACCEPT_IT], NOFLAGS),
                                            Finish(AssignGroup(e.value, "g"), NOFLAGS);
            && body.Some? && jump.Some?
            && var cs := [GroupCall("g", n, e.value, [RuleCall(body.value)]), RuleCall(jump.value)];
            && var rs := Load(GroupScript(style, true, false, cs), before);
            && rs.Some? && Filtered(rs.value, INPUT, p, env, depth) == Some(Accepted)
            && Filtered(rs.value, OUTPUT, q, env, depth) == Some(Dropped)
  {
    OutsideEntries();
    OutsideInlined(style, before, p, q, env, depth);
    OutsideGrouped(n, style, before, p, q, env, depth);
  }

  lemma OutsideInlined(style: Style, before: Ruleset, p: Packet, q: Packet, env: Env, depth: nat)
    requires p.state == New && p.proto == TCP && ReplyTo(q, p) && env.protoNum("tcp") == TCP && depth >= 1
    ensures var inlined := AcceptingEntry(TcpEntry());
            AllPlain([inlined])
                && Filtered(Loaded(style, false, [inlined], before), OUTPUT, q, env, depth) == Some(Accepted)
  {
    var e := AcceptingEntry(TcpEntry());
    assert [e][1..] == [] && Hits(e, Input, false, p, env);
    RepliesGetBack(style, [e], before, Input, p, q, env, depth);
  }

  lemma OutsideLoads(n: Filter, style: Style, before: Ruleset) returns (rs: Ruleset)
    ensures Load(GroupScript(style, true, false, OutsideCalls(n)), before) == Some(rs)
    ensures Holding(rs, style, false, AllRules(OutsideCalls(n)), {"g"})
  {
    var cs := OutsideCalls(n);
    OutsideRules(n);
    GroupScriptLoads(style, false, cs, before);
    LoadedChains(style, false, cs, before.policy);
    rs := Load(GroupScript(style, true, false, cs), before).value;
    assert NameSet(cs) == {"g"};
  }

  lemma OutsideGrouped(n: Filter, style: Style, before: Ruleset, p: Packet, q: Packet, env: Env, depth: nat)
    requires p.state == New && p.proto == TCP && ReplyTo(q, p) && env.protoNum("tcp") == TCP && depth >= 1
    ensures var rs := Load(GroupScript(style, true, false, OutsideCalls(n)), before);
            && rs.Some? && Filtered(rs.value, INPUT, p, env, depth) == Some(Accepted)
            && Filtered(rs.value, OUTPUT, q, env, depth) == Some(Dropped)
  {
    var rs := OutsideLoads(n, style, before);
    OutsideIn(n, rs, style, View(Input, false, p, env), depth);
    OutsideOut(n, rs, style, View(Output, false, q, env), depth);
  }

  lemma OutsideIn(n: Filter, rs: Ruleset, style: Style, w: View, depth: nat)
    requires Holding(rs, style, false, AllRules(OutsideCalls(n)), {"g"}) && w.env.protoNum("tcp") == TCP
    requires w.d == Input && !w.fwd && w.p.proto == TCP && w.p.state == New && depth >= 1
    ensures Filtered(rs, INPUT, w.p, w.env, depth) == Some(Accepted)
  {
    var es, cs := AllRules(OutsideCalls(n)), OutsideCalls(n);
    OutsideReady(n, rs, style, w);
    MainEvaluates(rs, style, false, es, {Walk("g", Some(Input), 0)}, 1, cs, w, None, -1, depth);
    OutsideAccepts(n, style, w, depth);
  }

  lemma OutsideOut(n: Filter, rs: Ruleset, style: Style, w: View, depth: nat)
    requires Holding(rs, style, false, AllRules(OutsideCalls(n)), {"g"}) && w.env.protoNum("tcp") == TCP
    requires w.d == Output && !w.fwd && Tracked(w) && depth >= 1
    ensures Filtered(rs, OUTPUT, w.p, w.env, depth) == Some(Dropped)
  {
    var es, cs := AllRules(OutsideCalls(n)), OutsideCalls(n);
    OutsideReady(n, rs, style, w);
    MainEvaluates(rs, style, false, es, {Walk("g", Some(Input), 0)}, 1, cs, w, None, -1, depth);
    OutsideUnanswered(n, w, 1);
    assert MainHolds(rs, style, false, es, Output, false);
  }

  lemma OutsideAccepts(n: Filter, style: Style, w: View, depth: nat)
    requires w.d == Input && !w.fwd && w.p.proto == TCP && depth >= 1
    ensures Decided(style, None, Rules(OutsideCalls(n)), OutsideCalls(n), w, depth) == Some(Accepted)
  {
    OutsideRules(n);
    var body, jump := AcceptingEntry(GroupEntry(TcpEntry(), "g")), AssignGroup(TcpEntry(), "g");
    assert [jump][1..] == [] && [body][1..] == [] && Meets(jump, w) && Meets(body, w);
    DecidedOne(style, None, body, OutsideCalls(n), w, depth - 1);
    DecidedOne(style, None, jump, OutsideCalls(n), w, depth);
  }
}
