/** The cross product of `gen.c`: a depth-first walk of the prepared graph that hands one entry to
    the rule callback per path, and its refinement of "flatten to paths, then fold each path". */
module RuleWalk {
  import opened FilterSpec
  import opened FilterEntry
  import opened FilterGraph

  /** The callbacks a back end supplies: the value of its rule callback on an entry, and whether it
      has a group callback at all. */
  datatype Backend = Backend(rule: Entry -> int, groups: bool, flags: Flags)

  /** The callbacks made, in order; those made while a group's body is walked are inside it.  The node
      of a group and the entry it is met with are noted too, although the group callback does not see them. */
  datatype Call = RuleCall(entry: Entry) | GroupCall(name: string, at: Filter, from: Entry, body: seq<Call>)

  function Rules(cs: seq<Call>): seq<Entry> {
    if cs == [] then [] else (if cs[0].RuleCall? then [cs[0].entry] else []) + Rules(cs[1..])
  }

  lemma {:induction false} RulesAppend(cs: seq<Call>, ds: seq<Call>)
    ensures Rules(cs + ds) == Rules(cs) + Rules(ds)
  {
    if cs == [] {
      assert cs + ds == ds;
    } else {
      RulesAppend(cs[1..], ds);
      assert (cs + ds)[1..] == cs[1..] + ds;
    }
  }

  // ----- the specification: fold the paths one after the other -----

  /** The entries handed to the rule callback, and what the walk returns. */
  datatype Outcome = Outcome(rules: seq<Entry>, result: int)

  datatype Progress = Stop(code: int) | Go(entry: Entry)

  ghost predicate PathsBelow(g: Graph, rk: Rank, ps: seq<Path>, bound: nat) {
    forall i | 0 <= i < |ps| :: PathBelow(g, rk, ps[i], bound)
  }

  ghost predicate PathBelow(g: Graph, rk: Rank, p: Path, bound: nat) {
    forall j | 0 <= j < |p| :: p[j] in g && p[j] in rk && rk[p[j]] < bound
  }

  lemma {:induction false} CrossBelow(g: Graph, rk: Rank, ps: seq<Path>, qs: seq<Path>, bound: nat)
    requires PathsBelow(g, rk, ps, bound) && PathsBelow(g, rk, qs, bound)
    ensures PathsBelow(g, rk, Cross(ps, qs), bound)
  {
    if ps != [] {
      CrossBelow(g, rk, ps[1..], qs, bound);
    }
  }

  lemma {:induction false} ChainBelow(g: Graph, rk: Rank, f: Filter?, bound: nat)
    requires Ranked(g, rk) && In(g, f) && Height(rk, f) <= bound
    ensures PathsBelow(g, rk, ChainPaths(g, rk, f), bound)
    decreases Height(rk, f), 0
  {
    if f != null {
      ChainBelow(g, rk, g[f].child, bound);
      if g[f].u.Siblings? {
        ListBelow(g, rk, g[f].u.siblings, bound);
        CrossBelow(g, rk, ListPaths(g, rk, g[f].u.siblings), ChainPaths(g, rk, g[f].child), bound);
      }
    }
  }

  lemma {:induction false} ListBelow(g: Graph, rk: Rank, f: Filter?, bound: nat)
    requires Ranked(g, rk) && In(g, f) && Height(rk, f) <= bound
    ensures PathsBelow(g, rk, ListPaths(g, rk, f), bound)
    decreases Height(rk, f), 1
  {
    if f != null {
      ChainBelow(g, rk, f, bound);
      ListBelow(g, rk, g[f].next, bound);
    }
  }

  /** One node of a path.  A group's body is walked on its own; its rules do not count here, but
      its failure is the path's failure. */
  ghost function Step(g: Graph, rk: Rank, b: Backend, e: Entry, n: Filter): Progress
    requires Ranked(g, rk) && n in g
    decreases rk[n], 3
  {
    match g[n].u
    case Leaf(s) =>
      (match ApplyLiteral(e, Literal(s, g[n].negate))
       case None => Stop(-1)
       case Some(e') => Go(e'))
    case Subgroup(name, l) =>
      if RefusesGroup(e) || !b.groups then Stop(-1)
      else
        var body := RunList(g, rk, b, GroupEntry(e, name), l);
        if body.result < 0 then Stop(body.result) else Go(Mark(AssignGroup(e, name), SubgroupBit, g[n].negate))
    case _ => Stop(-1)
  }

  ghost function RunList(g: Graph, rk: Rank, b: Backend, e: Entry, l: Filter?): Outcome
    requires Ranked(g, rk) && In(g, l)
    decreases Height(rk, l), 2
  {
    ListBelow(g, rk, l, Height(rk, l));
    Run(g, rk, b, e, ListPaths(g, rk, l), Height(rk, l))
  }

  ghost function RunPath(g: Graph, rk: Rank, b: Backend, e: Entry, p: Path, bound: nat): Outcome
    requires Ranked(g, rk) && PathBelow(g, rk, p, bound)
    decreases bound, 0, |p|
  {
    if p == [] then
      match Finish(e, b.flags)
      case None => Outcome([], -1)
      case Some(d) => Outcome([d], b.rule(d))
    else
      match Step(g, rk, b, e, p[0])
      case Stop(code) => Outcome([], code)
      case Go(e') => RunPath(g, rk, b, e', p[1..], bound)
  }

  /** Two stretches of the walk in a row: the second happens only if the first succeeds. */
  function Then(o: Outcome, r: Outcome): Outcome {
    if o.result < 0 then o
    else Outcome(o.rules + r.rules, if r.result < 0 then r.result else o.result + r.result)
  }

  /** The paths one after the other, each from the same entry, up to the first failure. */
  ghost function Run(g: Graph, rk: Rank, b: Backend, e: Entry, ps: seq<Path>, bound: nat): Outcome
    requires Ranked(g, rk) && PathsBelow(g, rk, ps, bound)
    decreases bound, 1, |ps|
  {
    if ps == [] then Outcome([], 0)
    else Then(RunPath(g, rk, b, e, ps[0], bound), Run(g, rk, b, e, ps[1..], bound))
  }

  // ----- laws of Run -----

  lemma ThenAssoc(a: Outcome, b: Outcome, c: Outcome)
    ensures Then(Then(a, b), c) == Then(a, Then(b, c))
  {
    assert (a.rules + b.rules) + c.rules == a.rules + (b.rules + c.rules);
  }

  lemma ThenNone(a: Outcome)
    ensures Then(Outcome([], 0), a) == a && Then(a, Outcome([], 0)) == a
  {
    assert a.rules + [] == a.rules && [] + a.rules == a.rules;
  }

  lemma {:induction false} RunPathBound(g: Graph, rk: Rank, b: Backend, e: Entry, p: Path, m: nat, n: nat)
    requires Ranked(g, rk) && PathBelow(g, rk, p, m) && PathBelow(g, rk, p, n)
    ensures RunPath(g, rk, b, e, p, m) == RunPath(g, rk, b, e, p, n)
    decreases |p|
  {
    if p != [] {
      match Step(g, rk, b, e, p[0])
      case Stop(_) =>
      case Go(e') => RunPathBound(g, rk, b, e', p[1..], m, n);
    }
  }

  lemma {:induction false} RunBound(g: Graph, rk: Rank, b: Backend, e: Entry, ps: seq<Path>, m: nat, n: nat)
    requires Ranked(g, rk) && PathsBelow(g, rk, ps, m) && PathsBelow(g, rk, ps, n)
    ensures Run(g, rk, b, e, ps, m) == Run(g, rk, b, e, ps, n)
  {
    if ps != [] {
      RunPathBound(g, rk, b, e, ps[0], m, n);
      RunBound(g, rk, b, e, ps[1..], m, n);
    }
  }

  lemma {:induction false} RunAppend(g: Graph, rk: Rank, b: Backend, e: Entry, ps: seq<Path>, qs: seq<Path>, n: nat)
    requires Ranked(g, rk) && PathsBelow(g, rk, ps, n) && PathsBelow(g, rk, qs, n)
    ensures PathsBelow(g, rk, ps + qs, n)
    ensures Run(g, rk, b, e, ps + qs, n) == Then(Run(g, rk, b, e, ps, n), Run(g, rk, b, e, qs, n))
  {
    if ps == [] {
      assert ps + qs == qs;
      ThenNone(Run(g, rk, b, e, qs, n));
    } else {
      RunAppend(g, rk, b, e, ps[1..], qs, n);
      assert (ps + qs)[0] == ps[0] && (ps + qs)[1..] == ps[1..] + qs;
      ThenAssoc(RunPath(g, rk, b, e, ps[0], n), Run(g, rk, b, e, ps[1..], n), Run(g, rk, b, e, qs, n));
    }
  }

  lemma StopIsFailure(g: Graph, rk: Rank, b: Backend, e: Entry, n: Filter)
    requires Ranked(g, rk) && n in g
    ensures Step(g, rk, b, e, n).Stop? ==> Step(g, rk, b, e, n).code < 0
  {
  }

  /** A node shared by several paths is applied once for all of them. */
  lemma {:induction false} RunPrefix(g: Graph, rk: Rank, b: Backend, e: Entry, n: Filter, qs: seq<Path>, bound: nat)
    requires Ranked(g, rk) && n in g && PathBelow(g, rk, [n], bound) && PathsBelow(g, rk, qs, bound) && qs != []
    ensures PathsBelow(g, rk, Prefix([n], qs), bound)
    ensures Run(g, rk, b, e, Prefix([n], qs), bound)
         == match Step(g, rk, b, e, n)
            case Stop(code) => Outcome([], code)
            case Go(e') => Run(g, rk, b, e', qs, bound)
  {
    var ps := Prefix([n], qs);
    assert ps[0][0] == n && ps[0][1..] == qs[0];
    StopIsFailure(g, rk, b, e, n);
    if |qs| > 1 {
      assert ps[1..] == Prefix([n], qs[1..]);
      RunPrefix(g, rk, b, e, n, qs[1..], bound);
    } else {
      assert ps[1..] == [] == qs[1..];
    }
  }

  lemma {:induction false} RunPathNonzero(g: Graph, rk: Rank, b: Backend, e: Entry, p: Path, bound: nat)
    requires Ranked(g, rk) && PathBelow(g, rk, p, bound) && forall d :: b.rule(d) != 0
    ensures RunPath(g, rk, b, e, p, bound).result != 0
    decreases |p|
  {
    if p != [] {
      StopIsFailure(g, rk, b, e, p[0]);
      match Step(g, rk, b, e, p[0])
      case Stop(_) =>
      case Go(e') => RunPathNonzero(g, rk, b, e', p[1..], bound);
    }
  }

  lemma {:induction false} RunNonzero(g: Graph, rk: Rank, b: Backend, e: Entry, ps: seq<Path>, bound: nat)
    requires Ranked(g, rk) && PathsBelow(g, rk, ps, bound) && forall d :: b.rule(d) != 0
    ensures ps != [] ==> Run(g, rk, b, e, ps, bound).result != 0
  {
    if ps != [] {
      RunPathNonzero(g, rk, b, e, ps[0], bound);
      RunNonzero(g, rk, b, e, ps[1..], bound);
    }
  }

  // ----- what the walk may assume of a prepared graph -----

  ghost predicate Walkable(g: Graph) {
    forall f | f in g && g[f].u.Siblings? :: g[f].child == null && g[f].u.siblings != null
  }

  lemma {:induction false} ChainNonempty(g: Graph, rk: Rank, f: Filter?)
    requires Ranked(g, rk) && In(g, f) && Walkable(g)
    ensures ChainPaths(g, rk, f) != []
    decreases Height(rk, f)
  {
    if f != null {
      ChainNonempty(g, rk, g[f].child);
      if g[f].u.Siblings? {
        ChainNonempty(g, rk, g[f].u.siblings);
      }
    }
  }

  ghost function RunChain(g: Graph, rk: Rank, b: Backend, e: Entry, f: Filter?): Outcome
    requires Ranked(g, rk) && In(g, f)
  {
    ChainBelow(g, rk, f, Height(rk, f));
    Run(g, rk, b, e, ChainPaths(g, rk, f), Height(rk, f))
  }

  /** The walk of a list is the walk of its first chain, then that of the rest. */
  lemma RunListStep(g: Graph, rk: Rank, b: Backend, e: Entry, f: Filter)
    requires Ranked(g, rk) && f in g
    ensures RunList(g, rk, b, e, f) == Then(RunChain(g, rk, b, e, f), RunList(g, rk, b, e, g[f].next))
  {
    var h := Height(rk, f);
    ChainBelow(g, rk, f, h);
    ListBelow(g, rk, g[f].next, h);
    ListBelow(g, rk, g[f].next, Height(rk, g[f].next));
    RunAppend(g, rk, b, e, ChainPaths(g, rk, f), ListPaths(g, rk, g[f].next), h);
    RunBound(g, rk, b, e, ListPaths(g, rk, g[f].next), h, Height(rk, g[f].next));
  }

  lemma RunChainEnd(g: Graph, rk: Rank, b: Backend, e: Entry)
    requires Ranked(g, rk)
    ensures RunChain(g, rk, b, e, null)
        == match Finish(e, b.flags) case None => Outcome([], -1) case Some(d) => Outcome([d], b.rule(d))
  {
    var ps: seq<Path> := [[]];
    assert ChainPaths(g, rk, null) == ps && ps[0] == [] && ps[1..] == [];
    ThenNone(RunPath(g, rk, b, e, [], 0));
    assert Run(g, rk, b, e, ps, 0) == Then(RunPath(g, rk, b, e, ps[0], 0), Run(g, rk, b, e, ps[1..], 0));
  }

  /** The walk of a chain: apply its first node, then walk what follows. */
  lemma RunChainStep(g: Graph, rk: Rank, b: Backend, e: Entry, f: Filter)
    requires Ranked(g, rk) && f in g && Walkable(g)
    ensures RunChain(g, rk, b, e, f)
         == if g[f].u.Siblings? then RunList(g, rk, b, e, g[f].u.siblings)
            else match Step(g, rk, b, e, f)
                 case Stop(code) => Outcome([], code)
                 case Go(e') => RunChain(g, rk, b, e', g[f].child)
  {
    var h := Height(rk, f);
    ChainBelow(g, rk, f, h);
    if g[f].u.Siblings? {
      var l := g[f].u.siblings;
      ListBelow(g, rk, l, h);
      ListBelow(g, rk, l, Height(rk, l));
      assert ChainPaths(g, rk, g[f].child) == [[]];
      CrossUnit(ListPaths(g, rk, l));
      RunBound(g, rk, b, e, ListPaths(g, rk, l), h, Height(rk, l));
    } else {
      var c := g[f].child;
      ChainNonempty(g, rk, c);
      ChainBelow(g, rk, c, h);
      ChainBelow(g, rk, c, Height(rk, c));
      assert ChainPaths(g, rk, f) == Prefix([f], ChainPaths(g, rk, c));
      RunPrefix(g, rk, b, e, f, ChainPaths(g, rk, c), h);
      assert RunChain(g, rk, b, e, f) == Run(g, rk, b, e, Prefix([f], ChainPaths(g, rk, c)), h);
      match Step(g, rk, b, e, f)
      case Stop(_) =>
      case Go(e') => RunBound(g, rk, b, e', ChainPaths(g, rk, c), h, Height(rk, c));
    }
  }

  lemma RunListNonzero(g: Graph, rk: Rank, b: Backend, e: Entry, l: Filter)
    requires Ranked(g, rk) && l in g && Walkable(g) && forall d :: b.rule(d) != 0
    ensures RunList(g, rk, b, e, l).result != 0
  {
    ChainNonempty(g, rk, l);
    ListBelow(g, rk, l, Height(rk, l));
    RunNonzero(g, rk, b, e, ListPaths(g, rk, l), Height(rk, l));
  }

  // ----- chains exist before they are used -----

  /** The groups whose bodies have been walked, each with the direction its body inherited. */
  type Known = set<(string, Option<Direction>)>

  /** Outside groups a direction comes with its interface.  If the entry jumps to a group, the group's
      body has been walked in the entry's direction, unless the entry has been given its direction
      after the group, or in a group anew. */
  ghost predicate Aimed(e: Entry, known: Known) {
    (e.groupname.None? && e.direction.Some? ==> e.iface.Some?) &&
    (e.subgroup.Some? ==>
       exists d :: (e.subgroup.value, d) in known
           && (d == e.direction || d.None? || (e.groupname.Some? && e.iface.Some?)))
  }

  /** The calls made while a group's body is walked hand over what walking the group's list gives. */
  ghost predicate IsBody(g: Graph, rk: Rank, b: Backend, c: Call, ok: bool)
    requires Ranked(g, rk) && c.GroupCall?
  {
    && c.at in g && g[c.at].u.Subgroup? && g[c.at].u.name == c.name
    && var o := RunList(g, rk, b, GroupEntry(c.from, c.name), g[c.at].u.list);
       o.rules == Rules(c.body) && (ok ==> o.result >= 0)
  }

  /** A trace of calls made in the group `group`, below the rank `bound`: rules are appended to the
      chain that is being built, and jump only to groups whose bodies come before them; the bodies are
      such traces themselves. */
  ghost predicate Trace(cs: seq<Call>, group: Option<string>, known: Known, g: Graph, rk: Rank, b: Backend, ok: bool,
                        bound: nat)
    requires Ranked(g, rk)
    decreases cs
  {
    cs != [] ==>
      match cs[0]
      case RuleCall(d) => d.groupname == group && Aimed(d, known) && Trace(cs[1..], group, known, g, rk, b, ok, bound)
      case GroupCall(name, at, from, body) =>
        && from.groupname == group && IsBody(g, rk, b, cs[0], ok) && rk[at] < bound
        && Trace(body, Some(name), {}, g, rk, b, ok, rk[at])
        && Trace(cs[1..], group, known + {(name, from.direction)}, g, rk, b, ok, bound)
  }

  lemma {:induction false} TraceMore(cs: seq<Call>, group: Option<string>, known: Known, more: Known, g: Graph,
                                     rk: Rank, b: Backend,
                                     ok: bool, ok': bool, bound: nat, bound': nat)
    requires Ranked(g, rk) && Trace(cs, group, known, g, rk, b, ok, bound) && known <= more && (ok' ==> ok)
        && bound <= bound'
    ensures Trace(cs, group, more, g, rk, b, ok', bound')
    decreases cs
  {
    if cs != [] {
      match cs[0]
      case RuleCall(d) =>
        TraceMore(cs[1..], group, known, more, g, rk, b, ok, ok', bound, bound');
      case GroupCall(name, at, from, body) =>
        TraceMore(body, Some(name), {}, {}, g, rk, b, ok, ok', rk[at], rk[at]);
        TraceMore(cs[1..], group, known + {(name, from.direction)}, more + {(name, from.direction)}, g, rk, b, ok, ok',
                  bound, bound');
    }
  }

  lemma {:induction false} TraceAppend(cs: seq<Call>, ds: seq<Call>, group: Option<string>, known: Known, g: Graph,
                                       rk: Rank, b: Backend,
                                       ok: bool, bound: nat)
    requires Ranked(g, rk) && Trace(cs, group, known, g, rk, b, ok, bound)
    requires Trace(ds, group, known, g, rk, b, ok, bound)
    ensures Trace(cs + ds, group, known, g, rk, b, ok, bound)
    decreases |cs|
  {
    if cs == [] {
      assert cs + ds == ds;
    } else {
      assert (cs + ds)[0] == cs[0] && (cs + ds)[1..] == cs[1..] + ds;
      match cs[0]
      case RuleCall(_) =>
        TraceAppend(cs[1..], ds, group, known, g, rk, b, ok, bound);
      case GroupCall(name, at, from, body) =>
        TraceMore(ds, group, known, known + {(name, from.direction)}, g, rk, b, ok, ok, bound, bound);
        TraceAppend(cs[1..], ds, group, known + {(name, from.direction)}, g, rk, b, ok, bound);
    }
  }

  /** Every rule is appended to and jumps to chains that are known or created by a group callback
      made before it, and a jump comes after the whole body of its group. */
  predicate Announced(cs: seq<Call>, known: set<string>)
    decreases cs
  {
    cs != [] ==>
      match cs[0]
      case RuleCall(d) => Names(d) <= known && Announced(cs[1..], known)
      case GroupCall(name, _, _, body) => Announced(body, known + {name}) && Announced(cs[1..], known + {name})
  }

  /** In every trace the chains exist before they are used. */
  lemma {:induction false} TraceAnnounced(cs: seq<Call>, group: Option<string>, known: Known, names: set<string>,
                                          g: Graph, rk: Rank, b: Backend, ok: bool, bound: nat)
    requires Ranked(g, rk) && Trace(cs, group, known, g, rk, b, ok, bound)
    requires (group.Some? ==> group.value in names) && forall k | k in known :: k.0 in names
    ensures Announced(cs, names)
    decreases cs
  {
    if cs != [] {
      match cs[0]
      case RuleCall(d) =>
        TraceAnnounced(cs[1..], group, known, names, g, rk, b, ok, bound);
      case GroupCall(name, at, from, body) =>
        TraceAnnounced(body, Some(name), {}, names + {name}, g, rk, b, ok, rk[at]);
        TraceAnnounced(cs[1..], group, known + {(name, from.direction)}, names + {name}, g, rk, b, ok, bound);
    }
  }

  // ----- the walk -----

  /** `__fg_applylist`. */
  method ApplyList(e: Entry, f: Filter?, b: Backend, ghost S: set<Filter>, ghost g: Graph, ghost rk: Rank,
                   ghost known: Known)
    returns (calls: seq<Call>, c: int)
    requires Snap(S) == g && Ranked(g, rk) && In(g, f) && Walkable(g) && (forall d :: b.rule(d) != 0) && Aimed(e, known)
    ensures Outcome(Rules(calls), c) == RunList(g, rk, b, e, f)
    ensures Trace(calls, e.groupname, known, g, rk, b, c >= 0, Height(rk, f))
    decreases Height(rk, f), 3
  {
    calls, c := [], 0;
    var s := f;
    ThenNone(RunList(g, rk, b, e, f));
    while s != null
      invariant In(g, s) && Height(rk, s) <= Height(rk, f) && c >= 0
      invariant RunList(g, rk, b, e, f) == Then(Outcome(Rules(calls), c), RunList(g, rk, b, e, s))
      invariant Trace(calls, e.groupname, known, g, rk, b, true, Height(rk, f))
      decreases Height(rk, s)
    {
      RunListStep(g, rk, b, e, s);
      var cs, c' := Apply(e, s, b, S, g, rk, known);
      ThenAssoc(Outcome(Rules(calls), c), Outcome(Rules(cs), c'), RunList(g, rk, b, e, g[s].next));
      RulesAppend(calls, cs);
      TraceMore(calls, e.groupname, known, known, g, rk, b, true, c' >= 0, Height(rk, f), Height(rk, f));
      TraceMore(cs, e.groupname, known, known, g, rk, b, c' >= 0, c' >= 0, Height(rk, s), Height(rk, f));
      TraceAppend(calls, cs, e.groupname, known, g, rk, b, c' >= 0, Height(rk, f));
      calls := calls + cs;
      if c' < 0 {
        return calls, c';
      }
      c := c + c';
      assert g[s].next == s.next;
      s := s.next;
    }
    ThenNone(Outcome(Rules(calls), c));
  }

  /** `__fg_apply`. */
  method Apply(e: Entry, f: Filter?, b: Backend, ghost S: set<Filter>, ghost g: Graph, ghost rk: Rank,
               ghost known: Known)
    returns (calls: seq<Call>, c: int)
    requires Snap(S) == g && Ranked(g, rk) && In(g, f) && Walkable(g) && (forall d :: b.rule(d) != 0) && Aimed(e, known)
    ensures Outcome(Rules(calls), c) == RunChain(g, rk, b, e, f)
    ensures Trace(calls, e.groupname, known, g, rk, b, c >= 0, Height(rk, f))
    decreases Height(rk, f), 2
  {
    if f == null {
      var d := Defaults(e, b.flags);
      RunChainEnd(g, rk, b, e);
      if !Complete(d) {
        return [], -1;
      }
      return [RuleCall(d)], b.rule(d);
    }
    RunChainStep(g, rk, b, e, f);
    var e';
    ghost var known';
    calls, c, e', known' := ApplyOne(e, f, b, S, g, rk, known);
    if c != 0 {
      return;
    }
    assert g[f].child == f.child;
    var rest;
    rest, c := Apply(e', f.child, b, S, g, rk, known');
    RulesAppend(calls, rest);
    TraceMore(rest, e'.groupname, known', known', g, rk, b, c >= 0, c >= 0, Height(rk, f.child), Height(rk, f));
    StepTrace(e, calls, known, e', known', rest, g, rk, b, c >= 0, Height(rk, f));
    calls := calls + rest;
  }

  /** The calls of one node that the walk goes on from: none, or the body of a group. */
  ghost predicate StepCalls(e: Entry, calls: seq<Call>, known: Known, e': Entry, known': Known, g: Graph, rk: Rank,
                            b: Backend, bound: nat)
    requires Ranked(g, rk)
  {
    e'.groupname == e.groupname && Aimed(e', known') &&
    if calls == [] then known' == known
    else
      && |calls| == 1 && calls[0].GroupCall? && calls[0].from.groupname == e.groupname
          && IsBody(g, rk, b, calls[0], true)
      && rk[calls[0].at] < bound && Trace(calls[0].body, Some(calls[0].name), {}, g, rk, b, true, rk[calls[0].at])
          && known' == known + {(calls[0].name, calls[0].from.direction)}
  }

  lemma StepTrace(e: Entry, calls: seq<Call>, known: Known, e': Entry, known': Known, rest: seq<Call>, g: Graph,
                  rk: Rank, b: Backend,
                  ok: bool, bound: nat)
    requires Ranked(g, rk) && StepCalls(e, calls, known, e', known', g, rk, b, bound)
    requires Trace(rest, e'.groupname, known', g, rk, b, ok, bound)
    ensures Trace(calls + rest, e.groupname, known, g, rk, b, ok, bound)
  {
    if calls == [] {
      assert calls + rest == rest;
    } else {
      assert (calls + rest)[0] == calls[0] && (calls + rest)[1..] == rest;
      TraceMore(calls[0].body, Some(calls[0].name), {}, {}, g, rk, b, true, ok, rk[calls[0].at], rk[calls[0].at]);
    }
  }

  /** `__fg_applyone`: the changed entry, and a non-zero value when the walk of this chain is over. */
  method ApplyOne(e: Entry, f: Filter, b: Backend, ghost S: set<Filter>, ghost g: Graph, ghost rk: Rank,
                  ghost known: Known)
    returns (calls: seq<Call>, r: int, e': Entry, ghost known': Known)
    requires Snap(S) == g && Ranked(g, rk) && f in g && Walkable(g) && (forall d :: b.rule(d) != 0) && Aimed(e, known)
    ensures g[f].u.Siblings? ==> r != 0 && Outcome(Rules(calls), r) == RunList(g, rk, b, e, g[f].u.siblings)
    ensures !g[f].u.Siblings? ==> Rules(calls) == [] && Step(g, rk, b, e, f) == if r == 0 then Go(e') else Stop(r)
    ensures if r == 0 then StepCalls(e, calls, known, e', known', g, rk, b, Height(rk, f))
            else Trace(calls, e.groupname, known, g, rk, b, r > 0, Height(rk, f))
    decreases Height(rk, f), 1
  {
    assert g[f] == Node(f.u, f.child, f.next, f.negate);
    e', known' := e, known;
    match f.u {
      case Leaf(spec) =>
        if Refuses(e, spec) {
          return [], -1, e, known;
        }
        e' := Assign(e, spec);
      case Subgroup(name, l) =>
        if RefusesGroup(e) || !b.groups {
          return [], -1, e, known;
        }
        e' := AssignGroup(e, name);
        var body;
        body, r := ApplyList(GroupEntry(e, name), l, b, S, g, rk, {});
        calls := [GroupCall(name, f, e, body)];
        TraceMore(body, Some(name), {}, {}, g, rk, b, r >= 0, r >= 0, Height(rk, l), rk[f]);
        assert calls[1..] == [];
        assert IsBody(g, rk, b, calls[0], r >= 0);
        if r < 0 {
          return;
        }
        e' := Mark(e', SubgroupBit, f.negate);
        known' := known + {(name, e.direction)};
        assert (name, e.direction) in known';
        return calls, 0, e', known';
      case Siblings(l) =>
        RunListNonzero(g, rk, b, e, l);
        calls, r := ApplyList(e, l, b, S, g, rk, known);
        TraceMore(calls, e.groupname, known, known, g, rk, b, r >= 0, r > 0, Height(rk, l), Height(rk, f));
        return;
      case Neg(_) =>
        return [], -1, e, known;
    }
    e' := Mark(e', KindOf(f.u.spec), f.negate);
    AimedStill(e, f.u.spec, f.negate, known);
    return [], 0, e', known;
  }

  lemma AimedStill(e: Entry, s: Spec, neg: bool, known: Known)
    requires Aimed(e, known) && !Refuses(e, s)
    ensures Aimed(Mark(Assign(e, s), KindOf(s), neg), known)
  {
    var e' := Mark(Assign(e, s), KindOf(s), neg);
    if e.subgroup.Some? {
      var d :| (e.subgroup.value, d) in known && (d == e.direction || d.None? || (e.groupname.Some? && e.iface.Some?));
      assert (e'.subgroup.value, d) in known;
    }
  }
}
