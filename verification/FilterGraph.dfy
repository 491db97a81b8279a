/** The heap structure of the filter compiler: nodes linked by `child` (and), `next` (or) and
    the list inside a node's body, together with what such a graph means. */
module FilterGraph {
  import opened FilterSpec

  datatype Body =
    | Leaf(spec: Spec)
    | Siblings(siblings: Filter?)
    | Subgroup(name: string, list: Filter?)
    | Neg(neg: Filter?)
  {
    function Inner(): Filter? {
      match this
      case Leaf(_) => null
      case Siblings(s) => s
      case Subgroup(_, l) => l
      case Neg(n) => n
    }

    function WithInner(i: Filter?): Body {
      match this
      case Leaf(_) => this
      case Siblings(_) => Siblings(i)
      case Subgroup(name, _) => Subgroup(name, i)
      case Neg(_) => Neg(i)
    }
  }

  class Filter {
    var u: Body
    var child: Filter?
    var next: Filter?
    var negate: bool

    constructor (u: Body)
      ensures this.u == u && child == null && next == null && !negate
    {
      this.u, child, next, negate := u, null, null, false;
    }

    // The assignments through which the passes rewrite a graph.

    method SetChild(x: Filter?, ghost S: set<Filter>, ghost g: Graph)
      requires this in S && Snap(S) == g
      modifies this`child
      ensures child == x && Snap(S) == g[this := g[this].(child := x)]
    {
      child := x;
    }

    method SetNext(x: Filter?, ghost S: set<Filter>, ghost g: Graph)
      requires this in S && Snap(S) == g
      modifies this`next
      ensures next == x && Snap(S) == g[this := g[this].(next := x)]
    {
      next := x;
    }

    method SetBody(b: Body, ghost S: set<Filter>, ghost g: Graph)
      requires this in S && Snap(S) == g
      modifies this`u
      ensures u == b && Snap(S) == g[this := g[this].(u := b)]
    {
      u := b;
    }

    method SetBodyAndSign(b: Body, neg: bool, ghost S: set<Filter>, ghost g: Graph)
      requires this in S && Snap(S) == g
      modifies this`u, this`negate
      ensures u == b && negate == neg && Snap(S) == g[this := g[this].(u := b, negate := neg)]
    {
      u, negate := b, neg;
    }

    method SetNextAndSign(n: Filter?, neg: bool, ghost S: set<Filter>, ghost g: Graph)
      requires this in S && Snap(S) == g
      modifies this`next, this`negate
      ensures next == n && negate == neg && Snap(S) == g[this := g[this].(next := n, negate := neg)]
    {
      next, negate := n, neg;
    }
  }

  // ----- snapshots of the heap -----

  datatype Node = Node(u: Body, child: Filter?, next: Filter?, negate: bool)

  type Graph = map<Filter, Node>

  type Rank = map<Filter, nat>

  ghost function Snap(S: set<Filter>): Graph
    reads S
  {
    map f | f in S :: Node(f.u, f.child, f.next, f.negate)
  }

  /** A pointer that is null or leads to a node of the graph of rank below `bound`. */
  ghost predicate Below(g: Graph, rk: Rank, p: Filter?, bound: nat) {
    p != null ==> p in g && p in rk && rk[p] < bound
  }

  /** Every edge leads to a node of the graph and goes down in rank: the graph is acyclic. */
  ghost predicate Ranked(g: Graph, rk: Rank) {
    forall f | f in g ::
      && f in rk
      && Below(g, rk, g[f].child, rk[f])
      && Below(g, rk, g[f].next, rk[f])
      && Below(g, rk, g[f].u.Inner(), rk[f])
  }

  ghost predicate In(g: Graph, f: Filter?) {
    f != null ==> f in g
  }

  ghost function Height(rk: Rank, f: Filter?): nat {
    if f == null || f !in rk then 0 else rk[f] + 1
  }

  // ----- what a graph means: its ordered root-to-leaf paths -----

  type Path = seq<Filter>

  /** Every path of `ps` continued by every path of `qs`, the first list varying slowest. */
  ghost function Cross<T>(ps: seq<seq<T>>, qs: seq<seq<T>>): seq<seq<T>> {
    if ps == [] then [] else Prefix(ps[0], qs) + Cross(ps[1..], qs)
  }

  ghost function Prefix<T>(p: seq<T>, qs: seq<seq<T>>): (r: seq<seq<T>>)
    ensures |r| == |qs| && forall i :: 0 <= i < |r| ==> r[i] == p + qs[i]
  {
    seq(|qs|, i requires 0 <= i < |qs| => p + qs[i])
  }

  /** The ways to go from `f` down to the end of its chain; a sibling list stands for any one
      of its alternatives, every other node for itself. */
  ghost function ChainPaths(g: Graph, rk: Rank, f: Filter?): seq<Path>
    requires Ranked(g, rk) && In(g, f)
    decreases Height(rk, f), 0
  {
    if f == null then [[]]
    else
      var rest := ChainPaths(g, rk, g[f].child);
      if g[f].u.Siblings? then Cross(ListPaths(g, rk, g[f].u.siblings), rest) else Prefix([f], rest)
  }

  /** The paths of all alternatives of a list, in source order. */
  ghost function ListPaths(g: Graph, rk: Rank, f: Filter?): seq<Path>
    requires Ranked(g, rk) && In(g, f)
    decreases Height(rk, f), 1
  {
    if f == null then [] else ChainPaths(g, rk, f) + ListPaths(g, rk, g[f].next)
  }

  // ----- laws of Cross -----

  lemma {:induction false} CrossUnit<T>(ps: seq<seq<T>>)
    ensures Cross(ps, [[]]) == ps
  {
    if ps != [] {
      CrossUnit(ps[1..]);
      assert ps[0] + [] == ps[0];
      assert ps == Prefix(ps[0], [[]]) + ps[1..];
    }
  }

  lemma {:induction false} CrossAppend<T>(ps: seq<seq<T>>, ps': seq<seq<T>>, qs: seq<seq<T>>)
    ensures Cross(ps + ps', qs) == Cross(ps, qs) + Cross(ps', qs)
  {
    if ps == [] {
      assert ps + ps' == ps';
    } else {
      CrossAppend(ps[1..], ps', qs);
      assert (ps + ps')[1..] == ps[1..] + ps';
      SeqAssoc(Prefix(ps[0], qs), Cross(ps[1..], qs), Cross(ps', qs));
    }
  }

  lemma {:induction false} CrossPrefix<T>(p: seq<T>, ps: seq<seq<T>>, qs: seq<seq<T>>)
    ensures Cross(Prefix(p, ps), qs) == Prefix(p, Cross(ps, qs))
  {
    if ps != [] {
      CrossPrefix(p, ps[1..], qs);
      assert Prefix(p, ps)[1..] == Prefix(p, ps[1..]);
      assert Prefix(p + ps[0], qs) == Prefix(p, Prefix(ps[0], qs)) by {
        forall i | 0 <= i < |qs| ensures (p + ps[0]) + qs[i] == p + (ps[0] + qs[i]) {}
      }
    }
  }

  lemma {:induction false} CrossAssoc<T>(ps: seq<seq<T>>, qs: seq<seq<T>>, rs: seq<seq<T>>)
    ensures Cross(Cross(ps, qs), rs) == Cross(ps, Cross(qs, rs))
  {
    if ps != [] {
      CrossAssoc(ps[1..], qs, rs);
      CrossAppend(Prefix(ps[0], qs), Cross(ps[1..], qs), rs);
      CrossPrefix(ps[0], qs, rs);
    }
  }

  lemma CrossNil<T>(qs: seq<seq<T>>)
    ensures Cross([[]], qs) == qs
  {
    forall i | 0 <= i < |qs| ensures [] + qs[i] == qs[i] {}
    assert Prefix([], qs) == qs;
  }
}
