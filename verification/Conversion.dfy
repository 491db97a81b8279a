/** The conversion of syntax trees to filter trees in the heap. */
module Conversion {
  import opened FilterSpec
  import opened FilterSyntax
  import opened FilterGraph
  import opened FilterTree
  import opened FilterPasses
  import opened SyntaxForms

  ghost function Erase(t: Tree): Form {
    if t.Nil? then Nil else Cons((), t.kind, t.negate, Erase(t.inner), Erase(t.child), Erase(t.next))
  }

  /** From `f` on the nodes `S` hold the tree `t`, which has the given form. */
  ghost predicate Built(f: Filter?, t: Tree, S: set<Filter>, form: Form)
    reads S
  {
    f == Root(t) && S == Nodes(t) && Raw(t, Snap(S)) && Distinct(t) && Erase(t) == form
  }

  // ----- linking lists -----

  ghost function LastNext(t: Tree): Filter
    requires t.Cons?
  {
    if t.next.Nil? then t.node else LastNext(t.next)
  }

  ghost function LastChild(t: Tree): Filter
    requires t.Cons?
  {
    if t.child.Nil? then t.node else LastChild(t.child)
  }

  lemma {:induction false} JoinNodes(t: Tree, u: Tree)
    requires t.Cons? && Distinct(t) && Distinct(u) && Nodes(t) !! Nodes(u)
    ensures LastNext(t) in Nodes(t) && Nodes(JoinNext(t, u)) == Nodes(t) + Nodes(u) && Distinct(JoinNext(t, u))
    ensures Erase(JoinNext(t, u)) == JoinNext(Erase(t), Erase(u))
  {
    if t.next.Cons? {
      JoinNodes(t.next, u);
    }
  }

  lemma {:induction false} ConcatErased(t: Tree, u: Tree)
    requires t.Cons?
    ensures Erase(Concat(t, u)) == Concat(Erase(t), Erase(u))
  {
    if t.child.Cons? {
      ConcatErased(t.child, u);
    }
  }

  lemma {:induction false} JoinRaw(t: Tree, u: Tree, g: Graph)
    requires t.Cons? && Raw(t, g) && Raw(u, g) && Distinct(t) && Nodes(t) !! Nodes(u)
    ensures LastNext(t) in Nodes(t) && LastNext(t) in g
    ensures Raw(JoinNext(t, u), g[LastNext(t) := g[LastNext(t)].(next := Root(u))])
  {
    if t.next.Cons? {
      JoinRaw(t.next, u, g);
    }
    var g' := g[LastNext(t) := g[LastNext(t)].(next := Root(u))];
    RawFrame(t.inner, g, g');
    RawFrame(t.child, g, g');
    if t.next.Nil? {
      RawFrame(u, g, g');
    }
  }

  lemma {:induction false} ConcatRaw(t: Tree, u: Tree, g: Graph)
    requires t.Cons? && Raw(t, g) && Raw(u, g) && Distinct(t) && Nodes(t) !! Nodes(u)
    ensures LastChild(t) in Nodes(t) && LastChild(t) in g
    ensures Raw(Concat(t, u), g[LastChild(t) := g[LastChild(t)].(child := Root(u))])
  {
    if t.child.Cons? {
      ConcatRaw(t.child, u, g);
    }
    var g' := g[LastChild(t) := g[LastChild(t)].(child := Root(u))];
    RawFrame(t.inner, g, g');
    RawFrame(t.next, g, g');
    if t.child.Nil? {
      RawFrame(u, g, g');
    }
  }

  /** Two trees in one snapshot. */
  lemma BothRaw(t: Tree, u: Tree, g: Graph, h: Graph, gh: Graph)
    requires Raw(t, g) && Raw(u, h) && SameOn(g, gh, Nodes(t)) && SameOn(h, gh, Nodes(u))
    ensures Raw(t, gh) && Raw(u, gh)
  {
    RawFrame(t, g, gh);
    RawFrame(u, h, gh);
  }

  /** Walk to the end of a list and put another behind it. */
  method LinkNext(f: Filter, x: Filter?, ghost t: Tree, ghost u: Tree, ghost S: set<Filter>, ghost U: set<Filter>)
    requires Built(f, t, S, Erase(t)) && Built(x, u, U, Erase(u)) && S !! U
    modifies S
    ensures Built(f, JoinNext(t, u), S + U, JoinNext(Erase(t), Erase(u)))
  {
    ghost var g: Graph := Snap(S + U);
    BothRaw(t, u, Snap(S), Snap(U), g);
    var end := f;
    ghost var r := t;
    while end.next != null
      invariant r.Cons? && end == r.node && LastNext(r) == LastNext(t) && Raw(r, g) && Nodes(r) <= S
      decreases r
    {
      assert g[end].next == end.next;
      end, r := end.next, r.next;
    }
    assert g[end].next == end.next;
    JoinNodes(t, u);
    JoinRaw(t, u, g);
    end.SetNext(x, S + U, g);
  }

  /** Walk to the end of a chain and continue it. */
  method LinkChild(f: Filter, x: Filter?, ghost t: Tree, ghost u: Tree, ghost S: set<Filter>, ghost U: set<Filter>)
    requires Built(f, t, S, Erase(t)) && Built(x, u, U, Erase(u)) && S !! U
    modifies S
    ensures Built(f, Concat(t, u), S + U, Concat(Erase(t), Erase(u)))
  {
    ghost var g: Graph := Snap(S + U);
    BothRaw(t, u, Snap(S), Snap(U), g);
    var end := f;
    ghost var r := t;
    while end.child != null
      invariant r.Cons? && end == r.node && LastChild(r) == LastChild(t) && Raw(r, g) && Nodes(r) <= S
      decreases r
    {
      assert g[end].child == end.child;
      end, r := end.child, r.child;
    }
    assert g[end].child == end.child;
    ConcatNodes(t, u);
    ConcatErased(t, u);
    ConcatRaw(t, u, g);
    end.SetChild(x, S + U, g);
  }

  // ----- making nodes -----

  method NewLeaf(s: Option<Spec>) returns (f: Filter?, ghost t: Tree, ghost S: set<Filter>)
    ensures Built(f, t, S, LeafForm(s)) && fresh(S)
  {
    if s.None? {
      return null, Nil, {};
    }
    var n := new Filter(Leaf(s.value));
    f, t, S := n, Cons(n, LeafKind(s.value), false, Nil, Nil, Nil), {n};
  }

  /** `new_filter_siblings`, `new_filter_subgroup` and `new_filter_neg`: nothing around nothing. */
  method NewAround(b: Body, x: Filter?, ghost k: Kind, ghost u: Tree, ghost U: set<Filter>)
    returns (f: Filter?, ghost t: Tree, ghost S: set<Filter>)
    requires Built(x, u, U, Erase(u)) && !k.LeafKind? && b == BodyOf(k, x)
    ensures Built(f, t, S, Around(k, Erase(u))) && fresh(S - U)
  {
    if x == null {
      return null, Nil, {};
    }
    var n := new Filter(b);
    f, t, S := n, Cons(n, k, false, u, Nil, Nil), {n} + U;
    RawFrame(u, Snap(U), Snap(S));
  }

  // ----- the converters -----

  /** The converters of the argument lists: interfaces, hosts, protocols, ports and icmp types. */
  method ConvertArgs<T>(l: Args<T>, leaf: T -> Option<Spec>) returns (f: Filter?, ghost t: Tree, ghost S: set<Filter>)
    requires l.SnocArg?
    ensures Built(f, t, S, ArgsForm(l, leaf)) && fresh(S)
  {
    if l.front.NoArgs? {
      f, t, S := NewLeaf(leaf(l.arg));
      return;
    }
    f, t, S := ConvertArgs(l.front, leaf);
    if f != null {
      var x;
      ghost var u, U;
      x, u, U := NewLeaf(leaf(l.arg));
      LinkNext(f, x, t, u, S, U);
      t, S := JoinNext(t, u), S + U;
    }
  }

  method ConvertSiblings<T>(l: Args<T>, leaf: T -> Option<Spec>)
    returns (f: Filter?, ghost t: Tree, ghost S: set<Filter>)
    ensures Built(f, t, S, Around(SiblingsKind, ArgsForm(l, leaf))) && fresh(S)
  {
    if l.NoArgs? {
      return null, Nil, {};
    }
    var x;
    ghost var u, U;
    x, u, U := ConvertArgs(l, leaf);
    f, t, S := NewAround(Siblings(x), x, SiblingsKind, u, U);
  }

  method ConvertSpecifier(s: Specifier, k: Lookup, count: nat)
    returns (f: Filter?, count': nat, ghost t: Tree, ghost S: set<Filter>)
    ensures var c := SpecifierForm(s, k, count); Built(f, t, S, c.form) && count' == c.count && fresh(S)
    decreases s, 0
  {
    count' := count;
    match s {
      case Compound(l) =>
        var x;
        ghost var u, U;
        x, count', u, U := ConvertSubrules(l, k, count);
        f, t, S := NewAround(Siblings(x), x, SiblingsKind, u, U);
      case DirectionArgs(d, l) =>
        f, t, S := ConvertSiblings(l, IfaceLeaf(d));
      case TargetArg(n) =>
        f, t, S := NewLeaf(Some(TargetSpec(TargetOf(n))));
      case HostArgs(source, l) =>
        f, t, S := ConvertSiblings(l, HostLeaf(k, source));
      case PortArgs(source, l) =>
        f, t, S := ConvertSiblings(l, PortLeaf(k, source));
      case ProtocolArgs(l) =>
        f, t, S := ConvertSiblings(l, ProtoLeaf(k));
      case IcmpArgs(l) =>
        f, t, S := ConvertSiblings(l, IcmpLeaf());
      case OptionArg(o) =>
        f, t, S := NewLeaf(Some(OptionOf(o)));
      case Chaingroup(name, l) =>
        f, count', t, S := ConvertChaingroup(name, l, k, count);
    }
  }

  method ConvertChaingroup(name: Option<string>, l: Subrules, k: Lookup, count: nat)
    returns (f: Filter?, count': nat, ghost t: Tree, ghost S: set<Filter>)
    ensures var c := SpecifierForm(Chaingroup(name, l), k, count);
            Built(f, t, S, c.form) && count' == c.count && fresh(S)
    decreases l, 1
  {
    var n;
    if name.Some? {
      n, count' := name.value, count;
    } else {
      n, count' := ChainName(count), count + 1;
    }
    var x;
    ghost var u, U;
    x, count', u, U := ConvertSubrules(l, k, count');
    f, t, S := NewAround(Subgroup(n, x), x, SubgroupKind(n), u, U);
  }

  method ConvertNegated(s: Negated, k: Lookup, count: nat)
    returns (f: Filter?, count': nat, ghost t: Tree, ghost S: set<Filter>)
    ensures var c := NegatedForm(s, k, count); Built(f, t, S, c.form) && count' == c.count && fresh(S)
    decreases s, 0
  {
    f, count', t, S := ConvertSpecifier(s.spec, k, count);
    if s.negated {
      f, t, S := NewAround(Neg(f), f, NegKind, t, S);
    }
  }

  method ConvertSpecifiers(l: Specifiers, k: Lookup, count: nat)
    returns (f: Filter?, count': nat, ghost t: Tree, ghost S: set<Filter>)
    requires l.SnocSpecifier?
    ensures var c := SpecifiersForm(l, k, count); Built(f, t, S, c.form) && count' == c.count && fresh(S)
    decreases l, 0
  {
    if l.front.NoSpecifiers? {
      f, count', t, S := ConvertNegated(l.last, k, count);
      return;
    }
    f, count', t, S := ConvertSpecifiers(l.front, k, count);
    if f != null {
      var x;
      ghost var u, U;
      x, count', u, U := ConvertNegated(l.last, k, count');
      LinkChild(f, x, t, u, S, U);
      t, S := Concat(t, u), S + U;
    }
  }

  method ConvertSubrules(l: Subrules, k: Lookup, count: nat)
    returns (f: Filter?, count': nat, ghost t: Tree, ghost S: set<Filter>)
    ensures var c := SubrulesForm(l, k, count); Built(f, t, S, c.form) && count' == c.count && fresh(S)
    decreases l, 0
  {
    f, count', t, S := null, count, Nil, {};
    match l {
      case OneSubrule(s) =>
        if s.SnocSpecifier? {
          f, count', t, S := ConvertSpecifiers(s, k, count);
        }
      case SnocSubrule(front, s) =>
        f, count', t, S := ConvertSubrules(front, k, count);
        if f != null && s.SnocSpecifier? {
          var x;
          ghost var u, U;
          x, count', u, U := ConvertSpecifiers(s, k, count');
          LinkNext(f, x, t, u, S, U);
          t, S := JoinNext(t, u), S + U;
        } else {
          JoinNil(Erase(t));
        }
    }
  }

  lemma {:induction false} JoinNil(f: Form)
    ensures JoinNext(f, Nil) == f
  {
    if f.Cons? {
      JoinNil(f.next);
    }
  }

  method ConvertRules(l: RuleList, k: Lookup, count: nat)
    returns (f: Filter?, count': nat, ghost t: Tree, ghost S: set<Filter>)
    requires l.SnocRule?
    ensures var c := RulesForm(l, k, count); Built(f, t, S, c.form) && count' == c.count && fresh(S)
  {
    f, count', t, S := null, count, Nil, {};
    if l.front.SnocRule? {
      f, count', t, S := ConvertRules(l.front, k, count);
    }
    var x: Filter? := null;
    ghost var u: Tree, U: set<Filter> := Nil, {};
    if l.rule.SnocSpecifier? {
      x, count', u, U := ConvertSpecifiers(l.rule, k, count');
    }
    if f != null {
      LinkNext(f, x, t, u, S, U);
      t, S := JoinNext(t, u), S + U;
    } else {
      f, t, S := x, u, U;
    }
  }

  /** `convert`. */
  method Convert(ast: RuleList, k: Lookup, count: nat)
    returns (f: Filter?, count': nat, ghost t: Tree, ghost S: set<Filter>)
    ensures var c := RulesForm(ast, k, count); Built(f, t, S, c.form) && count' == c.count && fresh(S)
  {
    f, count', t, S := null, count, Nil, {};
    if ast.SnocRule? {
      f, count', t, S := ConvertRules(ast, k, count);
    }
  }
}
