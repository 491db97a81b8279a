/** The filter tree that a syntax tree is converted to, leaving the nodes' identities aside. */
module SyntaxForms {
  import opened FilterSpec
  import opened FilterSyntax
  import opened FilterTree
  import opened FilterNegation
  import opened FilterPasses

  /** The lookups that building a leaf needs; a leaf that cannot be built is left out. */
  datatype Lookup = Lookup(proto: string -> Option<Proto>, addr: HostArg -> Option<Addr>, ports: PortArg -> Ports)

  type Form = TreeOf<()>

  function IfaceLeaf(d: Direction): string -> Option<Spec> { i => Some(DirectionSpec(d, i)) }

  function HostLeaf(k: Lookup, source: bool): HostArg -> Option<Spec> {
    h => match k.addr(h) case None => None case Some(a) => Some(if source then SourceSpec(a) else DestSpec(a))
  }

  function PortLeaf(k: Lookup, source: bool): PortArg -> Option<Spec> {
    p => Some(if source then SportSpec(k.ports(p)) else DportSpec(k.ports(p)))
  }

  function ProtoLeaf(k: Lookup): string -> Option<Spec> {
    n => match k.proto(n) case None => None case Some(p) => Some(ProtoSpec(p))
  }

  function IcmpLeaf(): string -> Option<Spec> { i => Some(IcmpSpec(i)) }

  /** `proxy` is another name of `redirect`. */
  function TargetOf(t: TargetName): Target {
    match t
    case AcceptName => Accept
    case RejectName => Reject
    case DropName => Drop
    case MasqName => Masq
    case ProxyName => Redirect
    case RedirectName => Redirect
  }

  function OptionOf(o: OptionName): Spec {
    match o
    case LocalOption => RoutingSpec(LocalOnly)
    case ForwardOption => RoutingSpec(RoutedOnly)
    case OnewayOption => RoutingSpec(OneWayType)
    case LogOption(m) => LogSpec(m)
  }

  /** The text of a number, and the name of the group that is given that number. */
  function Decimal(n: nat): string {
    (if n < 10 then [] else Decimal(n / 10)) + [('0' as int + n % 10) as char]
  }

  function ChainName(n: nat): string { "chain_" + Decimal(n) }

  // ----- building forms -----

  ghost function JoinNext<N>(t: TreeOf<N>, u: TreeOf<N>): TreeOf<N> {
    if t.Nil? then u else t.(next := JoinNext(t.next, u))
  }

  ghost function LeafForm(s: Option<Spec>): Form {
    if s.None? then Nil else Cons((), LeafKind(s.value), false, Nil, Nil, Nil)
  }

  /** A node around a list; nothing when the list is empty. */
  ghost function Around(k: Kind, f: Form): Form {
    if f.Nil? then Nil else Cons((), k, false, f, Nil, Nil)
  }

  /** The conversion also counts the unnamed groups met so far. */
  datatype Converted = Converted(form: Form, count: nat)

  /** When the first argument gives nothing, the rest is dropped. */
  ghost function ArgsForm<T>(l: Args<T>, leaf: T -> Option<Spec>): Form {
    if l.NoArgs? then Nil
    else if l.front.NoArgs? then LeafForm(leaf(l.arg))
    else
      var r := ArgsForm(l.front, leaf);
      if r.Nil? then Nil else JoinNext(r, LeafForm(leaf(l.arg)))
  }

  ghost function SpecifierForm(s: Specifier, k: Lookup, n: nat): Converted {
    match s
    case Compound(l) => var r := SubrulesForm(l, k, n); Converted(Around(SiblingsKind, r.form), r.count)
    case DirectionArgs(d, l) => Converted(Around(SiblingsKind, ArgsForm(l, IfaceLeaf(d))), n)
    case TargetArg(t) => Converted(LeafForm(Some(TargetSpec(TargetOf(t)))), n)
    case HostArgs(source, l) => Converted(Around(SiblingsKind, ArgsForm(l, HostLeaf(k, source))), n)
    case PortArgs(source, l) => Converted(Around(SiblingsKind, ArgsForm(l, PortLeaf(k, source))), n)
    case ProtocolArgs(l) => Converted(Around(SiblingsKind, ArgsForm(l, ProtoLeaf(k))), n)
    case IcmpArgs(l) => Converted(Around(SiblingsKind, ArgsForm(l, IcmpLeaf())), n)
    case OptionArg(o) => Converted(LeafForm(Some(OptionOf(o))), n)
    case Chaingroup(name, l) =>
      var r := SubrulesForm(l, k, if name.Some? then n else n + 1);
      Converted(Around(SubgroupKind(if name.Some? then name.value else ChainName(n)), r.form), r.count)
  }

  ghost function NegatedForm(s: Negated, k: Lookup, n: nat): Converted {
    var r := SpecifierForm(s.spec, k, n);
    if s.negated then Converted(Around(NegKind, r.form), r.count) else r
  }

  /** When the first specifier gives nothing, the rest is dropped. */
  ghost function SpecifiersForm(l: Specifiers, k: Lookup, n: nat): Converted {
    if l.NoSpecifiers? then Converted(Nil, n)
    else if l.front.NoSpecifiers? then NegatedForm(l.last, k, n)
    else
      var r := SpecifiersForm(l.front, k, n);
      if r.form.Nil? then r
      else var s := NegatedForm(l.last, k, r.count); Converted(Concat(r.form, s.form), s.count)
  }

  /** When the first alternative gives nothing, the rest is dropped. */
  ghost function SubrulesForm(l: Subrules, k: Lookup, n: nat): Converted {
    match l
    case OneSubrule(s) => SpecifiersForm(s, k, n)
    case SnocSubrule(f, s) =>
      var r := SubrulesForm(f, k, n);
      if r.form.Nil? then r
      else var q := SpecifiersForm(s, k, r.count); Converted(JoinNext(r.form, q.form), q.count)
  }

  /** Rules that give nothing are left out. */
  ghost function RulesForm(l: RuleList, k: Lookup, n: nat): Converted {
    if l.NoRules? then Converted(Nil, n)
    else
      var r := RulesForm(l.front, k, n);
      var q := SpecifiersForm(l.rule, k, r.count);
      Converted(JoinNext(r.form, q.form), q.count)
  }

  // ----- the shape of forms -----

  /** What every form is like: shaped like a tree, without signs, a negation holding one specifier. */
  ghost predicate Built(f: Form) {
    Shape(f) && Unsigned(f) && Grammatical(f) && Undoubled(f)
  }

  lemma {:induction false} JoinShape(f: Form, g: Form)
    requires Built(f) && Built(g)
    ensures Built(JoinNext(f, g))
  {
    if f.Cons? {
      JoinShape(f.next, g);
    }
  }

  lemma {:induction false} ConcatShape(f: Form, g: Form)
    requires Built(f) && Built(g) && (g.Cons? ==> g.next.Nil?)
    ensures Built(Concat(f, g))
    ensures f.Cons? ==> Concat(f, g).Cons? && Concat(f, g).next == f.next
  {
    if f.Cons? {
      ConcatShape(f.child, g);
    }
  }

  /** A list of arguments becomes leaves without anything below them. */
  lemma {:induction false} ArgsShape<T>(l: Args<T>, leaf: T -> Option<Spec>)
    ensures Built(ArgsForm(l, leaf))
  {
    if l.SnocArg? {
      ArgsShape(l.front, leaf);
      JoinShape(ArgsForm(l.front, leaf), LeafForm(leaf(l.arg)));
    }
  }

  ghost predicate OneMember(f: Form) {
    f.Cons? ==> f.next.Nil?
  }

  lemma {:induction false} SpecifierShape(s: Specifier, k: Lookup, n: nat)
    ensures var f := SpecifierForm(s, k, n).form;
        Built(f) && OneMember(f) && (f.Cons? ==> f.child.Nil? && !f.kind.NegKind?)
    decreases s
  {
    match s
    case Compound(l) => SubrulesShape(l, k, n);
    case DirectionArgs(d, l) => ArgsShape(l, IfaceLeaf(d));
    case HostArgs(source, l) => ArgsShape(l, HostLeaf(k, source));
    case PortArgs(source, l) => ArgsShape(l, PortLeaf(k, source));
    case ProtocolArgs(l) => ArgsShape(l, ProtoLeaf(k));
    case IcmpArgs(l) => ArgsShape(l, IcmpLeaf());
    case Chaingroup(name, l) => SubrulesShape(l, k, if name.Some? then n else n + 1);
    case _ =>
  }

  lemma {:induction false} SpecifiersShape(l: Specifiers, k: Lookup, n: nat)
    ensures var f := SpecifiersForm(l, k, n).form; Built(f) && OneMember(f)
    decreases l
  {
    if l.SnocSpecifier? {
      var r := SpecifiersForm(l.front, k, n);
      SpecifiersShape(l.front, k, n);
      SpecifierShape(l.last.spec, k, n);
      SpecifierShape(l.last.spec, k, r.count);
      ConcatShape(r.form, NegatedForm(l.last, k, r.count).form);
    }
  }

  lemma {:induction false} SubrulesShape(l: Subrules, k: Lookup, n: nat)
    ensures var f := SubrulesForm(l, k, n).form; Built(f)
    decreases l
  {
    match l
    case OneSubrule(s) => SpecifiersShape(s, k, n);
    case SnocSubrule(f, s) =>
      var r := SubrulesForm(f, k, n);
      SubrulesShape(f, k, n);
      SpecifiersShape(s, k, r.count);
      JoinShape(r.form, SpecifiersForm(s, k, r.count).form);
  }

  lemma {:induction false} RulesShape(l: RuleList, k: Lookup, n: nat)
    ensures var f := RulesForm(l, k, n).form; Built(f)
  {
    if l.SnocRule? {
      var r := RulesForm(l.front, k, n);
      RulesShape(l.front, k, n);
      SpecifiersShape(l.rule, k, r.count);
      JoinShape(r.form, SpecifiersForm(l.rule, k, r.count).form);
    }
  }
}
