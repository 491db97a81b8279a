/** Negations in the source: what the compiler makes of them, and when that is what they mean. */
module NegatedRules {
  import opened FilterSpec
  import opened FilterEntry
  import opened FilterGraph
  import opened FilterSyntax
  import opened FilterTree
  import opened FilterNegation
  import opened FilterPasses
  import opened NegationMeaning
  import opened SyntaxForms
  import opened Readings
  import opened SyntaxReadings
  import opened Conversion
  import opened CompiledRules

  lemma {:induction false} ErasedConjoins(t: Tree, neg: bool)
    ensures Conjoins(Erase(t), neg) <==> Conjoins(t, neg)
  {
    if t.Cons? {
      ErasedConjoins(t.inner, neg != t.kind.NegKind?);
      ErasedConjoins(t.child, neg);
      ErasedConjoins(t.next, neg);
    }
  }

  /** The pass keeps the Boolean meaning of the rules if and only if they negate no conjunction. */
  lemma MeaningKept(ast: RuleList, k: Lookup, n: nat, t: Tree)
    requires Erase(t) == RulesForm(ast, k, n).form && Distinct(t) && Expandable(ast, k, n) && !Refused(ast, k, n)
    ensures var u := Ungroup(t);
            (forall v: Valuation :: ListHolds(Expand(u, false), v) <==> ListHolds(u, v))
                <==> !Conjoins(InlinedForm(ast, k, n), false)
  {
    var u := Ungroup(t);
    TreeOfForm(ast, k, n, t);
    UngroupShape(t);
    KeepsMeaning(u);
    ErasedShape(t);
    ErasedConjoins(u, false);
  }

  // ----- `! { source x dest y }` -----

  function Source(x: HostArg): Negated { Negated(false, HostArgs(true, SnocArg(NoArgs, x))) }

  function Dest(y: HostArg): Negated { Negated(false, HostArgs(false, SnocArg(NoArgs, y))) }

  function NeitherSource(x: HostArg, y: HostArg): Specifiers {
    SnocSpecifier(NoSpecifiers,
                  Negated(true, Compound(OneSubrule(SnocSpecifier(SnocSpecifier(NoSpecifiers, Source(x)), Dest(y))))))
  }

  function OneRule(l: Specifiers): RuleList { SnocRule(NoRules, l) }

  ghost function HostNode(source: bool, a: Addr, rest: Form): Form {
    Cons((), SiblingsKind, false,
         Cons((), LeafKind(if source then SourceSpec(a) else DestSpec(a)), false, Nil, Nil, Nil), rest, Nil)
  }

  lemma HostForm(source: bool, x: HostArg, k: Lookup, n: nat)
    requires k.addr(x).Some?
    ensures NegatedForm(Negated(false, HostArgs(source, SnocArg(NoArgs, x))), k, n)
        == Converted(HostNode(source, k.addr(x).value, Nil), n)
  {
    assert ArgsForm(SnocArg(NoArgs, x), HostLeaf(k, source)) == LeafForm(HostLeaf(k, source)(x));
  }

  ghost function HeldForm(a: Addr, b: Addr): Form {
    Cons((), SiblingsKind, false, HostNode(true, a, HostNode(false, b, Nil)), Nil, Nil)
  }

  lemma NeitherForm(x: HostArg, y: HostArg, k: Lookup, n: nat)
    requires k.addr(x).Some? && k.addr(y).Some?
    ensures SpecifiersForm(NeitherSource(x, y), k, n)
         == Converted(Cons((), NegKind, false, HeldForm(k.addr(x).value, k.addr(y).value), Nil, Nil), n)
  {
    var a, b := k.addr(x).value, k.addr(y).value;
    HostForm(true, x, k, n);
    HostForm(false, y, k, n);
    var first := SnocSpecifier(NoSpecifiers, Source(x));
    var both := SnocSpecifier(first, Dest(y));
    assert SpecifiersForm(first, k, n) == Converted(HostNode(true, a, Nil), n);
    assert Concat(HostNode(true, a, Nil), HostNode(false, b, Nil)) == HostNode(true, a, HostNode(false, b, Nil)) by {
      assert Concat(HostNode(true, a, Nil).child, HostNode(false, b, Nil)) == HostNode(false, b, Nil);
    }
    assert SpecifiersForm(both, k, n) == Converted(HostNode(true, a, HostNode(false, b, Nil)), n);
    var held := HostNode(true, a, HostNode(false, b, Nil));
    assert SubrulesForm(OneSubrule(both), k, n) == Converted(held, n);
    assert SpecifierForm(Compound(OneSubrule(both)), k, n) == Converted(Around(SiblingsKind, held), n);
    assert NegatedForm(Negated(true, Compound(OneSubrule(both))), k, n)
        == Converted(Around(NegKind, HeldForm(a, b)), n);
  }

  /** A form that passes under an odd number of negations. */
  ghost predicate Fine(f: Form) {
    !GivesUp(f, true) && !Jams(f) && Unshared(f, true) && GroupFree(f)
  }

  lemma HostFine(source: bool, a: Addr, rest: Form)
    requires Fine(rest)
    ensures Fine(HostNode(source, a, rest))
  {
    var l: Form := Cons((), LeafKind(if source then SourceSpec(a) else DestSpec(a)), false, Nil, Nil, Nil);
    assert Fine(Nil);
    assert Fine(l);
  }

  /** The tree of `! { source x dest y }`, with the rest `c` of its rule. */
  ghost function NeitherTree(a: Addr, b: Addr, c: Form): Form {
    Cons((), NegKind, false, HeldForm(a, b), c, Nil)
  }

  lemma NeitherExpands(a: Addr, b: Addr)
    ensures var f := NeitherTree(a, b, Nil);
            && !Fails(f, false) && Unshared(f, false) && Conjoins(f, false) && GroupFree(f) && Ungroup(f) == f
            && ListReads(f, false) == [[Literal(SourceSpec(a), true), Literal(DestSpec(b), true)]]
  {
    var f, h := NeitherTree(a, b, Nil), HeldForm(a, b);
    var s, d := HostNode(true, a, HostNode(false, b, Nil)), HostNode(false, b, Nil);
    assert Fine(Nil);
    HostFine(false, b, Nil);
    HostFine(true, a, d);
    assert Fine(h);
    assert !GivesUp<()>(Nil, false) && !Jams<()>(Nil) && Unshared<()>(Nil, false);
    assert Conjoins(s, true) && Conjoins(h, true);
    UngroupFree(f);
    HostReads(false, b, Nil);
    HostReads(true, a, d);
    var x, y := [Literal(SourceSpec(a), true)], [Literal(DestSpec(b), true)];
    CrossUnit([y]);
    assert ChainReads(d, true) == [y];
    assert Cross([x], [y]) == Prefix(x, [y]) + Cross([], [y]);
    assert ChainReads(s, true) == [x + y];
    ListOfOneReads(s, true);
    ChainOfOneReads(h, true);
    ListOfOneReads(h, true);
    ChainOfOneReads(f, false);
    ListOfOneReads(f, false);
    assert x + y == [Literal(SourceSpec(a), true), Literal(DestSpec(b), true)];
    assert ListReads(h, true) == [x + y];
  }

  lemma HostReads(source: bool, a: Addr, rest: Form)
    ensures HeadReads(HostNode(source, a, rest), true)
        == [[Literal(if source then SourceSpec(a) else DestSpec(a), true)]]
  {
    var l: Form := Cons((), LeafKind(if source then SourceSpec(a) else DestSpec(a)), false, Nil, Nil, Nil);
    ListOfOneReads(l, true);
    ChainOfOneReads(l, true);
  }

  /** A conjunction on which the pass succeeds and loses the meaning: the rule is compiled to "neither"
      where it says "not both". */
  lemma NegatedConjunction(x: HostArg, y: HostArg, k: Lookup, n: nat)
    requires k.addr(x).Some? && k.addr(y).Some?
    ensures var ast := OneRule(NeitherSource(x, y));
            && Expandable(ast, k, n) && !Refused(ast, k, n) && Conjoins(InlinedForm(ast, k, n), false)
            && ListReads(Expand(InlinedForm(ast, k, n), false), false)
               == [[Literal(SourceSpec(k.addr(x).value), true), Literal(DestSpec(k.addr(y).value), true)]]
  {
    var ast, a, b := OneRule(NeitherSource(x, y)), k.addr(x).value, k.addr(y).value;
    NeitherForm(x, y, k, n);
    assert RulesForm(NoRules, k, n) == Converted(Nil, n);
    assert RulesForm(ast, k, n).form == NeitherTree(a, b, Nil);
    NeitherExpands(a, b);
    RulesShape(ast, k, n);
    ExpandReads(NeitherTree(a, b, Nil), false);
  }

  /** When the rule goes on after it, the pass aborts. */
  lemma ContinuedConjunction(x: HostArg, y: HostArg, s: Negated, k: Lookup, n: nat)
    requires k.addr(x).Some? && k.addr(y).Some? && NegatedForm(s, k, n).form.Cons?
    ensures Refused(OneRule(SnocSpecifier(NeitherSource(x, y), s)), k, n)
  {
    var l, a, b := SnocSpecifier(NeitherSource(x, y), s), k.addr(x).value, k.addr(y).value;
    var q := NegatedForm(s, k, n).form;
    NeitherForm(x, y, k, n);
    assert RulesForm(NoRules, k, n) == Converted(Nil, n);
    assert Concat(NeitherTree(a, b, Nil), q) == NeitherTree(a, b, q);
    assert SpecifiersForm(l, k, n).form == NeitherTree(a, b, q);
    var f := NeitherTree(a, b, q);
    assert RulesForm(OneRule(l), k, n).form == f;
    assert Blocks(HostNode(true, a, HostNode(false, b, Nil)));
    assert Blocks(HeldForm(a, b));
    assert Ungroup(f).kind.NegKind? && Ungroup(f).inner == HeldForm(a, b) && Ungroup(f).child.Cons?;
  }
}
