/** The Boolean reading of a syntax tree, given directly, and the proof that its conversion has it. */
module SyntaxReadings {
  import opened FilterSpec
  import opened FilterEntry
  import opened FilterGraph
  import opened FilterSyntax
  import opened FilterTree
  import opened FilterNegation
  import opened FilterPasses
  import opened SyntaxForms
  import opened Readings

  // ----- the reading: and along specifiers, or between alternatives and arguments -----

  /** None for a list or specifier that says nothing. */
  type Reading = Option<seq<Alternative>>

  ghost function Either(a: Reading, b: Reading): Reading {
    if a.None? then b else if b.None? then a else Some(a.value + b.value)
  }

  ghost function Both(a: Reading, b: Reading): Reading {
    if a.None? then b else if b.None? then a else Some(Cross(a.value, b.value))
  }

  ghost function One(s: Option<Spec>, neg: bool): Reading {
    if s.None? then None else Some([[Literal(s.value, neg)]])
  }

  ghost function ArgsReading<T>(l: Args<T>, leaf: T -> Option<Spec>, neg: bool): Reading {
    if l.NoArgs? then None else Either(ArgsReading(l.front, leaf, neg), One(leaf(l.arg), neg))
  }

  ghost function SpecifierReading(s: Specifier, k: Lookup, neg: bool): Reading {
    match s
    case Compound(l) => SubrulesReading(l, k, neg)
    case DirectionArgs(d, l) => ArgsReading(l, IfaceLeaf(d), neg)
    case TargetArg(t) => One(Some(TargetSpec(TargetOf(t))), neg)
    case HostArgs(source, l) => ArgsReading(l, HostLeaf(k, source), neg)
    case PortArgs(source, l) => ArgsReading(l, PortLeaf(k, source), neg)
    case ProtocolArgs(l) => ArgsReading(l, ProtoLeaf(k), neg)
    case IcmpArgs(l) => ArgsReading(l, IcmpLeaf(), neg)
    case OptionArg(o) => One(Some(OptionOf(o)), neg)
    case Chaingroup(_, l) => SubrulesReading(l, k, neg)
  }

  ghost function NegatedReading(s: Negated, k: Lookup, neg: bool): Reading {
    SpecifierReading(s.spec, k, neg != s.negated)
  }

  ghost function SpecifiersReading(l: Specifiers, k: Lookup, neg: bool): Reading {
    if l.NoSpecifiers? then None else Both(SpecifiersReading(l.front, k, neg), NegatedReading(l.last, k, neg))
  }

  ghost function SubrulesReading(l: Subrules, k: Lookup, neg: bool): Reading {
    match l
    case OneSubrule(s) => SpecifiersReading(s, k, neg)
    case SnocSubrule(f, s) => Either(SubrulesReading(f, k, neg), SpecifiersReading(s, k, neg))
  }

  ghost function OrNothing(r: Reading): seq<Alternative> {
    if r.None? then [] else r.value
  }

  /** All alternatives of all rules, in source order. */
  ghost function RulesReading(l: RuleList, k: Lookup): seq<Alternative> {
    if l.NoRules? then [] else RulesReading(l.front, k) + OrNothing(SpecifiersReading(l.rule, k, false))
  }

  // ----- what is left when an empty start drops the rest of its list -----

  ghost function PrunedArgs<T>(l: Args<T>, leaf: T -> Option<Spec>): Args<T> {
    if l.NoArgs? || l.front.NoArgs? then l
    else
      var f := PrunedArgs(l.front, leaf);
      if ArgsReading(f, leaf, false).None? then f else SnocArg(f, l.arg)
  }

  ghost function PrunedSpecifier(s: Specifier, k: Lookup): Specifier {
    match s
    case Compound(l) => Compound(PrunedSubrules(l, k))
    case DirectionArgs(d, l) => DirectionArgs(d, PrunedArgs(l, IfaceLeaf(d)))
    case HostArgs(source, l) => HostArgs(source, PrunedArgs(l, HostLeaf(k, source)))
    case PortArgs(source, l) => PortArgs(source, PrunedArgs(l, PortLeaf(k, source)))
    case ProtocolArgs(l) => ProtocolArgs(PrunedArgs(l, ProtoLeaf(k)))
    case IcmpArgs(l) => IcmpArgs(PrunedArgs(l, IcmpLeaf()))
    case Chaingroup(name, l) => Chaingroup(name, PrunedSubrules(l, k))
    case _ => s
  }

  ghost function PrunedNegated(s: Negated, k: Lookup): Negated {
    Negated(s.negated, PrunedSpecifier(s.spec, k))
  }

  ghost function PrunedSpecifiers(l: Specifiers, k: Lookup): Specifiers {
    if l.NoSpecifiers? then l
    else
      var f := PrunedSpecifiers(l.front, k);
      if l.front.SnocSpecifier? && SpecifiersReading(f, k, false).None? then f
        else SnocSpecifier(f, PrunedNegated(l.last, k))
  }

  ghost function PrunedSubrules(l: Subrules, k: Lookup): Subrules {
    match l
    case OneSubrule(s) => OneSubrule(PrunedSpecifiers(s, k))
    case SnocSubrule(f, s) =>
      var p := PrunedSubrules(f, k);
      if SubrulesReading(p, k, false).None? then p else SnocSubrule(p, PrunedSpecifiers(s, k))
  }

  /** The rules without what follows an empty start in any of their lists. */
  ghost function Pruned(l: RuleList, k: Lookup): RuleList {
    if l.NoRules? then l else SnocRule(Pruned(l.front, k), PrunedSpecifiers(l.rule, k))
  }

  // ----- whether something is said does not depend on the sign -----

  lemma {:induction false} ArgsSaid<T>(l: Args<T>, leaf: T -> Option<Spec>, neg: bool)
    ensures ArgsReading(l, leaf, neg).Some? <==> ArgsReading(l, leaf, false).Some?
  {
    if l.SnocArg? {
      ArgsSaid(l.front, leaf, neg);
    }
  }

  lemma {:induction false} SpecifierSaid(s: Specifier, k: Lookup, neg: bool, neg': bool)
    ensures SpecifierReading(s, k, neg).Some? <==> SpecifierReading(s, k, neg').Some?
    decreases s
  {
    match s
    case Compound(l) => SubrulesSaid(l, k, neg, neg');
    case DirectionArgs(d, l) => ArgsSaid(l, IfaceLeaf(d), neg); ArgsSaid(l, IfaceLeaf(d), neg');
    case HostArgs(source, l) => ArgsSaid(l, HostLeaf(k, source), neg); ArgsSaid(l, HostLeaf(k, source), neg');
    case PortArgs(source, l) => ArgsSaid(l, PortLeaf(k, source), neg); ArgsSaid(l, PortLeaf(k, source), neg');
    case ProtocolArgs(l) => ArgsSaid(l, ProtoLeaf(k), neg); ArgsSaid(l, ProtoLeaf(k), neg');
    case IcmpArgs(l) => ArgsSaid(l, IcmpLeaf(), neg); ArgsSaid(l, IcmpLeaf(), neg');
    case Chaingroup(_, l) => SubrulesSaid(l, k, neg, neg');
    case _ =>
  }

  lemma {:induction false} SpecifiersSaid(l: Specifiers, k: Lookup, neg: bool, neg': bool)
    ensures SpecifiersReading(l, k, neg).Some? <==> SpecifiersReading(l, k, neg').Some?
    decreases l
  {
    if l.SnocSpecifier? {
      SpecifiersSaid(l.front, k, neg, neg');
      SpecifierSaid(l.last.spec, k, neg != l.last.negated, neg' != l.last.negated);
    }
  }

  lemma {:induction false} SubrulesSaid(l: Subrules, k: Lookup, neg: bool, neg': bool)
    ensures SubrulesReading(l, k, neg).Some? <==> SubrulesReading(l, k, neg').Some?
    decreases l
  {
    match l
    case OneSubrule(s) => SpecifiersSaid(s, k, neg, neg');
    case SnocSubrule(f, s) => SubrulesSaid(f, k, neg, neg'); SpecifiersSaid(s, k, neg, neg');
  }

  // ----- the conversion has the reading -----

  /** A list form with the reading `r`. */
  ghost predicate ListSays(f: Form, neg: bool, r: Reading) {
    (f.Nil? <==> r.None?) && (f.Cons? ==> ListReads(f, neg) == r.value)
  }

  /** A form of one member with the reading `r`. */
  ghost predicate ChainSays(f: Form, neg: bool, r: Reading) {
    (f.Nil? <==> r.None?) && (f.Cons? ==> f.next.Nil? && ChainReads(f, neg) == r.value)
  }

  lemma ChainIsList(f: Form, neg: bool, r: Reading)
    requires ChainSays(f, neg, r)
    ensures ListSays(f, neg, r)
  {
    if f.Cons? {
      ListOfOneReads(f, neg);
    }
  }

  lemma {:induction false} JoinReads<N>(f: TreeOf<N>, g: TreeOf<N>, neg: bool)
    ensures ListReads(JoinNext(f, g), neg) == ListReads(f, neg) + ListReads(g, neg)
    ensures JoinNext(f, g).Nil? <==> f.Nil? && g.Nil?
  {
    if f.Cons? {
      JoinReads(f.next, g, neg);
      SameReads(JoinNext(f, g), f, neg);
      SeqAssoc(ChainReads(f, neg), ListReads(f.next, neg), ListReads(g, neg));
    } else {
      assert [] + ListReads(g, neg) == ListReads(g, neg);
    }
  }

  lemma JoinSays(f: Form, g: Form, neg: bool, a: Reading, b: Reading)
    requires ListSays(f, neg, a) && ListSays(g, neg, b)
    ensures ListSays(JoinNext(f, g), neg, Either(a, b))
  {
    JoinReads(f, g, neg);
    if g.Nil? && f.Cons? {
      assert ListReads(f, neg) + [] == ListReads(f, neg);
    }
  }

  lemma ConcatSays(f: Form, g: Form, neg: bool, a: Reading, b: Reading)
    requires ChainSays(f, neg, a) && ChainSays(g, neg, b) && f.Cons?
    ensures ChainSays(Concat(f, g), neg, Both(a, b))
  {
    ConcatReads(f, g, neg);
    CrossUnit(ChainReads(f, neg));
  }

  lemma AroundSays(k: FilterTree.Kind, f: Form, neg: bool, r: Reading)
    requires !k.LeafKind? && ListSays(f, if k.NegKind? then !neg else neg, r)
    ensures ChainSays(Around(k, f), neg, r)
  {
    if f.Cons? {
      ChainOfOneReads(Around(k, f), neg);
    }
  }

  lemma LeafSays(s: Option<Spec>, neg: bool)
    ensures ChainSays(LeafForm(s), neg, One(s, neg)) && ListSays(LeafForm(s), neg, One(s, neg))
  {
    if s.Some? {
      ChainOfOneReads(LeafForm(s), neg);
      ListOfOneReads(LeafForm(s), neg);
    }
  }

  lemma {:induction false} ArgsSay<T>(l: Args<T>, leaf: T -> Option<Spec>, neg: bool)
    ensures ListSays(ArgsForm(l, leaf), neg, ArgsReading(PrunedArgs(l, leaf), leaf, neg))
  {
    if l.SnocArg? {
      LeafSays(leaf(l.arg), neg);
      if l.front.SnocArg? {
        var f := PrunedArgs(l.front, leaf);
        ArgsSay(l.front, leaf, neg);
        ArgsSaid(f, leaf, neg);
        if ArgsForm(l.front, leaf).Cons? {
          JoinSays(ArgsForm(l.front, leaf), LeafForm(leaf(l.arg)), neg, ArgsReading(f, leaf, neg),
                   One(leaf(l.arg), neg));
        }
      }
    }
  }

  lemma ArgsAroundSay<T>(l: Args<T>, leaf: T -> Option<Spec>, neg: bool)
    ensures ChainSays(Around(SiblingsKind, ArgsForm(l, leaf)), neg, ArgsReading(PrunedArgs(l, leaf), leaf, neg))
  {
    ArgsSay(l, leaf, neg);
    AroundSays(SiblingsKind, ArgsForm(l, leaf), neg, ArgsReading(PrunedArgs(l, leaf), leaf, neg));
  }

  lemma {:induction false} SpecifierSays(s: Specifier, k: Lookup, n: nat, neg: bool)
    ensures ChainSays(SpecifierForm(s, k, n).form, neg, SpecifierReading(PrunedSpecifier(s, k), k, neg))
    decreases s
  {
    match s
    case Compound(l) =>
      SubrulesSay(l, k, n, neg);
      AroundSays(SiblingsKind, SubrulesForm(l, k, n).form, neg, SubrulesReading(PrunedSubrules(l, k), k, neg));
    case DirectionArgs(d, l) => ArgsAroundSay(l, IfaceLeaf(d), neg);
    case TargetArg(t) => LeafSays(Some(TargetSpec(TargetOf(t))), neg);
    case HostArgs(source, l) => ArgsAroundSay(l, HostLeaf(k, source), neg);
    case PortArgs(source, l) => ArgsAroundSay(l, PortLeaf(k, source), neg);
    case ProtocolArgs(l) => ArgsAroundSay(l, ProtoLeaf(k), neg);
    case IcmpArgs(l) => ArgsAroundSay(l, IcmpLeaf(), neg);
    case OptionArg(o) => LeafSays(Some(OptionOf(o)), neg);
    case Chaingroup(name, l) =>
      var n' := if name.Some? then n else n + 1;
      SubrulesSay(l, k, n', neg);
      var kind := SubgroupKind(if name.Some? then name.value else ChainName(n));
      AroundSays(kind, SubrulesForm(l, k, n').form, neg, SubrulesReading(PrunedSubrules(l, k), k, neg));
  }

  lemma NegatedSays(s: Negated, k: Lookup, n: nat, neg: bool)
    ensures ChainSays(NegatedForm(s, k, n).form, neg, NegatedReading(PrunedNegated(s, k), k, neg))
    decreases s, 1
  {
    SpecifierSays(s.spec, k, n, neg != s.negated);
    if s.negated {
      var f, r := SpecifierForm(s.spec, k, n).form, NegatedReading(PrunedNegated(s, k), k, neg);
      ChainIsList(f, !neg, r);
      AroundSays(NegKind, f, neg, r);
    }
  }

  lemma {:induction false} SpecifiersSay(l: Specifiers, k: Lookup, n: nat, neg: bool)
    ensures ChainSays(SpecifiersForm(l, k, n).form, neg, SpecifiersReading(PrunedSpecifiers(l, k), k, neg))
    decreases l
  {
    if l.SnocSpecifier? {
      var r, f := SpecifiersForm(l.front, k, n), PrunedSpecifiers(l.front, k);
      NegatedSays(l.last, k, n, neg);
      if l.front.SnocSpecifier? {
        SpecifiersSay(l.front, k, n, neg);
        SpecifiersSaid(f, k, neg, false);
        NegatedSays(l.last, k, r.count, neg);
        if r.form.Cons? {
          var a, b := SpecifiersReading(f, k, neg), NegatedReading(PrunedNegated(l.last, k), k, neg);
          ConcatSays(r.form, NegatedForm(l.last, k, r.count).form, neg, a, b);
        }
      }
    }
  }

  lemma {:induction false} SubrulesSay(l: Subrules, k: Lookup, n: nat, neg: bool)
    ensures ListSays(SubrulesForm(l, k, n).form, neg, SubrulesReading(PrunedSubrules(l, k), k, neg))
    decreases l
  {
    match l
    case OneSubrule(s) =>
      SpecifiersSay(s, k, n, neg);
      ChainIsList(SpecifiersForm(s, k, n).form, neg, SpecifiersReading(PrunedSpecifiers(s, k), k, neg));
    case SnocSubrule(f, s) =>
      var r, p := SubrulesForm(f, k, n), PrunedSubrules(f, k);
      SubrulesSay(f, k, n, neg);
      SubrulesSaid(p, k, neg, false);
      if r.form.Cons? {
        var b := SpecifiersReading(PrunedSpecifiers(s, k), k, neg);
        SpecifiersSay(s, k, r.count, neg);
        ChainIsList(SpecifiersForm(s, k, r.count).form, neg, b);
        JoinSays(r.form, SpecifiersForm(s, k, r.count).form, neg, SubrulesReading(p, k, neg), b);
      }
  }

  /** The converted tree reads as the syntax tree does without what an empty start drops. */
  lemma {:induction false} RulesSay(l: RuleList, k: Lookup, n: nat)
    ensures ListReads(RulesForm(l, k, n).form, false) == RulesReading(Pruned(l, k), k)
  {
    if l.SnocRule? {
      var r := RulesForm(l.front, k, n);
      RulesSay(l.front, k, n);
      SpecifiersSay(l.rule, k, r.count, false);
      var f := SpecifiersForm(l.rule, k, r.count).form;
      ChainIsList(f, false, SpecifiersReading(PrunedSpecifiers(l.rule, k), k, false));
      JoinReads(r.form, f, false);
    }
  }

  // ----- when nothing is lost -----

  /** Where a front gives nothing, what follows gives nothing. */
  ghost predicate LosslessArgs<T>(l: Args<T>, leaf: T -> Option<Spec>) {
    l.SnocArg? && l.front.SnocArg? ==>
      LosslessArgs(l.front, leaf) && (ArgsReading(l.front, leaf, false).None? ==> leaf(l.arg).None?)
  }

  ghost predicate LosslessSpecifier(s: Specifier, k: Lookup) {
    match s
    case Compound(l) => LosslessSubrules(l, k)
    case DirectionArgs(d, l) => LosslessArgs(l, IfaceLeaf(d))
    case HostArgs(source, l) => LosslessArgs(l, HostLeaf(k, source))
    case PortArgs(source, l) => LosslessArgs(l, PortLeaf(k, source))
    case ProtocolArgs(l) => LosslessArgs(l, ProtoLeaf(k))
    case IcmpArgs(l) => LosslessArgs(l, IcmpLeaf())
    case Chaingroup(_, l) => LosslessSubrules(l, k)
    case _ => true
  }

  ghost predicate LosslessSpecifiers(l: Specifiers, k: Lookup) {
    l.SnocSpecifier? ==>
      && LosslessSpecifiers(l.front, k) && LosslessSpecifier(l.last.spec, k)
      && (l.front.SnocSpecifier? && SpecifiersReading(l.front, k, false).None?
          ==> NegatedReading(l.last, k, false).None?)
  }

  ghost predicate LosslessSubrules(l: Subrules, k: Lookup) {
    match l
    case OneSubrule(s) => LosslessSpecifiers(s, k)
    case SnocSubrule(f, s) =>
      && LosslessSubrules(f, k) && LosslessSpecifiers(s, k)
      && (SubrulesReading(f, k, false).None? ==> SpecifiersReading(s, k, false).None?)
  }

  /** In no list of any rule does something follow a front that gives nothing. */
  ghost predicate Lossless(l: RuleList, k: Lookup) {
    l.SnocRule? ==> Lossless(l.front, k) && LosslessSpecifiers(l.rule, k)
  }

  // ----- a reading and what is left of it, compared by their literals -----

  ghost function LiteralCount(xs: seq<Alternative>): nat {
    if xs == [] then 0 else |xs[0]| + LiteralCount(xs[1..])
  }

  ghost function Rows(r: Reading): nat { if r.None? then 0 else |r.value| }

  ghost function Mass(r: Reading): nat { if r.None? then 0 else LiteralCount(r.value) }

  /** A reading that says something has alternatives, and they have literals. */
  ghost predicate Substantial(r: Reading) {
    r.Some? ==> Rows(r) >= 1 && Mass(r) >= 1
  }

  /** `p` is what is left of `r`; all of it if `whole`, less of it otherwise. */
  ghost predicate LeftOf(p: Reading, r: Reading, whole: bool) {
    && Substantial(p) && Substantial(r) && Rows(p) <= Rows(r) && Mass(p) <= Mass(r)
    && if whole then p == r else Mass(p) < Mass(r)
  }

  lemma {:induction false} LiteralsAppend(xs: seq<Alternative>, ys: seq<Alternative>)
    ensures LiteralCount(xs + ys) == LiteralCount(xs) + LiteralCount(ys)
    decreases |xs|
  {
    if xs == [] {
      assert xs + ys == ys;
    } else {
      assert (xs + ys)[0] == xs[0] && (xs + ys)[1..] == xs[1..] + ys;
      LiteralsAppend(xs[1..], ys);
    }
  }

  lemma {:induction false} LiteralsPrefix(a: Alternative, ys: seq<Alternative>)
    ensures LiteralCount(Prefix(a, ys)) == |ys| * |a| + LiteralCount(ys)
    decreases |ys|
  {
    if ys != [] {
      LiteralsPrefix(a, ys[1..]);
      assert Prefix(a, ys)[1..] == Prefix(a, ys[1..]);
    }
  }

  lemma {:induction false} LiteralsCross(xs: seq<Alternative>, ys: seq<Alternative>)
    ensures |Cross(xs, ys)| == |xs| * |ys|
    ensures LiteralCount(Cross(xs, ys)) == |ys| * LiteralCount(xs) + |xs| * LiteralCount(ys)
    decreases |xs|
  {
    if xs != [] {
      LiteralsCross(xs[1..], ys);
      LiteralsPrefix(xs[0], ys);
      LiteralsAppend(Prefix(xs[0], ys), Cross(xs[1..], ys));
      OneMore(|xs[0]|, |ys|, |xs| - 1, LiteralCount(xs[1..]), LiteralCount(ys));
    }
  }

  lemma OneMore(a: nat, n: nat, m: nat, r: nat, l: nat)
    ensures n + m * n == (m + 1) * n && n * a + l + (n * r + m * l) == n * (a + r) + (m + 1) * l
  {
  }

  lemma EitherLeft(p1: Reading, p2: Reading, r1: Reading, r2: Reading, whole1: bool, whole2: bool)
    requires LeftOf(p1, r1, whole1) && LeftOf(p2, r2, whole2)
    ensures LeftOf(if p1.None? then p1 else Either(p1, p2), Either(r1, r2), whole1 && whole2 && (r1.None? ==> r2.None?))
  {
    if r1.Some? && r2.Some? {
      LiteralsAppend(r1.value, r2.value);
      if p1.Some? && p2.Some? {
        LiteralsAppend(p1.value, p2.value);
      }
    }
  }

  lemma Products(n1: nat, m1: nat, n2: nat, m2: nat, a1: nat, b1: nat, a2: nat, b2: nat)
    requires n1 <= a1 && m1 <= b1 && n2 <= a2 && m2 <= b2 && n1 >= 1 && n2 >= 1
    ensures n1 * n2 <= a1 * a2 && n2 * m1 + n1 * m2 <= a2 * b1 + a1 * b2 && n1 * n2 >= 1 && n2 * m1 + n1 * m2 >= m1 + m2
    ensures m1 < b1 || m2 < b2 ==> n2 * m1 + n1 * m2 < a2 * b1 + a1 * b2
  {
    MulLeq(n1, n2, a1, a2);
    MulLeq(n2, m1, a2, b1);
    MulLeq(n1, m2, a1, b2);
    MulLeq(1, m1, n2, m1);
    MulLeq(1, m2, n1, m2);
    MulLeq(1, 1, n1, n2);
  }

  lemma MulLeq(x: nat, y: nat, a: nat, b: nat)
    requires x <= a && y <= b
    ensures x * y <= a * b && (x >= 1 && y < b ==> x * y < a * b)
  {
    assert a * b == x * y + x * (b - y) + (a - x) * b;
    if x >= 1 && y < b {
      assert x * (b - y) >= 1;
    }
  }

  lemma BothLeft(p1: Reading, p2: Reading, r1: Reading, r2: Reading, whole1: bool, whole2: bool)
    requires LeftOf(p1, r1, whole1) && LeftOf(p2, r2, whole2)
    ensures LeftOf(if p1.None? then p1 else Both(p1, p2), Both(r1, r2), whole1 && whole2 && (r1.None? ==> r2.None?))
  {
    if r1.Some? && r2.Some? {
      LiteralsCross(r1.value, r2.value);
      Products(1, 1, 1, 1, Rows(r1), Mass(r1), Rows(r2), Mass(r2));
      if p1.Some? {
        if p2.Some? {
          LiteralsCross(p1.value, p2.value);
          Products(Rows(p1), Mass(p1), Rows(p2), Mass(p2), Rows(r1), Mass(r1), Rows(r2), Mass(r2));
        } else {
          Products(Rows(p1), Mass(p1), 1, 0, Rows(r1), Mass(r1), Rows(r2), Mass(r2));
        }
      }
    }
  }

  lemma OneLeft(s: Option<Spec>, neg: bool)
    ensures LeftOf(One(s, neg), One(s, neg), true)
  {
    if s.Some? {
      var xs := [[Literal(s.value, neg)]];
      assert One(s, neg).value == xs && xs[1..] == [];
    }
  }

  lemma {:induction false} ArgsLeft<T>(l: Args<T>, leaf: T -> Option<Spec>, neg: bool)
    ensures LeftOf(ArgsReading(PrunedArgs(l, leaf), leaf, neg), ArgsReading(l, leaf, neg), LosslessArgs(l, leaf))
  {
    if l.SnocArg? {
      OneLeft(leaf(l.arg), neg);
      if l.front.SnocArg? {
        ArgsLeft(l.front, leaf, neg);
        ArgsSaid(l.front, leaf, neg);
        ArgsSaid(PrunedArgs(l.front, leaf), leaf, neg);
        var o := One(leaf(l.arg), neg);
        EitherLeft(ArgsReading(PrunedArgs(l.front, leaf), leaf, neg), o, ArgsReading(l.front, leaf, neg), o,
                   LosslessArgs(l.front, leaf), true);
      }
    }
  }

  lemma {:induction false} SpecifierLeft(s: Specifier, k: Lookup, neg: bool)
    ensures LeftOf(SpecifierReading(PrunedSpecifier(s, k), k, neg), SpecifierReading(s, k, neg),
                   LosslessSpecifier(s, k))
    decreases s
  {
    match s
    case Compound(l) => SubrulesLeft(l, k, neg);
    case DirectionArgs(d, l) => ArgsLeft(l, IfaceLeaf(d), neg);
    case TargetArg(t) => OneLeft(Some(TargetSpec(TargetOf(t))), neg);
    case HostArgs(source, l) => ArgsLeft(l, HostLeaf(k, source), neg);
    case PortArgs(source, l) => ArgsLeft(l, PortLeaf(k, source), neg);
    case ProtocolArgs(l) => ArgsLeft(l, ProtoLeaf(k), neg);
    case IcmpArgs(l) => ArgsLeft(l, IcmpLeaf(), neg);
    case OptionArg(o) => OneLeft(Some(OptionOf(o)), neg);
    case Chaingroup(_, l) => SubrulesLeft(l, k, neg);
  }

  lemma {:induction false} SpecifiersLeft(l: Specifiers, k: Lookup, neg: bool)
    ensures LeftOf(SpecifiersReading(PrunedSpecifiers(l, k), k, neg), SpecifiersReading(l, k, neg),
                   LosslessSpecifiers(l, k))
    decreases l
  {
    if l.SnocSpecifier? {
      SpecifierLeft(l.last.spec, k, neg != l.last.negated);
      if l.front.NoSpecifiers? {
        assert PrunedSpecifiers(l, k) == SnocSpecifier(l.front, PrunedNegated(l.last, k));
        assert SpecifiersReading(l.front, k, neg) == None;
        assert LosslessSpecifiers(l, k) <==> LosslessSpecifier(l.last.spec, k);
      } else {
        var f := PrunedSpecifiers(l.front, k);
        SpecifiersLeft(l.front, k, neg);
        SpecifiersSaid(l.front, k, neg, false);
        SpecifiersSaid(f, k, neg, false);
        SpecifierSaid(l.last.spec, k, neg != l.last.negated, false != l.last.negated);
        BothLeft(SpecifiersReading(f, k, neg), NegatedReading(PrunedNegated(l.last, k), k, neg),
                 SpecifiersReading(l.front, k, neg), NegatedReading(l.last, k, neg),
                 LosslessSpecifiers(l.front, k), LosslessSpecifier(l.last.spec, k));
      }
    }
  }

  lemma {:induction false} SubrulesLeft(l: Subrules, k: Lookup, neg: bool)
    ensures LeftOf(SubrulesReading(PrunedSubrules(l, k), k, neg), SubrulesReading(l, k, neg), LosslessSubrules(l, k))
    decreases l
  {
    match l
    case OneSubrule(s) => SpecifiersLeft(s, k, neg);
    case SnocSubrule(f, s) =>
      SubrulesLeft(f, k, neg);
      SpecifiersLeft(s, k, neg);
      SubrulesSaid(f, k, neg, false);
      SubrulesSaid(PrunedSubrules(f, k), k, neg, false);
      SpecifiersSaid(s, k, neg, false);
      EitherLeft(SubrulesReading(PrunedSubrules(f, k), k, neg), SpecifiersReading(PrunedSpecifiers(s, k), k, neg),
                 SubrulesReading(f, k, neg), SpecifiersReading(s, k, neg), LosslessSubrules(f, k),
                 LosslessSpecifiers(s, k));
  }

  lemma {:induction false} RulesLeft(l: RuleList, k: Lookup)
    ensures LiteralCount(RulesReading(Pruned(l, k), k)) <= LiteralCount(RulesReading(l, k))
    ensures if Lossless(l, k) then RulesReading(Pruned(l, k), k) == RulesReading(l, k)
            else LiteralCount(RulesReading(Pruned(l, k), k)) < LiteralCount(RulesReading(l, k))
  {
    if l.SnocRule? {
      RulesLeft(l.front, k);
      SpecifiersLeft(l.rule, k, false);
      var p, r := SpecifiersReading(PrunedSpecifiers(l.rule, k), k, false), SpecifiersReading(l.rule, k, false);
      LiteralsAppend(RulesReading(Pruned(l.front, k), k), OrNothing(p));
      LiteralsAppend(RulesReading(l.front, k), OrNothing(r));
    }
  }

  /** The converted tree has the Boolean reading of the syntax tree if and only if no list goes on with
      something after a front that gives nothing. */
  lemma RulesSayAll(l: RuleList, k: Lookup, n: nat)
    ensures ListReads(RulesForm(l, k, n).form, false) == RulesReading(l, k) <==> Lossless(l, k)
  {
    RulesSay(l, k, n);
    RulesLeft(l, k);
  }
}
