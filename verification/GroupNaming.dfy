/** The names of groups: an unnamed group takes a name of its own. */
module GroupNaming {
  import opened FilterSpec
  import opened FilterGraph
  import opened FilterSyntax
  import opened FilterTree
  import opened FilterNegation
  import opened FilterPasses
  import opened SyntaxForms
  import opened Conversion

  // ----- numbers and names -----

  predicate Digits(s: string) {
    s != [] && forall c | c in s :: '0' <= c <= '9'
  }

  /** The number a text of digits stands for. */
  function Value(s: string): int {
    if s == [] then 0 else 10 * Value(s[..|s| - 1]) + (s[|s| - 1] as int - '0' as int)
  }

  lemma OneMoreDigit(s: string, d: nat)
    requires d < 10 && (s == [] || Digits(s))
    ensures var t := s + [('0' as int + d) as char]; Digits(t) && Value(t) == 10 * Value(s) + d
  {
    var t := s + [('0' as int + d) as char];
    assert t[..|t| - 1] == s;
  }

  /** The text of a number is its digits, without a zero in front. */
  lemma {:induction false} DecimalReads(n: nat)
    ensures Digits(Decimal(n)) && Value(Decimal(n)) == n && (Decimal(n)[0] == '0' ==> n == 0)
    decreases n
  {
    if n < 10 {
      OneMoreDigit([], n);
    } else {
      DecimalReads(n / 10);
      OneMoreDigit(Decimal(n / 10), n % 10);
    }
  }

  /** The name of an unnamed group is `chain_` and its number; different numbers give different names. */
  lemma NamesTell(m: nat, n: nat)
    ensures ChainName(m)[..6] == "chain_" && Digits(ChainName(m)[6..]) && Value(ChainName(m)[6..]) == m
    ensures ChainName(m) == ChainName(n) ==> m == n
  {
    assert ChainName(m)[6..] == Decimal(m) && ChainName(n)[6..] == Decimal(n);
    DecimalReads(m);
    DecimalReads(n);
  }

  // ----- how often a name is taken -----

  /** The groups of that name in a tree. */
  ghost function Times<N>(t: TreeOf<N>, name: string): nat {
    if t.Nil? then 0
    else (if t.kind == SubgroupKind(name) then 1 else 0) + Times(t.inner, name) + Times(t.child, name)
                                                      + Times(t.next, name)
  }

  /** The groups to which the source gives that name. */
  ghost function GivenBy(s: Specifier, name: string): nat {
    match s
    case Compound(l) => GivenIn(l, name)
    case Chaingroup(x, l) => (if x == Some(name) then 1 else 0) + GivenIn(l, name)
    case _ => 0
  }

  ghost function GivenAlong(l: Specifiers, name: string): nat {
    if l.NoSpecifiers? then 0 else GivenAlong(l.front, name) + GivenBy(l.last.spec, name)
  }

  ghost function GivenIn(l: Subrules, name: string): nat {
    match l
    case OneSubrule(s) => GivenAlong(s, name)
    case SnocSubrule(f, s) => GivenIn(f, name) + GivenAlong(s, name)
  }

  ghost function Given(l: RuleList, name: string): nat {
    if l.NoRules? then 0 else Given(l.front, name) + GivenAlong(l.rule, name)
  }

  /** Whether it is the name of one of the numbers from `n` up to `c`. */
  ghost function Numbered(name: string, n: nat, c: nat): nat {
    if exists i: nat | n <= i < c :: ChainName(i) == name then 1 else 0
  }

  lemma NumberedJoin(name: string, n: nat, m: nat, c: nat)
    requires n <= m <= c
    ensures Numbered(name, n, m) + Numbered(name, m, c) == Numbered(name, n, c)
  {
    if i: nat, j: nat :| n <= i < m && m <= j < c && ChainName(i) == name && ChainName(j) == name {
      NamesTell(i, j);
      assert false;
    }
  }

  lemma NumberedOne(name: string, n: nat)
    ensures Numbered(name, n, n + 1) == if name == ChainName(n) then 1 else 0
    ensures Numbered(name, n, n) == 0
  {
    if name == ChainName(n) {
      assert n <= n < n + 1;
    }
  }

  lemma {:induction false} JoinTimes<N>(f: TreeOf<N>, g: TreeOf<N>, name: string)
    ensures Times(JoinNext(f, g), name) == Times(f, name) + Times(g, name)
  {
    if f.Cons? {
      JoinTimes(f.next, g, name);
    }
  }

  lemma {:induction false} ConcatTimes<N>(f: TreeOf<N>, g: TreeOf<N>, name: string)
    requires f.Cons? || g.Nil?
    ensures Times(Concat(f, g), name) == Times(f, name) + Times(g, name)
  {
    if f.Cons? && f.child.Cons? {
      ConcatTimes(f.child, g, name);
    }
  }

  lemma {:induction false} ArgsTimes<T>(l: Args<T>, leaf: T -> Option<FilterSpec.Spec>, name: string)
    ensures Times(ArgsForm(l, leaf), name) == 0
  {
    if l.SnocArg? {
      ArgsTimes(l.front, leaf, name);
      JoinTimes(ArgsForm(l.front, leaf), LeafForm(leaf(l.arg)), name);
    }
  }

  /** The conversion takes each number at most once, and each given name as often as it is given at most. */
  ghost predicate Takes(r: Converted, n: nat, given: nat, name: string) {
    n <= r.count && Times(r.form, name) <= given + Numbered(name, n, r.count)
  }

  lemma {:induction false} SpecifierTakes(s: Specifier, k: Lookup, n: nat, name: string)
    ensures Takes(SpecifierForm(s, k, n), n, GivenBy(s, name), name)
    decreases s
  {
    NumberedOne(name, n);
    match s
    case Compound(l) => SubrulesTake(l, k, n, name);
    case DirectionArgs(d, l) => ArgsTimes(l, IfaceLeaf(d), name);
    case HostArgs(source, l) => ArgsTimes(l, HostLeaf(k, source), name);
    case PortArgs(source, l) => ArgsTimes(l, PortLeaf(k, source), name);
    case ProtocolArgs(l) => ArgsTimes(l, ProtoLeaf(k), name);
    case IcmpArgs(l) => ArgsTimes(l, IcmpLeaf(), name);
    case Chaingroup(x, l) =>
      var m := if x.Some? then n else n + 1;
      SubrulesTake(l, k, m, name);
      NumberedJoin(name, n, m, SubrulesForm(l, k, m).count);
    case _ =>
  }

  lemma {:induction false} SpecifiersTake(l: Specifiers, k: Lookup, n: nat, name: string)
    ensures Takes(SpecifiersForm(l, k, n), n, GivenAlong(l, name), name)
    decreases l
  {
    NumberedOne(name, n);
    if l.SnocSpecifier? {
      var r := SpecifiersForm(l.front, k, n);
      SpecifiersTake(l.front, k, n, name);
      SpecifierTakes(l.last.spec, k, n, name);
      SpecifierTakes(l.last.spec, k, r.count, name);
      var s := NegatedForm(l.last, k, r.count);
      NumberedJoin(name, n, r.count, s.count);
      if r.form.Cons? {
        ConcatTimes(r.form, s.form, name);
      }
    }
  }

  lemma {:induction false} SubrulesTake(l: Subrules, k: Lookup, n: nat, name: string)
    ensures Takes(SubrulesForm(l, k, n), n, GivenIn(l, name), name)
    decreases l
  {
    match l
    case OneSubrule(s) => SpecifiersTake(s, k, n, name);
    case SnocSubrule(f, s) =>
      var r := SubrulesForm(f, k, n);
      SubrulesTake(f, k, n, name);
      SpecifiersTake(s, k, r.count, name);
      var q := SpecifiersForm(s, k, r.count);
      NumberedJoin(name, n, r.count, q.count);
      JoinTimes(r.form, q.form, name);
  }

  /** A name stands in the converted tree at most as often as the source gives it, and once more if it
      is that of a number the conversion has used. */
  lemma {:induction false} RulesTake(l: RuleList, k: Lookup, n: nat, name: string)
    ensures Takes(RulesForm(l, k, n), n, Given(l, name), name)
  {
    NumberedOne(name, n);
    if l.SnocRule? {
      var r := RulesForm(l.front, k, n);
      RulesTake(l.front, k, n, name);
      SpecifiersTake(l.rule, k, r.count, name);
      var q := SpecifiersForm(l.rule, k, r.count);
      NumberedJoin(name, n, r.count, q.count);
      JoinTimes(r.form, q.form, name);
    }
  }

  // ----- names in the heap -----

  /** No name is given twice, and none that an unnamed group takes. */
  ghost predicate NamesApart(l: RuleList, k: Lookup, n: nat) {
    forall name: string :: Given(l, name) + Numbered(name, n, RulesForm(l, k, n).count) <= 1
  }

  /** The source names no group. */
  ghost predicate Unnamed(l: RuleList) {
    forall name: string :: Given(l, name) == 0
  }

  /** Then the names of its groups are those of the numbers used, each at most once. */
  lemma UnnamedNumbered(l: RuleList, k: Lookup, n: nat, name: string)
    requires Unnamed(l)
    ensures NamesApart(l, k, n) && Times(RulesForm(l, k, n).form, name) <= 1
    ensures Times(RulesForm(l, k, n).form, name) == 1 ==>
      exists i: nat | n <= i < RulesForm(l, k, n).count :: name == ChainName(i)
  {
    RulesTake(l, k, n, name);
    assert Given(l, name) == 0;
  }

  lemma {:induction false} ErasedTimes(t: Tree, name: string)
    ensures Times(Erase(t), name) == Times(t, name)
  {
    if t.Cons? {
      ErasedTimes(t.inner, name);
      ErasedTimes(t.child, name);
      ErasedTimes(t.next, name);
    }
  }

  /** The groups of a tree with their names. */
  ghost function Tagged(t: Tree): set<(Filter, string)> {
    if t.Nil? then {}
    else (if t.kind.SubgroupKind? then {(t.node, t.kind.name)} else {}) + Tagged(t.inner) + Tagged(t.child)
                                                                    + Tagged(t.next)
  }

  lemma {:induction false} TaggedTimes(t: Tree, f: Filter, name: string)
    requires (f, name) in Tagged(t)
    ensures Times(t, name) > 0
  {
    if (f, name) in Tagged(t.inner) {
      TaggedTimes(t.inner, f, name);
    } else if (f, name) in Tagged(t.child) {
      TaggedTimes(t.child, f, name);
    } else if (f, name) in Tagged(t.next) {
      TaggedTimes(t.next, f, name);
    }
  }

  lemma {:induction false} OnceTagged(t: Tree, f: Filter, g: Filter, name: string)
    requires Times(t, name) <= 1 && (f, name) in Tagged(t) && (g, name) in Tagged(t)
    ensures f == g
  {
    forall h, part | (h == f || h == g) && part in {t.inner, t.child, t.next} && (h, name) in Tagged(part)
      ensures Times(part, name) > 0
    {
      TaggedTimes(part, h, name);
    }
    if (f, name) in Tagged(t.inner) && (g, name) in Tagged(t.inner) {
      OnceTagged(t.inner, f, g, name);
    } else if (f, name) in Tagged(t.child) && (g, name) in Tagged(t.child) {
      OnceTagged(t.child, f, g, name);
    } else if (f, name) in Tagged(t.next) && (g, name) in Tagged(t.next) {
      OnceTagged(t.next, f, g, name);
    }
  }

  // ----- the passes keep the names -----

  lemma {:induction false} TailTagged(t: Tree, c: Tree)
    ensures Tagged(Tail(t, c)) <= Tagged(t) + Tagged(c)
  {
    if t.Cons? && c.Cons? {
      TailTagged(t.inner, c);
      TailTagged(t.child, c);
    }
  }

  lemma {:induction false} ExpandTagged(t: Tree, neg: bool)
    ensures Tagged(Expand(t, neg)) <= Tagged(t)
  {
    if t.Cons? {
      ExpandTagged(t.inner, neg);
      ExpandTagged(t.inner, !neg);
      ExpandTagged(t.child, neg);
      ExpandTagged(t.next, neg);
      TailTagged(Expand(t.inner, !neg), Expand(t.child, neg));
    }
  }

  lemma {:induction false} ConcatTagged(c: Tree, d: Tree)
    ensures Tagged(Concat(c, d)) <= Tagged(c) + Tagged(d)
  {
    if c.Cons? {
      ConcatTagged(c.child, d);
    }
  }

  lemma {:induction false} ToEndTagged(t: Tree)
    ensures Tagged(ToEnd(t)) <= Tagged(t)
  {
    if t.Cons? {
      ToEndTagged(t.child);
      ToEndTagged(t.next);
      ConcatTagged(t.child, t.(child := Nil));
    }
  }

  lemma {:induction false} UnrolledTagged(t: Tree, k: Filter?, g: Graph, f: Filter)
    requires Unrolled(t, k, g) && f in Nodes(t) && f in g && g[f].u.Subgroup?
    ensures (f, g[f].u.name) in Tagged(t)
  {
    if f in Nodes(t.inner) {
      UnrolledTagged(t.inner, if t.kind.SiblingsKind? then After(t, k) else null, g, f);
    } else if f in Nodes(t.child) {
      UnrolledTagged(t.child, k, g, f);
    } else if f in Nodes(t.next) {
      UnrolledTagged(t.next, k, g, f);
    }
  }

  /** In the prepared graph no two groups have the same name. */
  lemma NamesStayApart(ast: RuleList, k: Lookup, n: nat, t: Tree, g: Graph, f: Filter, h: Filter)
    requires Erase(t) == RulesForm(ast, k, n).form && NamesApart(ast, k, n)
    requires Unrolled(Prepared(t), null, g) && g.Keys == Nodes(Prepared(t))
    requires f in g && h in g && g[f].u.Subgroup? && g[h].u.Subgroup? && g[f].u.name == g[h].u.name
    ensures f == h
  {
    var name := g[f].u.name;
    UnrolledTagged(Prepared(t), null, g, f);
    UnrolledTagged(Prepared(t), null, g, h);
    ToEndTagged(Expand(t, false));
    ExpandTagged(t, false);
    RulesTake(ast, k, n, name);
    ErasedTimes(t, name);
    OnceTagged(t, f, h, name);
  }
}
