/** What the words of the source mean for packets: each keyword with its arguments, the options
    `local`, `forward`, `oneway` and `log`, and the names of the targets. */
module SyntaxMeaning {
  import opened FilterSpec
  import opened FilterEntry
  import opened EntryOrder
  import opened FilterGraph
  import opened FilterSyntax
  import opened Readings
  import opened SyntaxForms
  import opened SyntaxReadings
  import opened CompiledRules
  import opened IptablesRules
  import opened Netfilter
  import opened RuleMeaning
  import opened LoadedScript
  import opened ScriptVerdicts
  import opened SourceVerdicts
  import opened EntryChecks
  import opened NatTable

  // ----- a keyword with its arguments -----

  function Listed<T>(l: Args<T>): seq<T> {
    if l.NoArgs? then [] else Listed(l.front) + [l.arg]
  }

  predicate OnSide(d: Direction, i: string, p: Packet, env: Env) {
    i == "*" || (var on := if d == Input then p.inIface else p.outIface; on.Some? && env.iface(i, on.value))
  }

  /** Some argument that the lookups know fits the packet, or does not if the specifier is negated. */
  ghost predicate Fits(s: Specifier, k: Lookup, neg: bool, p: Packet, env: Env) {
    match s
    case DirectionArgs(d, l) => exists i | i in Listed(l) :: OnSide(d, i, p, env) != neg
    case HostArgs(true, l) => exists h | h in Listed(l) :: k.addr(h).Some? && env.addr(k.addr(h).value, p.src) != neg
    case HostArgs(false, l) => exists h | h in Listed(l) :: k.addr(h).Some? && env.addr(k.addr(h).value, p.dst) != neg
    case PortArgs(true, l) => exists x | x in Listed(l) :: env.ports(k.ports(x), p.sport) != neg
    case PortArgs(false, l) => exists x | x in Listed(l) :: env.ports(k.ports(x), p.dport) != neg
    case ProtocolArgs(l) => exists n | n in Listed(l) :: k.proto(n).Some? && (k.proto(n).value.num == p.proto) != neg
    case IcmpArgs(l) => exists i | i in Listed(l) :: env.icmp(i, p.icmp) != neg
    case _ => true
  }

  ghost predicate AnyHolds(r: Reading, p: Packet, env: Env) {
    r.Some? && exists a | a in r.value :: AlternativeHolds(a, p, env)
  }

  lemma OneHolds(l: Literal, p: Packet, env: Env)
    ensures AlternativeHolds([l], p, env) <==> LiteralHolds(l, p, env)
  {
    var a := [l];
    assert a[0] == l && a[1..] == [];
    assert LastDport([]).None? && !DportMarked([]) && OthersHold([], p, env);
    assert LastDport(a) == (if l.spec.DportSpec? then Some(l.spec.dport) else None);
    assert DportMarked(a) <==> l.spec.DportSpec? && l.negate;
    assert OthersHold(a, p, env) <==> l.spec.DportSpec? || LiteralHolds(l, p, env);
  }

  lemma EitherHolds(a: Reading, b: Reading, p: Packet, env: Env)
    ensures AnyHolds(Either(a, b), p, env) <==> AnyHolds(a, p, env) || AnyHolds(b, p, env)
  {
  }

  lemma OneReadingHolds(s: Option<FilterSpec.Spec>, neg: bool, p: Packet, env: Env)
    ensures AnyHolds(One(s, neg), p, env) <==> s.Some? && LiteralHolds(Literal(s.value, neg), p, env)
  {
    if s.Some? {
      OneHolds(Literal(s.value, neg), p, env);
      assert [Literal(s.value, neg)] in One(s, neg).value;
    }
  }

  lemma {:induction false} ArgsHold<T(!new)>(l: Args<T>, leaf: T -> Option<FilterSpec.Spec>, neg: bool, p: Packet,
                                      env: Env)
    ensures AnyHolds(ArgsReading(l, leaf, neg), p, env)
       <==> exists x | x in Listed(l) :: leaf(x).Some? && LiteralHolds(Literal(leaf(x).value, neg), p, env)
  {
    if l.SnocArg? {
      ArgsHold(l.front, leaf, neg, p, env);
      EitherHolds(ArgsReading(l.front, leaf, neg), One(leaf(l.arg), neg), p, env);
      OneReadingHolds(leaf(l.arg), neg, p, env);
      assert l.arg in Listed(l);
    }
  }

  lemma IfacesMean(d: Direction, l: Args<string>, k: Lookup, neg: bool, p: Packet, env: Env)
    ensures AnyHolds(ArgsReading(l, IfaceLeaf(d), neg), p, env) <==> Fits(DirectionArgs(d, l), k, neg, p, env)
  {
    ArgsHold(l, IfaceLeaf(d), neg, p, env);
  }

  lemma HostsMean(source: bool, l: Args<HostArg>, k: Lookup, neg: bool, p: Packet, env: Env)
    ensures AnyHolds(ArgsReading(l, HostLeaf(k, source), neg), p, env) <==> Fits(HostArgs(source, l), k, neg, p, env)
  {
    ArgsHold(l, HostLeaf(k, source), neg, p, env);
  }

  lemma PortsMean(source: bool, l: Args<PortArg>, k: Lookup, neg: bool, p: Packet, env: Env)
    ensures AnyHolds(ArgsReading(l, PortLeaf(k, source), neg), p, env) <==> Fits(PortArgs(source, l), k, neg, p, env)
  {
    ArgsHold(l, PortLeaf(k, source), neg, p, env);
  }

  lemma ProtocolsMean(l: Args<string>, k: Lookup, neg: bool, p: Packet, env: Env)
    ensures AnyHolds(ArgsReading(l, ProtoLeaf(k), neg), p, env) <==> Fits(ProtocolArgs(l), k, neg, p, env)
  {
    ArgsHold(l, ProtoLeaf(k), neg, p, env);
  }

  lemma TypesMean(l: Args<string>, k: Lookup, neg: bool, p: Packet, env: Env)
    ensures AnyHolds(ArgsReading(l, IcmpLeaf(), neg), p, env) <==> Fits(IcmpArgs(l), k, neg, p, env)
  {
    ArgsHold(l, IcmpLeaf(), neg, p, env);
  }

  /** One of the alternatives of a keyword with its arguments describes the packet exactly when the
      specifier, read on its own words, does. */
  lemma KeywordMeans(s: Specifier, k: Lookup, neg: bool, p: Packet, env: Env)
    requires !s.Compound? && !s.Chaingroup?
    ensures AnyHolds(SpecifierReading(s, k, neg), p, env) <==> Fits(s, k, neg, p, env)
  {
    match s
    case DirectionArgs(d, l) => IfacesMean(d, l, k, neg, p, env);
    case HostArgs(source, l) => HostsMean(source, l, k, neg, p, env);
    case PortArgs(source, l) => PortsMean(source, l, k, neg, p, env);
    case ProtocolArgs(l) => ProtocolsMean(l, k, neg, p, env);
    case IcmpArgs(l) => TypesMean(l, k, neg, p, env);
    case TargetArg(t) => OneReadingHolds(Some(TargetSpec(TargetOf(t))), neg, p, env);
    case OptionArg(o) => OneReadingHolds(Some(OptionOf(o)), neg, p, env);
  }

  /** `input` and `output` give the direction of all their alternatives, and nothing else does. */
  lemma {:induction false} DirectionMeans(d: Direction, l: Args<string>, k: Lookup, neg: bool, a: Alternative)
    requires SpecifierReading(DirectionArgs(d, l), k, neg).Some?
    requires a in SpecifierReading(DirectionArgs(d, l), k, neg).value
    ensures DirectionOf(a) == Some(d)
    decreases l
  {
    if a !in One(IfaceLeaf(d)(l.arg), neg).value {
      DirectionMeans(d, l.front, k, neg, a);
    }
  }

  // ----- one more word in a rule -----

  /** The specifiers `m` behind those of `l`. */
  function Along(l: Specifiers, m: seq<Negated>): Specifiers
    decreases |m|
  {
    if m == [] then l else Along(SnocSpecifier(l, m[0]), m[1..])
  }

  /** The alternatives of a rule. */
  ghost function RuleReading(l: Specifiers, k: Lookup): Reading {
    SpecifiersReading(PrunedSpecifiers(l, k), k, false)
  }

  function With(x: Alternative, j: nat, s: FilterSpec.Spec): Alternative
    requires j <= |x|
  {
    x[..j] + [Literal(s, false)] + x[j..]
  }

  ghost predicate OneMore(x: Alternative, y: Alternative, s: FilterSpec.Spec) {
    exists j | 0 <= j <= |x| :: y == With(x, j, s)
  }

  /** The alternatives of `b` are those of `a` with one more specifier somewhere in each. */
  ghost predicate AllOneMore(a: seq<Alternative>, b: seq<Alternative>, s: FilterSpec.Spec) {
    |a| == |b| && forall i | 0 <= i < |a| :: OneMore(a[i], b[i], s)
  }

  ghost predicate ReadsOneMore(a: Reading, b: Reading, s: FilterSpec.Spec) {
    (a.None? <==> b.None?) && (a.Some? ==> AllOneMore(a.value, b.value, s))
  }

  lemma LongerOneMore(x: Alternative, y: Alternative, z: Alternative, s: FilterSpec.Spec)
    requires OneMore(x, y, s)
    ensures OneMore(x + z, y + z, s)
  {
    var j :| 0 <= j <= |x| && y == With(x, j, s);
    assert y + z == With(x + z, j, s);
  }

  lemma PrefixOneMore(x: Alternative, y: Alternative, zs: seq<Alternative>, s: FilterSpec.Spec)
    requires OneMore(x, y, s)
    ensures AllOneMore(Prefix(x, zs), Prefix(y, zs), s)
  {
    forall i | 0 <= i < |zs| ensures OneMore(Prefix(x, zs)[i], Prefix(y, zs)[i], s) {
      LongerOneMore(x, y, zs[i], s);
    }
  }

  lemma AppendOneMore(a: seq<Alternative>, b: seq<Alternative>, c: seq<Alternative>, d: seq<Alternative>,
                      s: FilterSpec.Spec)
    requires AllOneMore(a, b, s) && AllOneMore(c, d, s)
    ensures AllOneMore(a + c, b + d, s)
  {
  }

  lemma {:induction false} CrossOneMore(a: seq<Alternative>, b: seq<Alternative>, zs: seq<Alternative>,
                                        s: FilterSpec.Spec)
    requires AllOneMore(a, b, s)
    ensures AllOneMore(Cross(a, zs), Cross(b, zs), s)
    decreases |a|
  {
    if a != [] {
      assert OneMore(a[0], b[0], s);
      PrefixOneMore(a[0], b[0], zs, s);
      CrossOneMore(a[1..], b[1..], zs, s);
      AppendOneMore(Prefix(a[0], zs), Prefix(b[0], zs), Cross(a[1..], zs), Cross(b[1..], zs), s);
    }
  }

  lemma BothOneMore(a: Reading, b: Reading, c: Reading, s: FilterSpec.Spec)
    requires ReadsOneMore(a, b, s) && a.Some?
    ensures ReadsOneMore(Both(a, c), Both(b, c), s)
  {
    if c.Some? {
      CrossOneMore(a.value, b.value, c.value, s);
    }
  }

  /** One specifier more at the end of a rule. */
  lemma RuleStep(l: Specifiers, n: Negated, k: Lookup)
    ensures RuleReading(SnocSpecifier(l, n), k)
         == if l.SnocSpecifier? && RuleReading(l, k).None? then None
            else Both(RuleReading(l, k), NegatedReading(PrunedNegated(n, k), k, false))
  {
  }

  lemma {:induction false} AlongOneMore(l: Specifiers, l': Specifiers, m: seq<Negated>, k: Lookup, s: FilterSpec.Spec)
    requires l.SnocSpecifier? && l'.SnocSpecifier? && ReadsOneMore(RuleReading(l, k), RuleReading(l', k), s)
    ensures ReadsOneMore(RuleReading(Along(l, m), k), RuleReading(Along(l', m), k), s)
    decreases |m|
  {
    if m != [] {
      RuleStep(l, m[0], k);
      RuleStep(l', m[0], k);
      if RuleReading(l, k).Some? {
        BothOneMore(RuleReading(l, k), RuleReading(l', k), NegatedReading(PrunedNegated(m[0], k), k, false), s);
      }
      AlongOneMore(SnocSpecifier(l, m[0]), SnocSpecifier(l', m[0]), m[1..], k, s);
    }
  }

  lemma {:induction false} CrossLast(xs: seq<Alternative>, s: FilterSpec.Spec)
    ensures AllOneMore(xs, Cross(xs, [[Literal(s, false)]]), s)
    decreases |xs|
  {
    if xs != [] {
      CrossLast(xs[1..], s);
      var y := xs[0] + [Literal(s, false)];
      assert y == With(xs[0], |xs[0]|, s);
      assert Prefix(xs[0], [[Literal(s, false)]]) == [y];
      AppendOneMore([xs[0]], [y], xs[1..], Cross(xs[1..], [[Literal(s, false)]]), s);
      assert xs == [xs[0]] + xs[1..];
    }
  }

  lemma CrossFirst(zs: seq<Alternative>, s: FilterSpec.Spec)
    ensures AllOneMore(zs, Cross([[Literal(s, false)]], zs), s)
  {
    var x := [Literal(s, false)];
    assert Cross([x], zs) == Prefix(x, zs) + Cross([], zs);
    forall i | 0 <= i < |zs| ensures OneMore(zs[i], x + zs[i], s) {
      assert x + zs[i] == With(zs[i], 0, s);
    }
  }

  /** A word that says one thing. */
  function Word(s: FilterSpec.Spec): Reading { Some([[Literal(s, false)]]) }

  /** The rule does not start with a specifier that says nothing (which would drop the rest of the rule). */
  ghost predicate Starts(l: Specifiers, m: seq<Negated>, k: Lookup) {
    l.SnocSpecifier? || (m != [] && NegatedReading(PrunedNegated(m[0], k), k, false).Some?)
  }

  /** A rule with one more word has the alternatives of the rule without it, each with that word. */
  lemma OneMoreWord(l: Specifiers, w: Specifier, m: seq<Negated>, k: Lookup, s: FilterSpec.Spec)
    requires Starts(l, m, k) && SpecifierReading(PrunedSpecifier(w, k), k, false) == Word(s)
    ensures ReadsOneMore(RuleReading(Along(l, m), k), RuleReading(Along(SnocSpecifier(l, Negated(false, w)), m), k), s)
  {
    var n := Negated(false, w);
    var l' := SnocSpecifier(l, n);
    RuleStep(l, n, k);
    if l.SnocSpecifier? {
      if RuleReading(l, k).Some? {
        CrossLast(RuleReading(l, k).value, s);
      }
      AlongOneMore(l, l', m, k, s);
    } else {
      RuleStep(l, m[0], k);
      RuleStep(l', m[0], k);
      CrossFirst(NegatedReading(PrunedNegated(m[0], k), k, false).value, s);
      AlongOneMore(SnocSpecifier(l, m[0]), SnocSpecifier(l', m[0]), m[1..], k, s);
    }
  }

  // ----- options -----

  /** What an option says about where a packet may be: `local` ones only at the machine itself,
      `forward` ones only on their way through it. */
  predicate Lets(o: OptionName, fwd: bool) {
    match o
    case LocalOption => !fwd
    case ForwardOption => fwd
    case _ => true
  }

  const NODEFAULT := Flags(false, false)

  /** With one routing type more an alternative still has an entry only if it gave none before. */
  lemma {:induction false} OneRouting(x: Alternative, j: nat, r: RoutingType)
    requires j <= |x| && !Repeats(With(x, j, RoutingSpec(r)))
    ensures RoutingOf(x).None? && RoutingOf(With(x, j, RoutingSpec(r))) == Some(r)
    decreases |x|
  {
    var l := Literal(RoutingSpec(r), false);
    var y := With(x, j, RoutingSpec(r));
    if j == 0 {
      assert y == [l] + x && y[1..] == x;
      NoRouting(x);
    } else {
      assert y[0] == x[0] && y[1..] == With(x[1..], j - 1, RoutingSpec(r));
      if x[0].spec.RoutingSpec? {
        GivesWith(x[1..], j - 1, RoutingSpec(r));
      }
      OneRouting(x[1..], j - 1, r);
    }
  }

  lemma {:induction false} NoRouting(x: Alternative)
    ensures RoutingOf(x).None? <==> !EntryOrder.Gives(x, RoutingBit)
    decreases |x|
  {
    if x != [] {
      NoRouting(x[1..]);
    }
  }

  lemma {:induction false} GivesWith(x: Alternative, j: nat, s: FilterSpec.Spec)
    requires j <= |x|
    ensures EntryOrder.Gives(With(x, j, s), KindOf(s))
    decreases j
  {
    var y := With(x, j, s);
    if j > 0 {
      assert y[0] == x[0] && y[1..] == With(x[1..], j - 1, s);
      GivesWith(x[1..], j - 1, s);
    }
  }

  /** A word that is no condition changes nothing about the packets described. */
  lemma {:induction false} SameConditions(x: Alternative, j: nat, s: FilterSpec.Spec, p: Packet, env: Env)
    requires j <= |x| && !IsCondition(s)
    ensures var y := With(x, j, s);
            && (OthersHold(y, p, env) <==> OthersHold(x, p, env)) && LastDport(y) == LastDport(x)
            && (DportMarked(y) <==> DportMarked(x)) && DirectionOf(y) == DirectionOf(x)
            && (!s.TargetSpec? ==> TargetIn(y) == TargetIn(x))
            && (!s.RoutingSpec? ==> RoutingOf(y) == RoutingOf(x))
    decreases j
  {
    var y := With(x, j, s);
    if j == 0 {
      assert y[0] == Literal(s, false) && y[1..] == x;
    } else {
      assert y[0] == x[0] && y[1..] == With(x[1..], j - 1, s);
      SameConditions(x[1..], j - 1, s, p, env);
    }
  }

  /** An alternative with an option applies to the packets the option lets, if it applies to them
      without the option and without any default. */
  lemma OptionApplies(x: Alternative, y: Alternative, o: OptionName, fl: Flags, d: Direction, fwd: bool, p: Packet,
                      env: Env)
    requires !o.LogOption? && OneMore(x, y, OptionOf(o)) && EntryOf(EMPTY, y, fl).Some?
    ensures Applies(y, fl, d, fwd, p, env) <==> Lets(o, fwd) && Applies(x, NODEFAULT, d, fwd, p, env)
    ensures VerdictIn(y) == VerdictIn(x)
  {
    var j :| 0 <= j <= |x| && y == With(x, j, OptionOf(o));
    HasEntryExactly(y, fl);
    OneRouting(x, j, OptionOf(o).rtype);
    SameConditions(x, j, OptionOf(o), p, env);
  }

  /** The log option changes nothing about the packets an alternative applies to. */
  lemma LogApplies(x: Alternative, y: Alternative, text: Option<string>, fl: Flags, d: Direction, fwd: bool, p: Packet,
                   env: Env)
    requires OneMore(x, y, OptionOf(LogOption(text)))
    ensures Applies(y, fl, d, fwd, p, env) <==> Applies(x, fl, d, fwd, p, env)
    ensures VerdictIn(y) == VerdictIn(x)
  {
    var j :| 0 <= j <= |x| && y == With(x, j, OptionOf(LogOption(text)));
    SameConditions(x, j, OptionOf(LogOption(text)), p, env);
  }

  lemma {:induction false} OptionFirst(xs: seq<Alternative>, ys: seq<Alternative>, o: OptionName, fl: Flags,
                                       d: Direction,
                                       fwd: bool, p: Packet, env: Env)
    requires !o.LogOption? && AllOneMore(xs, ys, OptionOf(o)) && Entries(EMPTY, ys, fl).Some?
    ensures FirstOf(ys, fl, d, fwd, p, env) == if Lets(o, fwd) then FirstOf(xs, NODEFAULT, d, fwd, p, env) else None
    decreases |xs|
  {
    if xs != [] {
      assert OneMore(xs[0], ys[0], OptionOf(o));
      OptionApplies(xs[0], ys[0], o, fl, d, fwd, p, env);
      assert AllOneMore(xs[1..], ys[1..], OptionOf(o)) by {
        forall i | 0 <= i < |xs| - 1 ensures OneMore(xs[1..][i], ys[1..][i], OptionOf(o)) {
          assert OneMore(xs[i + 1], ys[i + 1], OptionOf(o));
        }
      }
      OptionFirst(xs[1..], ys[1..], o, fl, d, fwd, p, env);
    }
  }

  ghost function Alternatives(l: Specifiers, k: Lookup): seq<Alternative> {
    OrNothing(RuleReading(l, k))
  }

  /** A rule with an option, wherever it stands, decides for the packets the option lets as the rule
      without it does when there is no default, and for no other packet. */
  lemma OptionMeans(l: Specifiers, o: OptionName, m: seq<Negated>, k: Lookup, fl: Flags, d: Direction, fwd: bool,
                    p: Packet,
                    env: Env)
    requires !o.LogOption? && Starts(l, m, k)
    requires Entries(EMPTY, Alternatives(Along(SnocSpecifier(l, Negated(false, OptionArg(o))), m), k), fl).Some?
    ensures FirstOf(Alternatives(Along(SnocSpecifier(l, Negated(false, OptionArg(o))), m), k), fl, d, fwd, p, env)
         == if Lets(o, fwd) then FirstOf(Alternatives(Along(l, m), k), NODEFAULT, d, fwd, p, env) else None
  {
    OneMoreWord(l, OptionArg(o), m, k, OptionOf(o));
    var xs, ys := Alternatives(Along(l, m), k),
        Alternatives(Along(SnocSpecifier(l, Negated(false, OptionArg(o))), m), k);
    assert AllOneMore(xs, ys, OptionOf(o));
    OptionFirst(xs, ys, o, fl, d, fwd, p, env);
  }

  lemma OneRuleCompiled(r: Specifiers, k: Lookup)
    ensures Compiled(SnocRule(NoRules, r), k) == Alternatives(r, k)
  {
    assert Pruned(SnocRule(NoRules, r), k) == SnocRule(NoRules, PrunedSpecifiers(r, k));
    assert RulesReading(NoRules, k) + Alternatives(r, k) == Alternatives(r, k);
  }

  /** The script of a rule that says `local` lets no forwarded packet through, that of a rule that says
      `forward` drops all packets of the machine itself; otherwise they do what the rule without the
      option does. */
  lemma OptionDecides(l: Specifiers, o: OptionName, m: seq<Negated>, k: Lookup, fl: Flags, es: seq<Entry>, style: Style,
                      lstate: bool, before: Ruleset, d: Direction, p: Packet, env: Env, depth: nat)
    requires !o.LogOption? && Starts(l, m, k) && AllNamed(es, env) && depth > 0 && p.state == New
    requires Deployable(SnocRule(NoRules, Along(SnocSpecifier(l, Negated(false, OptionArg(o))), m)), k, fl, es)
    ensures AllPlain(es)
    ensures Filtered(Loaded(style, lstate, es, before), if d == Input then INPUT else OUTPUT, p, env, depth)
         == Some(if o.ForwardOption? then Dropped
                 else OrDrop(FirstOf(Alternatives(Along(l, m), k), NODEFAULT, d, false, p, env)))
    ensures Filtered(Loaded(Restore, lstate, es, before), FORWARD, p, env, depth) == Some(Accepted)
       <==> && !o.LocalOption?
            && FirstOf(Alternatives(Along(l, m), k), NODEFAULT, Input, true, p, env) == Some(Accepted)
            && FirstOf(Alternatives(Along(l, m), k), NODEFAULT, Output, true, p, env) == Some(Accepted)
  {
    var r := Along(SnocSpecifier(l, Negated(false, OptionArg(o))), m);
    OneRuleCompiled(r, k);
    SourceDecidesLocal(SnocRule(NoRules, r), k, fl, es, style, lstate, before, d, p, env, depth);
    SourceDecidesForwarding(SnocRule(NoRules, r), k, fl, es, lstate, before, p, env, depth);
    OptionMeans(l, o, m, k, fl, d, false, p, env);
    OptionMeans(l, o, m, k, fl, Input, true, p, env);
    OptionMeans(l, o, m, k, fl, Output, true, p, env);
  }

  // ----- targets -----

  /** What the filter table does with the packets of a rule that names this target. */
  function VerdictNamed(t: TargetName): Verdict {
    match t
    case DropName => Dropped
    case RejectName => Rejected
    case _ => Accepted
  }

  /** Where the nat table rewrites them. */
  function RewritesNamed(t: TargetName): Option<Direction> {
    match t
    case MasqName => Some(Output)
    case ProxyName => Some(Input)
    case RedirectName => Some(Input)
    case _ => None
  }

  lemma {:induction false} OneTarget(x: Alternative, j: nat, t: Target)
    requires j <= |x| && !Repeats(With(x, j, TargetSpec(t)))
    ensures TargetIn(With(x, j, TargetSpec(t))) == Some(t)
    decreases |x|
  {
    var y := With(x, j, TargetSpec(t));
    if j > 0 {
      assert y[0] == x[0] && y[1..] == With(x[1..], j - 1, TargetSpec(t));
      if x[0].spec.TargetSpec? {
        GivesWith(x[1..], j - 1, TargetSpec(t));
      }
      OneTarget(x[1..], j - 1, t);
    }
  }

  /** Every alternative of a rule that names a target, wherever it stands, has the verdict and the
      translation of that name. */
  lemma TargetMeans(l: Specifiers, t: TargetName, m: seq<Negated>, k: Lookup, fl: Flags, y: Alternative)
    requires Starts(l, m, k) && y in Alternatives(Along(SnocSpecifier(l, Negated(false, TargetArg(t))), m), k)
    requires EntryOf(EMPTY, y, fl).Some?
    ensures VerdictIn(y) == VerdictNamed(t) && RewritesOn(y) == RewritesNamed(t)
  {
    var s := TargetSpec(TargetOf(t));
    OneMoreWord(l, TargetArg(t), m, k, s);
    var xs, ys := Alternatives(Along(l, m), k),
        Alternatives(Along(SnocSpecifier(l, Negated(false, TargetArg(t))), m), k);
    assert AllOneMore(xs, ys, s);
    var i :| 0 <= i < |ys| && ys[i] == y;
    assert OneMore(xs[i], ys[i], s);
    var j :| 0 <= j <= |xs[i]| && y == With(xs[i], j, s);
    HasEntryExactly(y, fl);
    OneTarget(xs[i], j, TargetOf(t));
  }
}
