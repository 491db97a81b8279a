/** The option `oneway` in the source: it reaches the entry as a routing type and never as the mark
    that leaves out reply rules, so replies get back all the same. */
module OnewayRules {
  import opened FilterSpec
  import opened FilterEntry
  import opened EntryOrder
  import opened FilterGraph
  import opened FilterSyntax
  import opened Readings
  import opened SyntaxForms
  import opened SyntaxReadings
  import opened CompiledRules
  import opened IptablesRules
  import opened Netfilter
  import opened RuleMeaning
  import opened LoadedScript
  import opened ScriptVerdicts
  import opened SourceVerdicts
  import opened EntryChecks

  // ----- no reading has the mark -----

  predicate Unmarked(a: Alternative) {
    forall l | l in a :: !l.spec.OnewaySpec?
  }

  ghost predicate AllUnmarked(r: Reading) {
    r.Some? ==> forall a | a in r.value :: Unmarked(a)
  }

  lemma {:induction false} CrossUnmarked(xs: seq<Alternative>, ys: seq<Alternative>)
    requires AllUnmarked(Some(xs)) && AllUnmarked(Some(ys))
    ensures AllUnmarked(Some(Cross(xs, ys)))
  {
    if xs != [] {
      CrossUnmarked(xs[1..], ys);
      forall a | a in Prefix(xs[0], ys) ensures Unmarked(a) {
        var i :| 0 <= i < |ys| && a == xs[0] + ys[i];
        assert Unmarked(xs[0]) && Unmarked(ys[i]);
      }
    }
  }

  lemma {:induction false} ArgsUnmarked<T>(l: Args<T>, leaf: T -> Option<Spec>, neg: bool)
    requires forall x :: leaf(x) != Some(OnewaySpec)
    ensures AllUnmarked(ArgsReading(l, leaf, neg))
  {
    if l.SnocArg? {
      ArgsUnmarked(l.front, leaf, neg);
    }
  }

  lemma {:induction false} SpecifierUnmarked(s: Specifier, k: Lookup, neg: bool)
    ensures AllUnmarked(SpecifierReading(s, k, neg))
    decreases s
  {
    match s
    case Compound(l) => SubrulesUnmarked(l, k, neg);
    case DirectionArgs(d, l) => ArgsUnmarked(l, IfaceLeaf(d), neg);
    case HostArgs(source, l) => ArgsUnmarked(l, HostLeaf(k, source), neg);
    case PortArgs(source, l) => ArgsUnmarked(l, PortLeaf(k, source), neg);
    case ProtocolArgs(l) => ArgsUnmarked(l, ProtoLeaf(k), neg);
    case IcmpArgs(l) => ArgsUnmarked(l, IcmpLeaf(), neg);
    case Chaingroup(_, l) => SubrulesUnmarked(l, k, neg);
    case _ =>
  }

  lemma {:induction false} SpecifiersUnmarked(l: Specifiers, k: Lookup, neg: bool)
    ensures AllUnmarked(SpecifiersReading(l, k, neg))
    decreases l
  {
    if l.SnocSpecifier? {
      SpecifiersUnmarked(l.front, k, neg);
      SpecifierUnmarked(l.last.spec, k, neg != l.last.negated);
      var a, b := SpecifiersReading(l.front, k, neg), NegatedReading(l.last, k, neg);
      if a.Some? && b.Some? {
        CrossUnmarked(a.value, b.value);
      }
    }
  }

  lemma {:induction false} SubrulesUnmarked(l: Subrules, k: Lookup, neg: bool)
    ensures AllUnmarked(SubrulesReading(l, k, neg))
    decreases l
  {
    match l
    case OneSubrule(s) => SpecifiersUnmarked(s, k, neg);
    case SnocSubrule(f, s) => SubrulesUnmarked(f, k, neg); SpecifiersUnmarked(s, k, neg);
  }

  lemma {:induction false} RulesUnmarked(l: RuleList, k: Lookup)
    ensures AllUnmarked(Some(RulesReading(l, k)))
  {
    if l.SnocRule? {
      RulesUnmarked(l.front, k);
      SpecifiersUnmarked(l.rule, k, false);
    }
  }

  // ----- no entry has it -----

  lemma {:induction false} FoldUnmarked(e: Entry, a: Alternative)
    requires Unmarked(a) && Fold(e, a).Some?
    ensures Fold(e, a).value.oneway == e.oneway
    decreases |a|
  {
    if a != [] {
      assert !a[0].spec.OnewaySpec?;
      FoldUnmarked(ApplyLiteral(e, a[0]).value, a[1..]);
    }
  }

  /** No entry compiled from a source file is marked as one-way, whatever options its rule gives. */
  lemma NeverOneway(ast: RuleList, k: Lookup, a: Alternative, fl: Flags)
    requires a in Compiled(ast, k) && EntryOf(EMPTY, a, fl).Some?
    ensures !EntryOf(EMPTY, a, fl).value.oneway
  {
    RulesUnmarked(Pruned(KeptRules(ast, k), k), k);
    FoldUnmarked(EMPTY, a);
  }

  // ----- so replies get back -----

  /** It accepts tcp or udp. */
  predicate AcceptsStateful(a: Alternative) {
    TargetIn(a) == Some(Accept) && ProtocolIn(a).Some? && ProtocolIn(a).value.num in {TCP, UDP}
  }

  /** The first alternative that applies to the packet. */
  function Applying(xs: seq<Alternative>, fl: Flags, d: Direction, fwd: bool, p: Packet,
                    env: Env): Option<Alternative> {
    if xs == [] then None
    else if Applies(xs[0], fl, d, fwd, p, env) then Some(xs[0])
    else Applying(xs[1..], fl, d, fwd, p, env)
  }

  lemma AcceptsLetsBack(a: Alternative, fl: Flags)
    requires AcceptsStateful(a) && Unmarked(a) && EntryOf(EMPTY, a, fl).Some?
    ensures LetsBack(EntryOf(EMPTY, a, fl).value)
  {
    FoldUnmarked(EMPTY, a);
    FoldProtocol(EMPTY, a);
    FoldKeys(EMPTY, a);
  }

  lemma {:induction false} ApplyingDecides(xs: seq<Alternative>, fl: Flags, d: Direction, fwd: bool, p: Packet,
                                           env: Env)
    requires (forall a | a in xs :: Ordinary(a)) && Entries(EMPTY, xs, fl).Some? && p.state == New
    requires AllUnmarked(Some(xs))
    requires var a := Applying(xs, fl, d, fwd, p, env); a.Some? && AcceptsStateful(a.value)
    ensures var e := Deciding(Entries(EMPTY, xs, fl).value, d, fwd, p, env); e.Some? && LetsBack(e.value)
  {
    var a := xs[0];
    assert Ordinary(a) && Unmarked(a);
    EntrySays(a, fl, d, fwd, p, env);
    var e, es := EntryOf(EMPTY, a, fl).value, Entries(EMPTY, xs[1..], fl).value;
    assert ([e] + es)[0] == e && ([e] + es)[1..] == es;
    if Applies(a, fl, d, fwd, p, env) {
      AcceptsLetsBack(a, fl);
    } else {
      ApplyingDecides(xs[1..], fl, d, fwd, p, env);
    }
  }

  /** When the first alternative of the source that applies to a new packet accepts tcp or udp, the
      reply is accepted in the opposite direction, also if that alternative says `oneway`. */
  lemma OnewayRepliesGetBack(ast: RuleList, k: Lookup, fl: Flags, es: seq<Entry>, style: Style, before: Ruleset,
                             d: Direction, p: Packet, q: Packet, env: Env, depth: nat)
    requires Deployable(ast, k, fl, es) && AllNamed(es, env) && depth > 0 && p.state == New && ReplyTo(q, p)
    requires var a := Applying(Compiled(ast, k), fl, d, false, p, env); a.Some? && AcceptsStateful(a.value)
    ensures AllPlain(es)
    ensures Filtered(Loaded(style, false, es, before), if d == Input then OUTPUT else INPUT, q, env, depth)
        == Some(Accepted)
  {
    RulesUnmarked(Pruned(KeptRules(ast, k), k), k);
    FirstIsFirstOf(Compiled(ast, k), fl, d, false, p, env);
    ApplyingDecides(Compiled(ast, k), fl, d, false, p, env);
    RepliesGetBack(style, es, before, d, p, q, env, depth);
  }
}
