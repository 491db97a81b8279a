/** From the rules of a filter to packets: the loaded script does to a new packet what the first
    matching alternative of the source says. */
module SourceVerdicts {
  import opened FilterSpec
  import opened FilterEntry
  import opened EntryOrder
  import opened FilterSyntax
  import opened Readings
  import opened SyntaxForms
  import opened SyntaxReadings
  import opened CompiledRules
  import opened IptablesRules
  import opened Netfilter
  import opened RuleMeaning
  import opened LoadedScript
  import opened ScriptVerdicts
  import RuleWalk

  // ----- what an alternative says about a packet -----

  predicate ConditionHolds(s: Spec, p: Packet, env: Env) {
    match s
    case DirectionSpec(d, i) =>
      var on := if d == Input then p.inIface else p.outIface;
      i == "*" || (on.Some? && env.iface(i, on.value))
    case SourceSpec(a) => env.addr(a, p.src)
    case DestSpec(a) => env.addr(a, p.dst)
    case SportSpec(s) => env.ports(s, p.sport)
    case DportSpec(s) => env.ports(s, p.dport)
    case IcmpSpec(i) => env.icmp(i, p.icmp)
    case ProtoSpec(n) => n.num == p.proto
    case _ => true
  }

  predicate IsCondition(s: Spec) {
    !s.TargetSpec? && !s.LogSpec? && !s.RoutingSpec? && !s.OnewaySpec?
  }

  predicate LiteralHolds(l: Literal, p: Packet, env: Env) {
    IsCondition(l.spec) ==> ConditionHolds(l.spec, p, env) != l.negate
  }

  /** All specifiers hold, destination ports left aside. */
  predicate OthersHold(a: Alternative, p: Packet, env: Env) {
    a != [] ==> (a[0].spec.DportSpec? || LiteralHolds(a[0], p, env)) && OthersHold(a[1..], p, env)
  }

  /** Of several destination ports the last one counts, negated if any of them is. */
  predicate DportHolds(a: Alternative, p: Packet, env: Env) {
    LastDport(a).Some? ==> env.ports(LastDport(a).value, p.dport) != DportMarked(a)
  }

  predicate AlternativeHolds(a: Alternative, p: Packet, env: Env) {
    OthersHold(a, p, env) && DportHolds(a, p, env)
  }

  function DirectionOf(a: Alternative): Option<Direction> {
    if a == [] then None else if a[0].spec.DirectionSpec? then Some(a[0].spec.direction) else DirectionOf(a[1..])
  }

  function RoutingOf(a: Alternative): Option<RoutingType> {
    if a == [] then None else if a[0].spec.RoutingSpec? then Some(a[0].spec.rtype) else RoutingOf(a[1..])
  }

  function TargetIn(a: Alternative): Option<Target> {
    if a == [] then None else if a[0].spec.TargetSpec? then Some(a[0].spec.target) else TargetIn(a[1..])
  }

  // ----- folding keeps what is said -----

  /** The condition of kind `k` that an entry holds. */
  function Given(e: Entry, k: Kind): Option<Spec> {
    match k
    case DirectionBit =>
      if e.iface.Some? && e.direction.Some? then Some(DirectionSpec(e.direction.value, e.iface.value)) else None
    case SourceBit => if e.src.Some? then Some(SourceSpec(e.src.value)) else None
    case DestBit => if e.dst.Some? then Some(DestSpec(e.dst.value)) else None
    case SportBit => if e.sport.Some? then Some(SportSpec(e.sport.value)) else None
    case DportBit => if e.dport.Some? then Some(DportSpec(e.dport.value)) else None
    case IcmpBit => if e.icmp.Some? then Some(IcmpSpec(e.icmp.value)) else None
    case ProtoBit => if e.proto.Some? then Some(ProtoSpec(e.proto.value)) else None
    case _ => None
  }

  /** What the entry says about its condition of kind `k`. */
  predicate Claims(e: Entry, k: Kind, p: Packet, env: Env) {
    Given(e, k).Some? ==> ConditionHolds(Given(e, k).value, p, env) != (k in e.negated)
  }

  const CONDITIONS := {DirectionBit, SourceBit, DestBit, SportBit, DportBit, IcmpBit, ProtoBit}

  ghost predicate ClaimsAll(e: Entry, p: Packet, env: Env) {
    forall k | k in CONDITIONS :: Claims(e, k, p, env)
  }

  /** Only what has been given is negated, and nothing is half given. */
  ghost predicate Sensible(e: Entry) {
    Sound(e) && forall k | k in CONDITIONS && k in e.negated :: Given(e, k).Some?
  }

  lemma ClaimsAreSays(e: Entry, p: Packet, env: Env)
    requires Sensible(e)
    ensures ClaimsAll(e, p, env) <==> Says(e, p, env)
  {
    assert Claims(e, DirectionBit, p, env)
        <==> (e.iface.Some? ==> (e.iface.value == "*" || OnIface(e, p, env)) != (DirectionBit in e.negated));
    assert Claims(e, ProtoBit, p, env)
        <==> (e.proto.Some? ==> (e.proto.value.num == p.proto) != (ProtoBit in e.negated));
    assert Claims(e, SourceBit, p, env) <==> (e.src.Some? ==> env.addr(e.src.value, p.src) != (SourceBit in e.negated));
    assert Claims(e, DestBit, p, env) <==> (e.dst.Some? ==> env.addr(e.dst.value, p.dst) != (DestBit in e.negated));
    assert Claims(e, SportBit, p, env)
        <==> (e.sport.Some? ==> env.ports(e.sport.value, p.sport) != (SportBit in e.negated));
    assert Claims(e, DportBit, p, env)
        <==> (e.dport.Some? ==> env.ports(e.dport.value, p.dport) != (DportBit in e.negated));
    assert Claims(e, IcmpBit, p, env) <==> (e.icmp.Some? ==> env.icmp(e.icmp.value, p.icmp) != (IcmpBit in e.negated));
  }

  /** Applying a literal gives its condition and leaves the others alone. */
  lemma ApplyGiven(e: Entry, l: Literal, k: Kind)
    requires Sensible(e) && ApplyLiteral(e, l).Some? && k in CONDITIONS
    ensures var e' := ApplyLiteral(e, l).value;
            && Given(e', k) == (if k == KindOf(l.spec) then Some(l.spec) else Given(e, k))
            && (k in e'.negated <==> k in e.negated || (l.negate && k == KindOf(l.spec)))
    ensures k == KindOf(l.spec) && !l.spec.DportSpec? ==> Given(e, k).None?
  {
    AssignGiven(e, l.spec, k);
    MarkGiven(Assign(e, l.spec), KindOf(l.spec), l.negate, k);
  }

  lemma AssignGiven(e: Entry, s: Spec, k: Kind)
    requires Sound(e) && !Refuses(e, s) && k in CONDITIONS
    ensures Given(Assign(e, s), k) == (if k == KindOf(s) then Some(s) else Given(e, k))
    ensures Assign(e, s).negated == e.negated
    ensures k == KindOf(s) && !s.DportSpec? ==> Given(e, k).None?
  {
  }

  lemma MarkGiven(e: Entry, k': Kind, n: bool, k: Kind)
    ensures Given(Mark(e, k', n), k) == Given(e, k)
    ensures k in Mark(e, k', n).negated <==> k in e.negated || (n && k == k')
  {
  }

  /** An interface comes with its direction and its mark. */
  ghost predicate Sound(e: Entry) {
    (e.iface.Some? ==> e.direction.Some?) && (DirectionBit in e.whatsSet <==> e.iface.Some?)
  }

  /** Outside groups a direction has its interface too, and a target its mark. */
  ghost predicate Whole(e: Entry) {
    Sound(e) && (e.direction.Some? ==> e.iface.Some?) && (TargetBit in e.whatsSet <==> e.target.Some?)
  }

  lemma ApplyWhole(e: Entry, l: Literal)
    requires Sound(e) && ApplyLiteral(e, l).Some?
    ensures Sound(ApplyLiteral(e, l).value) && (Whole(e) ==> Whole(ApplyLiteral(e, l).value))
  {
    assert Sound(Assign(e, l.spec));
    assert Whole(e) ==> Whole(Assign(e, l.spec));
  }

  lemma ApplySensible(e: Entry, l: Literal)
    requires Sensible(e) && ApplyLiteral(e, l).Some?
    ensures Sensible(ApplyLiteral(e, l).value)
  {
    ApplyWhole(e, l);
    forall k | k in CONDITIONS
      ensures k in ApplyLiteral(e, l).value.negated ==> Given(ApplyLiteral(e, l).value, k).Some?
    {
      ApplyGiven(e, l, k);
    }
  }

  const OTHERS := CONDITIONS - {DportBit}

  ghost predicate OthersClaim(e: Entry, p: Packet, env: Env) {
    forall k | k in OTHERS :: Claims(e, k, p, env)
  }

  /** A literal adds its condition to what the entry says. */
  lemma ApplySays(e: Entry, l: Literal, p: Packet, env: Env)
    requires Sensible(e) && ApplyLiteral(e, l).Some?
    ensures OthersClaim(ApplyLiteral(e, l).value, p, env)
       <==> OthersClaim(e, p, env) && (l.spec.DportSpec? || LiteralHolds(l, p, env))
  {
    var e' := ApplyLiteral(e, l).value;
    forall k | k in OTHERS
      ensures Claims(e', k, p, env) <==> Claims(e, k, p, env) && (k == KindOf(l.spec) ==> LiteralHolds(l, p, env))
    {
      ApplyGiven(e, l, k);
    }
    if IsCondition(l.spec) && !l.spec.DportSpec? {
      assert KindOf(l.spec) in OTHERS;
      assert Claims(e', KindOf(l.spec), p, env) <==> LiteralHolds(l, p, env);
    } else {
      assert KindOf(l.spec) !in OTHERS;
    }
    if OthersClaim(e', p, env) {
      forall k | k in OTHERS ensures Claims(e, k, p, env) {
        assert Claims(e', k, p, env);
      }
    }
  }

  // ----- the entry of an alternative -----

  lemma {:induction false} FoldOthers(e: Entry, a: Alternative, p: Packet, env: Env)
    requires Sensible(e) && Fold(e, a).Some?
    ensures Sensible(Fold(e, a).value)
    ensures OthersClaim(Fold(e, a).value, p, env) <==> OthersClaim(e, p, env) && OthersHold(a, p, env)
    decreases |a|
  {
    if a != [] {
      ApplySensible(e, a[0]);
      ApplySays(e, a[0], p, env);
      FoldOthers(ApplyLiteral(e, a[0]).value, a[1..], p, env);
    }
  }

  /** The folded entry says about a packet what the alternative says. */
  lemma FoldSays(e: Entry, a: Alternative, p: Packet, env: Env)
    requires Sensible(e) && Fold(e, a).Some? && e.dport.None?
    ensures Sensible(Fold(e, a).value)
    ensures ClaimsAll(Fold(e, a).value, p, env) <==> ClaimsAll(e, p, env) && AlternativeHolds(a, p, env)
  {
    var d := Fold(e, a).value;
    FoldOthers(e, a, p, env);
    LastDportWins(e, a);
    assert Claims(e, DportBit, p, env) && DportBit !in e.negated;
    assert Claims(d, DportBit, p, env) <==> DportHolds(a, p, env);
    ClaimsSplit(d, p, env);
    ClaimsSplit(e, p, env);
  }

  lemma ClaimsSplit(e: Entry, p: Packet, env: Env)
    ensures ClaimsAll(e, p, env) <==> OthersClaim(e, p, env) && Claims(e, DportBit, p, env)
  {
    assert forall k | k in CONDITIONS :: k in OTHERS || k == DportBit;
  }

  function OrElse<T>(a: Option<T>, b: Option<T>): Option<T> {
    if a.Some? then a else b
  }

  function Finals(t: Option<Target>): Option<EntryTarget> {
    if t.None? then None else Some(Final(t.value))
  }

  /** The fields a literal sets, and those it leaves alone. */
  lemma ApplyFields(e: Entry, l: Literal)
    requires ApplyLiteral(e, l).Some?
    ensures var e' := ApplyLiteral(e, l).value;
            && (if l.spec.DirectionSpec?
                then e'.direction == Some(l.spec.direction) && e'.iface == Some(l.spec.iface) && e.iface.None?
                else e'.direction == e.direction && e'.iface == e.iface)
            && (if l.spec.RoutingSpec? then e'.rtype == Some(l.spec.rtype) && e.rtype.None? else e'.rtype == e.rtype)
            && (if l.spec.TargetSpec?
                then e'.target == Some(Final(l.spec.target)) && TargetBit !in e.whatsSet && TargetBit in e'.whatsSet
                else e'.target == e.target && (TargetBit in e'.whatsSet <==> TargetBit in e.whatsSet))
            && e'.groupname == e.groupname && e'.subgroup == e.subgroup
  {
    AssignFields(e, l.spec);
  }

  lemma AssignFields(e: Entry, s: Spec)
    ensures var d := Assign(e, s);
            && d.direction == (if s.DirectionSpec? then Some(s.direction) else e.direction)
            && d.iface == (if s.DirectionSpec? then Some(s.iface) else e.iface)
            && d.rtype == (if s.RoutingSpec? then Some(s.rtype) else e.rtype)
            && d.target == (if s.TargetSpec? then Some(Final(s.target)) else e.target)
            && (TargetBit in d.whatsSet <==> TargetBit in e.whatsSet || s.TargetSpec?)
            && d.groupname == e.groupname && d.subgroup == e.subgroup
  {
  }

  lemma ApplyKeys(e: Entry, l: Literal)
    requires Whole(e) && ApplyLiteral(e, l).Some?
    ensures var e' := ApplyLiteral(e, l).value;
            && e'.direction == (if l.spec.DirectionSpec? then Some(l.spec.direction) else e.direction)
            && e'.rtype == (if l.spec.RoutingSpec? then Some(l.spec.rtype) else e.rtype)
            && e'.target == (if l.spec.TargetSpec? then Some(Final(l.spec.target)) else e.target)
            && e'.groupname == e.groupname && e'.subgroup == e.subgroup
    ensures l.spec.DirectionSpec? ==> e.direction.None?
    ensures l.spec.RoutingSpec? ==> e.rtype.None?
    ensures l.spec.TargetSpec? ==> e.target.None?
  {
    ApplyFields(e, l);
  }

  /** Its direction, routing and target are those the alternative gives. */
  lemma {:induction false} FoldKeys(e: Entry, a: Alternative)
    requires Whole(e) && Fold(e, a).Some?
    ensures var d := Fold(e, a).value;
            && d.direction == OrElse(e.direction, DirectionOf(a)) && d.rtype == OrElse(e.rtype, RoutingOf(a))
            && d.target == OrElse(e.target, Finals(TargetIn(a))) && d.groupname == e.groupname
                && d.subgroup == e.subgroup
    decreases |a|
  {
    if a != [] {
      ApplyWhole(e, a[0]);
      ApplyKeys(e, a[0]);
      FoldKeys(ApplyLiteral(e, a[0]).value, a[1..]);
    }
  }

  /** The back ends print all its negations. */
  predicate PrintableLiteral(l: Literal) {
    l.negate ==> !l.spec.ProtoSpec? && !(l.spec.DirectionSpec? && l.spec.iface == "*")
  }

  lemma ApplyPrintable(e: Entry, l: Literal)
    requires Sensible(e) && ApplyLiteral(e, l).Some? && Printable(e) && PrintableLiteral(l)
    ensures Printable(ApplyLiteral(e, l).value)
  {
    ApplyGiven(e, l, ProtoBit);
    ApplyGiven(e, l, DirectionBit);
  }

  lemma {:induction false} FoldPrintable(e: Entry, a: Alternative)
    requires Sensible(e) && Fold(e, a).Some? && Printable(e) && forall l | l in a :: PrintableLiteral(l)
    ensures Printable(Fold(e, a).value)
    decreases |a|
  {
    if a != [] {
      assert PrintableLiteral(a[0]);
      ApplySensible(e, a[0]);
      ApplyPrintable(e, a[0]);
      FoldPrintable(ApplyLiteral(e, a[0]).value, a[1..]);
    }
  }

  // ----- the verdict of the source -----

  /** Where an alternative applies: as it says, or else as the flags say. */
  function Routing(a: Alternative, fl: Flags): Option<RoutingType> {
    if RoutingOf(a).Some? then RoutingOf(a)
    else if fl.local then Some(LocalOnly)
    else if fl.route then Some(RoutedOnly)
    else None
  }

  /** The alternative is about packets of direction `d`, forwarded ones if `fwd`, and describes this one. */
  predicate Applies(a: Alternative, fl: Flags, d: Direction, fwd: bool, p: Packet, env: Env) {
    && DirectionOf(a) == Some(d)
    && Routing(a, fl) != Some(if fwd then LocalOnly else RoutedOnly)
    && AlternativeHolds(a, p, env)
  }

  function VerdictIn(a: Alternative): Verdict {
    match TargetIn(a)
    case Some(Drop) => Dropped
    case Some(Reject) => Rejected
    case _ => Accepted
  }

  /** The verdict of the first alternative, in source order, that applies to the packet. */
  function FirstOf(xs: seq<Alternative>, fl: Flags, d: Direction, fwd: bool, p: Packet, env: Env): Option<Verdict> {
    if xs == [] then None
    else if Applies(xs[0], fl, d, fwd, p, env) then Some(VerdictIn(xs[0]))
    else FirstOf(xs[1..], fl, d, fwd, p, env)
  }

  /** No NAT and no negation that is not printed. */
  ghost predicate Ordinary(a: Alternative) {
    && TargetIn(a) in {Some(Accept), Some(Drop), Some(Reject)}
    && (forall l | l in a :: PrintableLiteral(l))
  }

  lemma EntryIsPlain(a: Alternative, fl: Flags)
    requires Ordinary(a) && EntryOf(EMPTY, a, fl).Some?
    ensures var e := EntryOf(EMPTY, a, fl).value;
            && Plain(e) && VerdictOf(e) == VerdictIn(a) && e.direction == DirectionOf(a) && e.rtype == Routing(a, fl)
  {
    assert Whole(EMPTY) && Sensible(EMPTY);
    FoldKeys(EMPTY, a);
    FoldPrintable(EMPTY, a);
  }

  lemma EntryClaims(a: Alternative, fl: Flags, p: Packet, env: Env)
    requires EntryOf(EMPTY, a, fl).Some?
    ensures Says(EntryOf(EMPTY, a, fl).value, p, env) <==> AlternativeHolds(a, p, env)
  {
    var f := Fold(EMPTY, a).value;
    assert Sensible(EMPTY) && ClaimsAll(EMPTY, p, env);
    FoldSays(EMPTY, a, p, env);
    ClaimsAreSays(f, p, env);
    SaysDefaults(f, fl, p, env);
  }

  /** The entry of an ordinary alternative is plain, and says what the alternative says. */
  lemma EntrySays(a: Alternative, fl: Flags, d: Direction, fwd: bool, p: Packet, env: Env)
    requires Ordinary(a) && EntryOf(EMPTY, a, fl).Some? && p.state == New
    ensures var e := EntryOf(EMPTY, a, fl).value;
            Plain(e) && VerdictOf(e) == VerdictIn(a) && (Hits(e, d, fwd, p, env) <==> Applies(a, fl, d, fwd, p, env))
  {
    EntryIsPlain(a, fl);
    EntryClaims(a, fl, p, env);
  }

  lemma SaysDefaults(e: Entry, fl: Flags, p: Packet, env: Env)
    ensures Says(Defaults(e, fl), p, env) <==> Says(e, p, env)
    ensures Printable(Defaults(e, fl)) <==> Printable(e)
  {
  }

  lemma {:induction false} FirstIsFirstOf(xs: seq<Alternative>, fl: Flags, d: Direction, fwd: bool, p: Packet, env: Env)
    requires (forall a | a in xs :: Ordinary(a)) && Entries(EMPTY, xs, fl).Some? && p.state == New
    ensures First(Entries(EMPTY, xs, fl).value, d, fwd, p, env) == FirstOf(xs, fl, d, fwd, p, env)
    ensures AllPlain(Entries(EMPTY, xs, fl).value)
  {
    if xs != [] {
      assert Ordinary(xs[0]);
      EntrySays(xs[0], fl, d, fwd, p, env);
      FirstIsFirstOf(xs[1..], fl, d, fwd, p, env);
      var e, es := EntryOf(EMPTY, xs[0], fl).value, Entries(EMPTY, xs[1..], fl).value;
      assert ([e] + es)[0] == e && ([e] + es)[1..] == es;
    }
  }

  /** What the source must be for the main results: its alternatives are ordinary and complete. */
  ghost predicate Deployable(ast: RuleList, k: Lookup, fl: Flags, es: seq<Entry>) {
    && (forall a | a in Compiled(ast, k) :: Ordinary(a))
    && Entries(EMPTY, Compiled(ast, k), fl) == Some(es)
  }

  /** A new packet to or from the machine gets the verdict of the first alternative of the source
      that applies to it, and is dropped if there is none. */
  lemma SourceDecidesLocal(ast: RuleList, k: Lookup, fl: Flags, es: seq<Entry>, style: Style, lstate: bool,
                           before: Ruleset,
                           d: Direction, p: Packet, env: Env, depth: nat)
    requires Deployable(ast, k, fl, es) && AllNamed(es, env) && depth > 0 && p.state == New
    ensures AllPlain(es)
    ensures Filtered(Loaded(style, lstate, es, before), if d == Input then INPUT else OUTPUT, p, env, depth)
         == Some(OrDrop(FirstOf(Compiled(ast, k), fl, d, false, p, env)))
  {
    FirstIsFirstOf(Compiled(ast, k), fl, d, false, p, env);
    NewConnections(style, lstate, es, before, d, p, env, depth);
  }

  /** A new packet is forwarded by the restore back end's script exactly when the first applying
      input alternative and the first applying output alternative both accept it. */
  lemma SourceDecidesForwarding(ast: RuleList, k: Lookup, fl: Flags, es: seq<Entry>, lstate: bool, before: Ruleset,
                                p: Packet, env: Env, depth: nat)
    requires Deployable(ast, k, fl, es) && AllNamed(es, env) && depth > 0 && p.state == New
    ensures AllPlain(es)
    ensures Filtered(Loaded(Restore, lstate, es, before), FORWARD, p, env, depth) == Some(Accepted)
       <==> FirstOf(Compiled(ast, k), fl, Input, true, p, env) == Some(Accepted)
            && FirstOf(Compiled(ast, k), fl, Output, true, p, env) == Some(Accepted)
  {
    FirstIsFirstOf(Compiled(ast, k), fl, Input, true, p, env);
    FirstIsFirstOf(Compiled(ast, k), fl, Output, true, p, env);
    ForwardingIsConjunction(lstate, es, before, p, env, depth);
  }

  // ----- the whole compiler -----

  /** The value of the rule callback: the number of rules printed, or failure. */
  function RuleValue(v6: bool, lstate: bool): Entry -> int {
    e => if Unsupported(v6, e) then -1 else RuleCount(lstate, e)
  }

  /** Every entry that is not rejected gives at least one rule. */
  lemma RuleValueNonzero(v6: bool, lstate: bool)
    ensures forall e :: RuleValue(v6, lstate)(e) != 0
    ensures forall e :: RuleValue(v6, lstate)(e) >= 0 <==> !Unsupported(v6, e)
  {
    forall e ensures RuleCount(lstate, e) > 0 {
      assert IsLocal(e) || IsForward(e);
    }
  }

  lemma {:induction false} AcceptedEntries(v6: bool, lstate: bool, fl: Flags, es: seq<Entry>)
    ensures AllAccepted(RuleWalk.Backend(RuleValue(v6, lstate), true, fl), es) <==> !AnyUnsupported(v6, es)
  {
    RuleValueNonzero(v6, lstate);
    if es != [] {
      AcceptedEntries(v6, lstate, fl, es[1..]);
    }
  }

  lemma {:induction false} EntriesTargets(xs: seq<Alternative>, fl: Flags)
    requires Entries(EMPTY, xs, fl).Some?
    ensures forall e | e in Entries(EMPTY, xs, fl).value :: e.target != Some(ToSubgroup)
  {
    if xs != [] {
      assert Whole(EMPTY);
      FoldKeys(EMPTY, xs[0]);
      EntriesTargets(xs[1..], fl);
    }
  }

  /** The two iptables back ends, from the syntax tree to the commands of the script. */
  method CompileScript(ast: RuleList, k: Lookup, style: Style, v6: bool, skeleton: bool, lstate: bool, fl: Flags,
                       count: nat)
    returns (ok: bool, cmds: seq<Command>)
    requires GroupFree(RulesForm(ast, k, count).form) && Expandable(ast, k, count)
    ensures ok <==> !Refused(ast, k, count)
                    && Entries(EMPTY, Compiled(ast, k), fl).Some?
                        && !AnyUnsupported(v6, Entries(EMPTY, Compiled(ast, k), fl).value)
    ensures ok ==> cmds == Script(style, skeleton, lstate, Entries(EMPTY, Compiled(ast, k), fl).value)
  {
    cmds := [];
    var b := RuleWalk.Backend(RuleValue(v6, lstate), true, fl);
    RuleValueNonzero(v6, lstate);
    RunAllSucceeds(b, EMPTY, Compiled(ast, k));
    var calls, c, count';
    ok, calls, c, count' := Compile(ast, k, b, false, count);
    if !ok || c < 0 {
      ok := false;
      if Entries(EMPTY, Compiled(ast, k), fl).Some? {
        AcceptedEntries(v6, lstate, fl, Entries(EMPTY, Compiled(ast, k), fl).value);
      }
      return;
    }
    AcceptedEntries(v6, lstate, fl, Entries(EMPTY, Compiled(ast, k), fl).value);
    EntriesTargets(Compiled(ast, k), fl);
    ok, cmds := EmitScript(style, v6, skeleton, lstate, RuleWalk.Rules(calls));
  }
}
