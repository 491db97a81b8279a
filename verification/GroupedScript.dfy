/** Loading the script of a filter with groups: every group is a set of chains of its own, created
    when its body is walked. */
module GroupedScript {
  import opened FilterSpec
  import opened FilterEntry
  import opened IptablesRules
  import opened Netfilter
  import opened RuleMeaning
  import opened LoadedScript
  import opened RuleWalk

  /** `cb_iptables_group_common` and `cb_iptrestore_group_common`. */
  function GroupCommands(name: string): seq<Command> {
    [NewChain(Chain(Some(name), INPUT)), NewChain(Chain(Some(name), OUTPUT)),
     NewChain(Chain(Some(name), FORWARD)), NewChain(Chain(Some(name), FORW_OUT))]
  }

  /** The commands printed by the callbacks of a walk, in order. */
  function CallCommands(style: Style, lstate: bool, cs: seq<Call>): seq<Command>
    decreases cs
  {
    if cs == [] then []
    else
      (match cs[0]
       case RuleCall(d) => EntryCommands(style, lstate, d)
       case GroupCall(name, _, _, body) => GroupCommands(name) + CallCommands(style, lstate, body))
      + CallCommands(style, lstate, cs[1..])
  }

  /** The groups walked, in order, as often as they are walked. */
  function GroupNames(cs: seq<Call>): seq<string>
    decreases cs
  {
    if cs == [] then []
    else
      (match cs[0]
       case RuleCall(_) => []
       case GroupCall(name, _, _, body) => [name] + GroupNames(body))
      + GroupNames(cs[1..])
  }

  /** A rule without NAT that has a direction and a target. */
  predicate Fit(e: Entry) {
    && e.direction.Some? && e.target.Some? && !IsNat(e) && (e.target == Some(ToSubgroup) ==> e.subgroup.Some?)
  }

  ghost predicate AllFit(cs: seq<Call>)
    decreases cs
  {
    cs != [] ==>
      (match cs[0]
       case RuleCall(d) => Fit(d)
       case GroupCall(_, _, _, body) => AllFit(body))
      && AllFit(cs[1..])
  }

  const BASES: set<Base> := {INPUT, OUTPUT, FORWARD, FORW_OUT}

  ghost function ChainsOf(names: set<string>): set<Chain> {
    set n, b | n in names && b in BASES :: Chain(Some(n), b)
  }

  /** The chains there are when the groups `names` have been created. */
  ghost function Keys(names: set<string>): set<Chain> {
    RULE_CHAINS + {INVALID_CHAIN} + ChainsOf(names)
  }

  // ----- one rule -----

  lemma EntryGood(style: Style, e: Entry, base: Base, names: set<string>)
    requires Fit(e) && Names(e) <= names && base in BASES
    ensures Good(Append(Chain(None, base), ForwardText(e), LogWord(e.logmsg)), Keys(names))
    ensures Good(Append(Chain(e.groupname, base), ForwardText(e), RuleTarget(e)), Keys(names))
    ensures Good(Append(Chain(e.groupname, base), ForwardText(e), ForwardTarget(style, e)), Keys(names))
    ensures Good(Insert(Chain(e.groupname, base), ReverseText(e), ReverseTarget(e)), Keys(names))
    ensures Good(Insert(Chain(e.groupname, base), ReverseText(e), ForwardReverseTarget(e)), Keys(names))
  {
    ReadForward(e);
    ReadReverse(e);
  }

  /** The rules of an entry load once its chains are there. */
  lemma EntryLoads(style: Style, lstate: bool, e: Entry, names: set<string>)
    requires Fit(e) && Names(e) <= names
    ensures Loadable(EntryCommands(style, lstate, e), Keys(names))
  {
    var keys := Keys(names);
    EntryGood(style, e, RuleBase(e), names);
    EntryGood(style, e, ReverseBase(e), names);
    EntryGood(style, e, ForwardBase(e), names);
    EntryGood(style, e, ForwardReverseBase(e), names);
    var b := LogBit in e.whatsSet;
    LoadableWhen(b && IsLocal(e), Append(Chain(None, RuleBase(e)), ForwardText(e), LogWord(e.logmsg)),
                 b && IsForward(e), Append(Chain(None, ForwardBase(e)), ForwardText(e), LogWord(e.logmsg)), keys);
    LoadableWhen(IsLocal(e), Append(Chain(e.groupname, RuleBase(e)), ForwardText(e), RuleTarget(e)),
                 WantsReverse(lstate, e), Insert(Chain(e.groupname, ReverseBase(e)), ReverseText(e), ReverseTarget(e)),
                 keys);
    LoadableWhen(IsForward(e), Append(Chain(e.groupname, ForwardBase(e)), ForwardText(e), ForwardTarget(style, e)),
                 IsForward(e) && WantsReverse(lstate, e),
                 Insert(Chain(e.groupname, ForwardReverseBase(e)), ReverseText(e), ForwardReverseTarget(e)), keys);
    LoadableAppend(LocalCommands(lstate, e), ForwardCommands(style, lstate, e), keys);
    LoadableAppend(LogCommands(e), LocalCommands(lstate, e) + ForwardCommands(style, lstate, e), keys);
    assert LogCommands(e) + NatCommands(style, e) == LogCommands(e);
  }

  // ----- one group -----

  lemma ChainOfNames(names: set<string>, name: string, base: Base)
    requires base in BASES
    ensures Chain(Some(name), base) in Keys(names) <==> name in names
  {
    if name in names {
      assert Chain(Some(name), base) in ChainsOf(names);
    }
  }

  lemma NewChains(name: string, names: set<string>)
    ensures ChainsOf(names + {name})
         == ChainsOf(names)
             + {Chain(Some(name), INPUT), Chain(Some(name), OUTPUT), Chain(Some(name), FORWARD),
                Chain(Some(name), FORW_OUT)}
  {
  }

  /** Creating a group's chains succeeds unless they are there. */
  lemma GroupLoads(name: string, names: set<string>, rs: Ruleset)
    requires rs.chains.Keys == Keys(names)
    ensures Load(GroupCommands(name), rs).Some? <==> name !in names
    ensures name !in names ==> Load(GroupCommands(name), rs).value.chains.Keys == Keys(names + {name})
  {
    var a, b, c, d := Chain(Some(name), INPUT), Chain(Some(name), OUTPUT), Chain(Some(name), FORWARD),
        Chain(Some(name), FORW_OUT);
    ChainOfNames(names, name, INPUT);
    ChainOfNames(names, name, OUTPUT);
    ChainOfNames(names, name, FORWARD);
    ChainOfNames(names, name, FORW_OUT);
    assert GroupCommands(name) == [NewChain(a)] + ([NewChain(b)] + ([NewChain(c)] + ([NewChain(d)] + [])));
    LoadCons(NewChain(a), [NewChain(b)] + ([NewChain(c)] + ([NewChain(d)] + [])), rs);
    if name !in names {
      var r1 := rs.(chains := rs.chains[a := []]);
      var r2 := r1.(chains := r1.chains[b := []]);
      var r3 := r2.(chains := r2.chains[c := []]);
      var r4 := r3.(chains := r3.chains[d := []]);
      LoadCons(NewChain(b), [NewChain(c)] + ([NewChain(d)] + []), r1);
      LoadCons(NewChain(c), [NewChain(d)] + [], r2);
      LoadCons(NewChain(d), [], r3);
      NewChains(name, names);
      assert r4.chains.Keys == rs.chains.Keys + {a, b, c, d};
    }
  }

  // ----- the whole walk -----

  /** No group is walked that has been walked before, `names` being those at the start. */
  ghost predicate FreshNames(cs: seq<Call>, names: set<string>)
    decreases cs
  {
    cs != [] ==>
      match cs[0]
      case RuleCall(_) => FreshNames(cs[1..], names)
      case GroupCall(name, _, _, body) =>
        name !in names && FreshNames(body, names + {name}) && FreshNames(cs[1..], After(cs[..1], names))
  }

  /** The groups there are after the walk. */
  ghost function After(cs: seq<Call>, names: set<string>): set<string> {
    names + set n | n in GroupNames(cs)
  }

  lemma AfterStep(cs: seq<Call>, names: set<string>)
    requires cs != []
    ensures cs[0].RuleCall? ==> After(cs, names) == After(cs[1..], names) && After(cs[..1], names) == names
    ensures cs[0].GroupCall? ==>
      After(cs[..1], names) == After(cs[0].body, names + {cs[0].name})
          && After(cs, names) == After(cs[1..], After(cs[..1], names))
  {
    var one := cs[..1];
    assert one[0] == cs[0] && one[1..] == [];
    if cs[0].RuleCall? {
      assert GroupNames(one) == [] + GroupNames(one[1..]) == [];
      assert GroupNames(cs) == [] + GroupNames(cs[1..]) == GroupNames(cs[1..]);
    } else {
      assert GroupNames(one) == [cs[0].name] + GroupNames(cs[0].body) + [];
    }
  }

  lemma {:induction false} AnnouncedMore(cs: seq<Call>, known: set<string>, more: set<string>)
    requires Announced(cs, known) && known <= more
    ensures Announced(cs, more)
    decreases cs
  {
    if cs != [] {
      match cs[0]
      case RuleCall(_) => AnnouncedMore(cs[1..], known, more);
      case GroupCall(name, _, _, body) =>
        AnnouncedMore(body, known + {name}, more + {name});
        AnnouncedMore(cs[1..], known + {name}, more + {name});
    }
  }

  lemma RuleLoads(style: Style, lstate: bool, e: Entry, names: set<string>, rs: Ruleset)
    requires Fit(e) && Names(e) <= names && rs.chains.Keys == Keys(names)
    ensures Load(EntryCommands(style, lstate, e), rs).Some?
    ensures Load(EntryCommands(style, lstate, e), rs).value.chains.Keys == Keys(names)
  {
    EntryLoads(style, lstate, e, names);
    LoadLines(EntryCommands(style, lstate, e), rs);
  }

  /** In a trace in which chains are announced before they are used, the commands load exactly when no
      group is walked twice. */
  lemma {:induction false} CallsLoad(style: Style, lstate: bool, cs: seq<Call>, names: set<string>, rs: Ruleset)
    requires Announced(cs, names) && AllFit(cs) && rs.chains.Keys == Keys(names)
    ensures Load(CallCommands(style, lstate, cs), rs).Some? <==> FreshNames(cs, names)
    ensures FreshNames(cs, names)
        ==> Load(CallCommands(style, lstate, cs), rs).value.chains.Keys == Keys(After(cs, names))
    decreases cs
  {
    if cs == [] {
      assert After(cs, names) == names;
    } else {
      var rest := CallCommands(style, lstate, cs[1..]);
      AfterStep(cs, names);
      match cs[0]
      case RuleCall(d) =>
        var c := EntryCommands(style, lstate, d);
        LoadAppend(c, rest, rs);
        RuleLoads(style, lstate, d, names, rs);
        CallsLoad(style, lstate, cs[1..], names, Load(c, rs).value);
      case GroupCall(name, _, _, body) =>
        var g, c := GroupCommands(name), CallCommands(style, lstate, body);
        LoadAppend(g + c, rest, rs);
        LoadAppend(g, c, rs);
        GroupLoads(name, names, rs);
        if name !in names {
          var r := Load(g, rs).value;
          CallsLoad(style, lstate, body, names + {name}, r);
          if FreshNames(body, names + {name}) {
            AnnouncedMore(cs[1..], names + {name}, After(cs[..1], names));
            CallsLoad(style, lstate, cs[1..], After(cs[..1], names), Load(c, r).value);
          }
        }
    }
  }

  // ----- no group twice -----

  predicate Once(xs: seq<string>) {
    forall i, j | 0 <= i < j < |xs| :: xs[i] != xs[j]
  }

  lemma OnceAppend(xs: seq<string>, ys: seq<string>)
    ensures Once(xs + ys) <==> Once(xs) && Once(ys) && forall x | x in xs :: x !in ys
  {
    var zs := xs + ys;
    if Once(zs) {
      forall x | x in xs ensures x !in ys {
        var i :| 0 <= i < |xs| && xs[i] == x;
        forall j | 0 <= j < |ys| ensures ys[j] != x { assert zs[i] == x && zs[|xs| + j] == ys[j]; }
      }
      forall i, j | 0 <= i < j < |xs| ensures xs[i] != xs[j] { assert zs[i] == xs[i] && zs[j] == xs[j]; }
      forall i, j | 0 <= i < j < |ys| ensures ys[i] != ys[j] { assert zs[|xs| + i] == ys[i] && zs[|xs| + j] == ys[j]; }
    }
    if Once(xs) && Once(ys) && forall x | x in xs :: x !in ys {
      forall i, j | 0 <= i < j < |zs| ensures zs[i] != zs[j] {
        if i < |xs| <= j {
          assert zs[i] == xs[i] && xs[i] in xs && zs[j] == ys[j - |xs|] && ys[j - |xs|] in ys;
        } else if |xs| <= i {
          assert zs[i] == ys[i - |xs|] && zs[j] == ys[j - |xs|];
        }
      }
    }
  }

  lemma {:induction false} FreshIsOnce(cs: seq<Call>, names: set<string>)
    ensures FreshNames(cs, names) <==> Once(GroupNames(cs)) && forall n | n in GroupNames(cs) :: n !in names
    decreases cs
  {
    if cs != [] {
      AfterStep(cs, names);
      match cs[0]
      case RuleCall(_) =>
        FreshIsOnce(cs[1..], names);
        assert [] + GroupNames(cs[1..]) == GroupNames(cs[1..]);
      case GroupCall(name, _, _, body) =>
        var b, r := GroupNames(body), GroupNames(cs[1..]);
        FreshIsOnce(body, names + {name});
        FreshIsOnce(cs[1..], After(cs[..1], names));
        OnceAppend([name], b);
        OnceAppend([name] + b, r);
        assert GroupNames(cs) == [name] + b + r;
    }
  }

  /** The script of a filter with groups loads, on top of the skeleton, if and only if no group is walked
      twice, be it by two groups of the same name or by one group that several alternatives reach. */
  lemma GroupedScriptLoads(style: Style, lstate: bool, cs: seq<Call>, policy: map<Base, Verdict>)
    requires Announced(cs, {}) && AllFit(cs)
    ensures Load(CallCommands(style, lstate, cs), AfterSkeleton(policy)).Some? <==> Once(GroupNames(cs))
  {
    var rs := AfterSkeleton(policy);
    assert ChainsOf({}) == {};
    assert rs.chains.Keys == Keys({});
    CallsLoad(style, lstate, cs, {}, rs);
    FreshIsOnce(cs, {});
  }
}
