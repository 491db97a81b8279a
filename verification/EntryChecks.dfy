/** Which alternatives have an entry: the checks of the fold and of `checkmatch`, read off the
    specifiers of the alternative. */
module EntryChecks {
  import opened FilterSpec
  import opened FilterEntry
  import opened EntryOrder
  import opened Readings
  import opened CompiledRules
  import opened IptablesRules
  import opened SourceVerdicts

  // ----- what the alternative gives -----

  /** The protocol an alternative gives. */
  function ProtocolIn(a: Alternative): Option<Proto> {
    if a == [] then None else if a[0].spec.ProtoSpec? then Some(a[0].spec.proto) else ProtocolIn(a[1..])
  }

  predicate GivesPorts(a: Alternative) {
    exists l | l in a :: l.spec.SportSpec? || l.spec.DportSpec?
  }

  predicate GivesIcmpType(a: Alternative) {
    exists l | l in a :: l.spec.IcmpSpec?
  }

  /** The protocol has one of these numbers. */
  predicate ProtocolAmong(a: Alternative, numbers: set<int>) {
    ProtocolIn(a).Some? && ProtocolIn(a).value.num in numbers
  }

  lemma {:induction false} FoldProtocol(e: Entry, a: Alternative)
    requires Sensible(e) && Fold(e, a).Some?
    ensures Fold(e, a).value.proto == OrElse(e.proto, ProtocolIn(a))
    decreases |a|
  {
    if a != [] {
      ApplyGiven(e, a[0], ProtoBit);
      ApplySensible(e, a[0]);
      FoldProtocol(ApplyLiteral(e, a[0]).value, a[1..]);
    }
  }

  // ----- what the entry has -----

  lemma AssignPorts(e: Entry, s: Spec)
    ensures Assign(e, s).sport.Some? <==> e.sport.Some? || s.SportSpec?
    ensures Assign(e, s).dport.Some? <==> e.dport.Some? || s.DportSpec?
    ensures Assign(e, s).icmp.Some? <==> e.icmp.Some? || s.IcmpSpec?
  {
  }

  lemma {:induction false} FoldPorts(e: Entry, a: Alternative)
    requires Fold(e, a).Some?
    ensures var d := Fold(e, a).value;
            && (d.sport.Some? || d.dport.Some? <==> e.sport.Some? || e.dport.Some? || GivesPorts(a))
            && (d.icmp.Some? <==> e.icmp.Some? || GivesIcmpType(a))
    decreases |a|
  {
    if a != [] {
      AssignPorts(e, a[0].spec);
      FoldPorts(ApplyLiteral(e, a[0]).value, a[1..]);
      assert a == [a[0]] + a[1..];
    }
  }

  /** The first case of what stands in front is what the entry has. */
  lemma FoldedEntry(a: Alternative, fl: Flags)
    requires Fold(EMPTY, a).Some?
    ensures var d := Defaults(Fold(EMPTY, a).value, fl);
            && d.direction == DirectionOf(a) && (d.iface.Some? <==> DirectionOf(a).Some?)
            && d.target == Finals(TargetIn(a)) && d.proto == ProtocolIn(a) && d.rtype == Routing(a, fl)
            && (d.sport.Some? || d.dport.Some? <==> GivesPorts(a)) && (d.icmp.Some? <==> GivesIcmpType(a))
            && d.subgroup.None? && d.groupname.None?
  {
    assert Whole(EMPTY) && Sensible(EMPTY);
    FoldKeys(EMPTY, a);
    FoldProtocol(EMPTY, a);
    FoldPorts(EMPTY, a);
    FoldWhole(EMPTY, a);
  }

  lemma {:induction false} FoldWhole(e: Entry, a: Alternative)
    requires Whole(e) && Fold(e, a).Some?
    ensures Whole(Fold(e, a).value)
    decreases |a|
  {
    if a != [] {
      ApplyWhole(e, a[0]);
      FoldWhole(ApplyLiteral(e, a[0]).value, a[1..]);
    }
  }

  // ----- when there is an entry -----

  /** Nothing that may be given once is given twice, and no destination port follows a range of source ports. */
  predicate Foldable(a: Alternative) {
    !Repeats(a) && !RangeBeforeDport(a)
  }

  /** The checks on a finished entry, in the order of the original. */
  predicate Checked(a: Alternative, fl: Flags) {
    && TargetIn(a).Some? && DirectionOf(a).Some?
    && (GivesPorts(a) ==> ProtocolAmong(a, {6, 17}))
    && (GivesIcmpType(a) ==> ProtocolAmong(a, {1}))
    && !(Routing(a, fl) == Some(LocalOnly) && TargetIn(a) == Some(Masq))
  }

  /** An alternative has an entry if and only if its specifiers can be put together and it gives a
      direction, a target, ports only for tcp and udp, an icmp type only for icmp, and no masquerading
      of local packets. */
  lemma HasEntryExactly(a: Alternative, fl: Flags)
    ensures EntryOf(EMPTY, a, fl).Some? <==> Foldable(a) && Checked(a, fl)
  {
    FoldSucceedsExactly(EMPTY, a);
    EmptyBlocks(a);
    if Fold(EMPTY, a).Some? {
      FoldedEntry(a, fl);
    }
  }

  /** All alternatives have entries if and only if each of them is such. */
  lemma {:induction false} HaveEntriesExactly(xs: seq<Alternative>, fl: Flags)
    ensures Entries(EMPTY, xs, fl).Some? <==> forall a | a in xs :: Foldable(a) && Checked(a, fl)
    decreases |xs|
  {
    if xs != [] {
      HasEntryExactly(xs[0], fl);
      HaveEntriesExactly(xs[1..], fl);
      assert xs == [xs[0]] + xs[1..];
    }
  }

  // ----- when the back ends take it -----

  /** The iptables back ends take it unless it translates addresses where they cannot: for IPv6,
      masquerading on input, redirecting on output. */
  lemma TakenExactly(a: Alternative, fl: Flags, v6: bool)
    requires EntryOf(EMPTY, a, fl).Some?
    ensures Unsupported(v6, EntryOf(EMPTY, a, fl).value) <==>
      || (TargetIn(a) in {Some(Masq), Some(Redirect)} && v6)
      || (TargetIn(a) == Some(Masq) && DirectionOf(a) == Some(Input))
      || (TargetIn(a) == Some(Redirect) && DirectionOf(a) == Some(Output))
  {
    HasEntryExactly(a, fl);
    FoldedEntry(a, fl);
  }

  // ----- log texts -----

  /** The text of the last `log` an alternative gives, if any; it may be given without one. */
  function LastLog(a: Alternative): Option<Option<string>>
    decreases |a|
  {
    if a == [] then None
    else if LastLog(a[1..]).Some? then LastLog(a[1..])
    else if a[0].spec.LogSpec? then Some(a[0].spec.text) else None
  }

  lemma {:induction false} FoldLog(e: Entry, a: Alternative)
    requires Fold(e, a).Some?
    ensures LogBit in Fold(e, a).value.whatsSet <==> LogBit in e.whatsSet || LastLog(a).Some?
    ensures Fold(e, a).value.logmsg == (if LastLog(a).Some? then LastLog(a).value else e.logmsg)
    decreases |a|
  {
    if a != [] {
      var e' := ApplyLiteral(e, a[0]).value;
      FoldLog(e', a[1..]);
      assert e'.logmsg == (if a[0].spec.LogSpec? then a[0].spec.text else e.logmsg);
      assert LogBit in e'.whatsSet <==> LogBit in e.whatsSet || a[0].spec.LogSpec?;
    }
  }

  /** The LOG commands of an entry. */
  lemma EntryLogs(e: Entry)
    ensures var cs, log := LogCommands(e), LogBit in e.whatsSet;
            && (cs == [] <==> !log)
            && (forall c | c in cs :: c.Append? && log && c.target == LogWord(e.logmsg))
            && ((exists c | c in cs :: c.Append? && c.chain.base in {INPUT, OUTPUT}) <==> log && IsLocal(e))
            && ((exists c | c in cs :: c.Append? && c.chain.base in {FORWARD, FORW_OUT}) <==> log && IsForward(e))
  {
    if LogBit in e.whatsSet {
      var c, d := Append(Chain(None, RuleBase(e)), ForwardText(e), LogWord(e.logmsg)),
          Append(Chain(None, ForwardBase(e)), ForwardText(e), LogWord(e.logmsg));
      assert LogCommands(e) == When(IsLocal(e), c) + When(IsForward(e), d);
      assert IsLocal(e) ==> c in LogCommands(e);
      assert IsForward(e) ==> d in LogCommands(e);
    }
  }

  /** A rule is logged if and only if its alternative says `log`, and then with the last text given:
      in the chain for packets of the machine unless it is for forwarded packets only, in that for
      forwarded packets unless it is for local ones only. */
  lemma LogsExactly(a: Alternative, fl: Flags)
    requires EntryOf(EMPTY, a, fl).Some?
    ensures var cs := LogCommands(EntryOf(EMPTY, a, fl).value);
            && (cs == [] <==> LastLog(a).None?)
            && (forall c | c in cs :: c.Append? && LastLog(a).Some? && c.target == LogWord(LastLog(a).value))
            && ((exists c | c in cs :: c.Append? && c.chain.base in {INPUT, OUTPUT})
                <==> LastLog(a).Some? && Routing(a, fl) != Some(RoutedOnly))
            && ((exists c | c in cs :: c.Append? && c.chain.base in {FORWARD, FORW_OUT})
                <==> LastLog(a).Some? && Routing(a, fl) != Some(LocalOnly))
  {
    FoldLog(EMPTY, a);
    FoldedEntry(a, fl);
    EntryLogs(EntryOf(EMPTY, a, fl).value);
  }
}
