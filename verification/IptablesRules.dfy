/** The iptables and iptables-restore back ends: the commands one entry becomes, and the script
    around them.  The two back ends are the same program up to `Style`. */
module IptablesRules {
  import opened FilterSpec
  import opened FilterEntry

  datatype Style = Iptables | Restore

  datatype Base = PREROUTING | POSTROUTING | INPUT | OUTPUT | FORWARD | FORW_OUT | INVALID

  /** A chain name: one of the fixed ones, or that of a group. */
  datatype Chain = Chain(group: Option<string>, base: Base)

  datatype CtState = New | Established | Related | Invalid

  /** The words of a rule. */
  datatype Token =
    | Bang
    | InIface | OutIface | ProtoOpt | SynOpt | MatchOpt | StateOpt
    | SrcOpt | DstOpt | SportOpt | DportOpt | IcmpOpt | JumpOpt
    | Word(text: string) | AddrWord(addr: Addr) | PortsWord(ports: Ports) | StatesWord(states: set<CtState>)

  datatype TargetWord =
    | AcceptWord | DropWord | RejectWord | MasqueradeWord | RedirectWord
    | LogWord(prefix: Option<string>)
    | ChainWord(chain: Chain)

  datatype Command =
    | Append(chain: Chain, rule: seq<Token>, target: TargetWord)
    | Insert(chain: Chain, rule: seq<Token>, target: TargetWord)
    | NatAppend(chain: Chain, rule: seq<Token>, target: TargetWord)
    | NewChain(chain: Chain)
    | DropPolicy(base: Base)
    | Flush
    | Commit
    | Table(nat: bool)

  type Text = seq<Token>

  // ----- what an entry asks for -----

  predicate IsLocal(e: Entry) { e.rtype != Some(RoutedOnly) }

  predicate IsForward(e: Entry) { e.rtype != Some(LocalOnly) }

  predicate IsNat(e: Entry) { e.target == Some(Final(Masq)) || e.target == Some(Final(Redirect)) }

  predicate Accepts(e: Entry) { e.target == Some(Final(Accept)) || IsNat(e) }

  predicate Stateful(e: Entry) { e.proto.Some? && (e.proto.value.num == TCP || e.proto.value.num == UDP) }

  /** The callback rejects the entry. */
  predicate Unsupported(v6: bool, e: Entry) {
    || e.direction.None? || e.target.None?
    || (IsNat(e) && v6)
    || (e.target == Some(Final(Masq)) && e.direction == Some(Input))
    || (e.target == Some(Final(Redirect)) && e.direction == Some(Output))
  }

  /** Rules for the packets of the opposite direction are wanted. */
  predicate WantsReverse(lstate: bool, e: Entry) {
    !lstate && !e.oneway && (e.target == Some(ToSubgroup) || (Accepts(e) && Stateful(e)))
  }

  // ----- the text of its rules -----

  function Sign(e: Entry, k: Kind): Text {
    if k in e.negated then [Bang] else []
  }

  function IfaceText(e: Entry, opt: Token): Text {
    if e.iface.Some? && e.iface.value != "*" then Sign(e, DirectionBit) + [opt, Word(e.iface.value)] else []
  }

  function StatesText(s: set<CtState>): Text {
    [MatchOpt, Word("conntrack"), StateOpt, StatesWord(s)]
  }

  function ProtoText(e: Entry, reverse: bool): Text {
    if e.proto.None? then []
    else
      [ProtoOpt, Word(e.proto.value.name)]
      + (if reverse && e.proto.value.num == TCP then [Bang, SynOpt] else [])
      + (if !Stateful(e) then [] else StatesText(if reverse then {Established} else {New, Established}))
  }

  function AddrText(e: Entry, a: Option<Addr>, k: Kind, opt: Token): Text {
    if a.None? then [] else Sign(e, k) + [opt, AddrWord(a.value)]
  }

  function PortText(e: Entry, p: Option<Ports>, k: Kind, opt: Token): Text {
    if p.None? || !Stateful(e) then [] else Sign(e, k) + [opt, PortsWord(p.value)]
  }

  function IcmpText(e: Entry): Text {
    if e.icmp.Some? && ProtoNum(e) == ICMP then Sign(e, IcmpBit) + [IcmpOpt, Word(e.icmp.value)] else []
  }

  /** The matches of the rule for packets in the entry's own direction. */
  function ForwardText(e: Entry): Text {
    IfaceText(e, if e.direction == Some(Input) then InIface else OutIface)
    + ProtoText(e, false)
    + AddrText(e, e.src, SourceBit, SrcOpt)
    + AddrText(e, e.dst, DestBit, DstOpt)
    + PortText(e, e.sport, SportBit, SportOpt)
    + PortText(e, e.dport, DportBit, DportOpt)
    + IcmpText(e)
    + [JumpOpt]
  }

  /** The matches of the rule for replies: interface, addresses and ports change sides. */
  function ReverseText(e: Entry): Text {
    IfaceText(e, if e.direction == Some(Input) then OutIface else InIface)
    + ProtoText(e, true)
    + AddrText(e, e.src, SourceBit, DstOpt)
    + AddrText(e, e.dst, DestBit, SrcOpt)
    + PortText(e, e.sport, SportBit, DportOpt)
    + PortText(e, e.dport, DportBit, SportOpt)
    + [JumpOpt]
  }

  /** The NAT rule has the matches of the forward rule without the connection state. */
  function NatText(e: Entry): Text {
    IfaceText(e, if e.direction == Some(Input) then InIface else OutIface)
    + NatProtoText(e)
    + AddrText(e, e.src, SourceBit, SrcOpt)
    + AddrText(e, e.dst, DestBit, DstOpt)
    + PortText(e, e.sport, SportBit, SportOpt)
    + PortText(e, e.dport, DportBit, DportOpt)
    + IcmpText(e)
    + [JumpOpt]
  }

  // ----- chains and targets -----

  function RuleBase(e: Entry): Base { if e.direction == Some(Input) then INPUT else OUTPUT }

  function ReverseBase(e: Entry): Base { if e.direction == Some(Input) then OUTPUT else INPUT }

  function ForwardBase(e: Entry): Base { if e.direction == Some(Input) then FORWARD else FORW_OUT }

  function ForwardReverseBase(e: Entry): Base { if e.direction == Some(Input) then FORW_OUT else FORWARD }

  const FORW_OUT_WORD := ChainWord(Chain(None, FORW_OUT))

  function RuleTarget(e: Entry): TargetWord {
    match e.target
    case Some(Final(Drop)) => DropWord
    case Some(Final(Reject)) => RejectWord
    case Some(ToSubgroup) => ChainWord(Chain(e.subgroup, RuleBase(e)))
    case _ => AcceptWord
  }

  function ReverseTarget(e: Entry): TargetWord {
    if e.target == Some(ToSubgroup) then ChainWord(Chain(e.subgroup, ReverseBase(e))) else AcceptWord
  }

  /** Where an entry sends forwarded packets.  The iptables back end sends every input rule's
      packets to FORW_OUT, also those the rule drops or rejects. */
  function ForwardTarget(style: Style, e: Entry): TargetWord {
    if e.target == Some(ToSubgroup) then ChainWord(Chain(e.subgroup, ForwardBase(e)))
    else if e.direction == Some(Input) && (Accepts(e) || style == Iptables) then FORW_OUT_WORD
    else RuleTarget(e)
  }

  function ForwardReverseTarget(e: Entry): TargetWord {
    if e.target == Some(ToSubgroup) then ChainWord(Chain(e.subgroup, ForwardReverseBase(e)))
    else if e.direction == Some(Output) then FORW_OUT_WORD
    else AcceptWord
  }

  // ----- the commands of an entry -----

  function When(b: bool, c: Command): seq<Command> {
    if b then [c] else []
  }

  function LogCommands(e: Entry): seq<Command> {
    When(LogBit in e.whatsSet && IsLocal(e), Append(Chain(None, RuleBase(e)), ForwardText(e), LogWord(e.logmsg)))
    + When(LogBit in e.whatsSet && IsForward(e), Append(Chain(None, ForwardBase(e)), ForwardText(e), LogWord(e.logmsg)))
  }

  function NatCommands(style: Style, e: Entry): seq<Command> {
    if !IsNat(e) then []
    else
      var c := NatAppend(Chain(e.groupname, if e.direction == Some(Input) then PREROUTING else POSTROUTING), NatText(e),
                           if e.target == Some(Final(Masq)) then MasqueradeWord else RedirectWord);
      if style == Iptables then [c] else [Commit, Table(true), c, Commit, Table(false)]
  }

  function LocalCommands(lstate: bool, e: Entry): seq<Command> {
    When(IsLocal(e), Append(Chain(e.groupname, RuleBase(e)), ForwardText(e), RuleTarget(e)))
    + When(WantsReverse(lstate, e), Insert(Chain(e.groupname, ReverseBase(e)), ReverseText(e), ReverseTarget(e)))
  }

  function ForwardCommands(style: Style, lstate: bool, e: Entry): seq<Command> {
    When(IsForward(e), Append(Chain(e.groupname, ForwardBase(e)), ForwardText(e), ForwardTarget(style, e)))
    + When(IsForward(e) && WantsReverse(lstate, e),
           Insert(Chain(e.groupname, ForwardReverseBase(e)), ReverseText(e), ForwardReverseTarget(e)))
  }

  function EntryCommands(style: Style, lstate: bool, e: Entry): seq<Command> {
    LogCommands(e) + NatCommands(style, e) + (LocalCommands(lstate, e) + ForwardCommands(style, lstate, e))
  }

  /** The number of rules among the commands. */
  function RuleCount(lstate: bool, e: Entry): nat {
    |LogCommands(e)| + (if IsNat(e) then 1 else 0) + |LocalCommands(lstate, e)| + |ForwardCommands(Restore, lstate, e)|
  }

  // ----- feature bits -----

  const A_TCP := 4
  const A_UDP := 5

  /** The bits of the features an entry uses.  A reject rule sets the bits of the token number 20,
      of which one is that of TCP. */
  function Features(e: Entry): set<nat> {
    (if ProtoNum(e) == TCP then {A_TCP} else {})
    + (if ProtoNum(e) == UDP then {A_UDP} else {})
    + (if e.target == Some(Final(Reject)) then {2, A_TCP} else {})
  }

  // ----- the rule callback -----

  /** The three texts the callback grows side by side. */
  datatype Texts = Texts(natrule: Text, rule: Text, rule_r: Text)

  function Plus(t: Texts, n: Text, r: Text, rr: Text): Texts {
    Texts(t.natrule + n, t.rule + r, t.rule_r + rr)
  }

  method AppendIface(ent: Entry, opt: Token, opt_r: Token, t: Texts) returns (t': Texts)
    ensures t' == Plus(t, IfaceText(ent, opt), IfaceText(ent, opt), IfaceText(ent, opt_r))
  {
    t' := t;
    if ent.iface.Some? && ent.iface.value != "*" {
      if DirectionBit in ent.negated {
        t' := Plus(t', [Bang], [Bang], [Bang]);
      }
      var w := Word(ent.iface.value);
      t' := Plus(t', [opt, w], [opt, w], [opt_r, w]);
    }
  }

  function NatProtoText(e: Entry): Text {
    if e.proto.None? then [] else [ProtoOpt, Word(e.proto.value.name)]
  }

  method AppendProto(ent: Entry, t: Texts, needret: bool, feat: set<nat>)
    returns (t': Texts, needret': bool, feat': set<nat>)
    ensures t' == Plus(t, NatProtoText(ent), ProtoText(ent, false), ProtoText(ent, true))
    ensures needret' == (needret || Stateful(ent))
    ensures feat' == feat + (if ProtoNum(ent) == TCP then {A_TCP} else {})
        + (if ProtoNum(ent) == UDP then {A_UDP} else {})
  {
    t', needret', feat' := t, needret, feat;
    if ent.proto.Some? {
      var needstate := false;
      var p := [ProtoOpt, Word(ent.proto.value.name)];
      t' := Plus(t', p, p, p);
      if ent.proto.value.num == TCP {
        needret', needstate := true, true;
        feat' := feat' + {A_TCP};
        t' := t'.(rule_r := t'.rule_r + [Bang, SynOpt]);
      } else if ent.proto.value.num == UDP {
        needret', needstate := true, true;
        feat' := feat' + {A_UDP};
      }
      if needstate {
        t' := t'.(rule := t'.rule + StatesText({New, Established}), rule_r := t'.rule_r + StatesText({Established}));
      }
    }
  }

  method AppendAddr(ent: Entry, a: Option<Addr>, k: Kind, opt: Token, opt_r: Token, t: Texts) returns (t': Texts)
    ensures t' == Plus(t, AddrText(ent, a, k, opt), AddrText(ent, a, k, opt), AddrText(ent, a, k, opt_r))
  {
    t' := t;
    if a.Some? {
      var n := Sign(ent, k);
      t' := Plus(t', n, n, n);
      t' := Plus(t', [opt, AddrWord(a.value)], [opt, AddrWord(a.value)], [opt_r, AddrWord(a.value)]);
    }
  }

  method AppendPorts(ent: Entry, p: Option<Ports>, k: Kind, opt: Token, opt_r: Token, t: Texts) returns (t': Texts)
    requires Stateful(ent)
    ensures t' == Plus(t, PortText(ent, p, k, opt), PortText(ent, p, k, opt), PortText(ent, p, k, opt_r))
  {
    t' := t;
    if p.Some? {
      var n := Sign(ent, k);
      t' := Plus(t', n, n, n);
      t' := Plus(t', [opt, PortsWord(p.value)], [opt, PortsWord(p.value)], [opt_r, PortsWord(p.value)]);
    }
  }

  /** The switch on the protocol number: ports for tcp and udp, types for icmp. */
  method AppendPortsOrIcmp(ent: Entry, t: Texts) returns (t': Texts)
    ensures t' == Plus(Plus(Plus(t,
      PortText(ent, ent.sport, SportBit, SportOpt), PortText(ent, ent.sport, SportBit, SportOpt),
      PortText(ent, ent.sport, SportBit, DportOpt)),
      PortText(ent, ent.dport, DportBit, DportOpt), PortText(ent, ent.dport, DportBit, DportOpt),
      PortText(ent, ent.dport, DportBit, SportOpt)),
      IcmpText(ent), IcmpText(ent), [])
  {
    t' := t;
    if ProtoNum(ent) == TCP || ProtoNum(ent) == UDP {
      t' := AppendPorts(ent, ent.sport, SportBit, SportOpt, DportOpt, t');
      t' := AppendPorts(ent, ent.dport, DportBit, DportOpt, SportOpt, t');
    } else if ProtoNum(ent) == ICMP && ent.icmp.Some? {
      var n := Sign(ent, IcmpBit);
      t' := Plus(t', n, n, []);
      t' := Plus(t', [IcmpOpt, Word(ent.icmp.value)], [IcmpOpt, Word(ent.icmp.value)], []);
    }
  }

  /** All matches of the three rules. */
  method BuildTexts(ent: Entry, opt: Token, opt_r: Token, needret: bool, feat: set<nat>)
    returns (t: Texts, needret': bool, feat': set<nat>)
    requires ent.direction.Some?
    requires opt == (if ent.direction == Some(Input) then InIface else OutIface)
    requires opt_r == (if ent.direction == Some(Input) then OutIface else InIface)
    ensures t == Texts(NatText(ent), ForwardText(ent), ReverseText(ent))
    ensures needret' == (needret || Stateful(ent))
    ensures feat' == feat + (if ProtoNum(ent) == TCP then {A_TCP} else {})
        + (if ProtoNum(ent) == UDP then {A_UDP} else {})
  {
    t := AppendIface(ent, opt, opt_r, Texts([], [], []));
    assert t == Texts(IfaceText(ent, opt), IfaceText(ent, opt), IfaceText(ent, opt_r));
    t, needret', feat' := AppendProto(ent, t, needret, feat);
    t := AppendAddr(ent, ent.src, SourceBit, SrcOpt, DstOpt, t);
    t := AppendAddr(ent, ent.dst, DestBit, DstOpt, SrcOpt, t);
    ghost var rr := t.rule_r + PortText(ent, ent.sport, SportBit, DportOpt)
        + PortText(ent, ent.dport, DportBit, SportOpt);
    t := AppendPortsOrIcmp(ent, t);
    assert t.rule_r == rr by { assert rr + [] == rr; }
    t := Plus(t, [JumpOpt], [JumpOpt], [JumpOpt]);
  }

  /** The switch on the target. */
  method ChooseTargets(style: Style, ent: Entry, needret: bool)
    returns (ruletarget: TargetWord, revtarget: TargetWord, fortarget: TargetWord, forrevtarget: TargetWord,
             needret': bool)
    requires ent.target.Some? && ent.direction.Some?
    ensures ruletarget == RuleTarget(ent) && fortarget == ForwardTarget(style, ent)
    ensures needret' ==> revtarget == ReverseTarget(ent) && forrevtarget == ForwardReverseTarget(ent)
    ensures needret' == (needret && (Accepts(ent) || ent.target == Some(ToSubgroup)))
  {
    ruletarget, revtarget, fortarget, forrevtarget := AcceptWord, AcceptWord, AcceptWord, AcceptWord;
    needret' := needret;
    match ent.target.value {
      case ToSubgroup =>
        if ent.direction == Some(Input) {
          ruletarget, revtarget := ChainWord(Chain(ent.subgroup, INPUT)), ChainWord(Chain(ent.subgroup, OUTPUT));
          fortarget, forrevtarget := ChainWord(Chain(ent.subgroup, FORWARD)), ChainWord(Chain(ent.subgroup, FORW_OUT));
        } else {
          ruletarget, revtarget := ChainWord(Chain(ent.subgroup, OUTPUT)), ChainWord(Chain(ent.subgroup, INPUT));
          fortarget, forrevtarget := ChainWord(Chain(ent.subgroup, FORW_OUT)), ChainWord(Chain(ent.subgroup, FORWARD));
        }
      case Final(Drop) =>
        ruletarget, fortarget := DropWord, DropWord;
        if style == Iptables && ent.direction == Some(Input) {
          fortarget := FORW_OUT_WORD;
        }
        needret' := false;
      case Final(Reject) =>
        ruletarget, fortarget := RejectWord, RejectWord;
        if style == Iptables && ent.direction == Some(Input) {
          fortarget := FORW_OUT_WORD;
        }
        needret' := false;
      case Final(_) =>
        match ent.direction.value {
          case Input => fortarget := FORW_OUT_WORD;
          case Output => forrevtarget := FORW_OUT_WORD;
        }
    }
  }

  method PrintLog(ent: Entry, rule: Text) returns (cmds: seq<Command>, n: nat)
    requires rule == ForwardText(ent)
    ensures cmds == LogCommands(ent) && n == |cmds|
  {
    cmds, n := [], 0;
    if LogBit in ent.whatsSet {
      if IsLocal(ent) {
        n, cmds := n + 1, cmds + [Append(Chain(None, RuleBase(ent)), rule, LogWord(ent.logmsg))];
      }
      if IsForward(ent) {
        n, cmds := n + 1, cmds + [Append(Chain(None, ForwardBase(ent)), rule, LogWord(ent.logmsg))];
      }
    }
  }

  /** The rule for the nat table, between commits and headings of tables in the restore back end. */
  method PrintNat(style: Style, ent: Entry, natrule: Text) returns (cmds: seq<Command>)
    requires natrule == NatText(ent) && IsNat(ent)
    ensures cmds == NatCommands(style, ent)
  {
    var natchain, nattarget := POSTROUTING, RedirectWord;
    if ent.direction == Some(Input) {
      natchain := PREROUTING;
    }
    match ent.target.value.target {
      case Masq => nattarget := MasqueradeWord;
      case _ =>
    }
    cmds := [NatAppend(Chain(ent.groupname, natchain), natrule, nattarget)];
    if style == Restore {
      cmds := [Commit, Table(true)] + cmds + [Commit, Table(false)];
    }
  }

  method PrintFilter(style: Style, lstate: bool, ent: Entry, t: Texts, needret: bool, ruletarget: TargetWord,
                     revtarget: TargetWord, fortarget: TargetWord, forrevtarget: TargetWord)
    returns (cmds: seq<Command>, n: nat)
    requires t.rule == ForwardText(ent) && t.rule_r == ReverseText(ent) && needret == WantsReverse(lstate, ent)
    requires ruletarget == RuleTarget(ent) && fortarget == ForwardTarget(style, ent)
    requires needret ==> revtarget == ReverseTarget(ent) && forrevtarget == ForwardReverseTarget(ent)
    ensures cmds == LocalCommands(lstate, ent) + ForwardCommands(style, lstate, ent) && n == |cmds|
  {
    cmds, n := [], 0;
    if IsLocal(ent) {
      n, cmds := n + 1, cmds + [Append(Chain(ent.groupname, RuleBase(ent)), t.rule, ruletarget)];
    }
    if needret {
      n, cmds := n + 1, cmds + [Insert(Chain(ent.groupname, ReverseBase(ent)), t.rule_r, revtarget)];
    }
    assert cmds == LocalCommands(lstate, ent);
    var fs: seq<Command> := [];
    if IsForward(ent) {
      n, fs := n + 1, fs + [Append(Chain(ent.groupname, ForwardBase(ent)), t.rule, fortarget)];
      if needret {
        n, fs := n + 1, fs + [Insert(Chain(ent.groupname, ForwardReverseBase(ent)), t.rule_r, forrevtarget)];
      }
    }
    assert fs == ForwardCommands(style, lstate, ent);
    cmds := cmds + fs;
  }

  /** `cb_iptables_rule_common` and `cb_iptrestore_rule_common`; `r` counts the rules printed. */
  method RuleCommon(style: Style, v6: bool, lstate: bool, ent: Entry, feat: set<nat>)
    returns (cmds: seq<Command>, r: int, feat': set<nat>)
    requires ent.target == Some(ToSubgroup) ==> ent.subgroup.Some?
    ensures if Unsupported(v6, ent) then r == -1
            else r == RuleCount(lstate, ent) && cmds == EntryCommands(style, lstate, ent)
                 && feat' == feat + Features(ent)
  {
    feat' := feat;
    if IsNat(ent) {
      if v6 {
        return [], -1, feat';
      }
      if ent.target == Some(Final(Masq)) && ent.direction == Some(Input) {
        return [], -1, feat';
      } else if ent.target == Some(Final(Redirect)) && ent.direction == Some(Output) {
        return [], -1, feat';
      }
    }
    if ent.direction.None? {
      return [], -1, feat';
    }
    cmds, r, feat' := PrintRules(style, lstate, ent, feat);
  }

  /** The part of the callback that builds and prints the rules. */
  method PrintRules(style: Style, lstate: bool, ent: Entry, feat: set<nat>)
    returns (cmds: seq<Command>, r: int, feat': set<nat>)
    requires (ent.target == Some(ToSubgroup) ==> ent.subgroup.Some?) && ent.direction.Some?
    ensures if ent.target.None? then r == -1
            else r == RuleCount(lstate, ent) && cmds == EntryCommands(style, lstate, ent)
                 && feat' == feat + Features(ent)
  {
    feat' := feat;
    var needret := ent.target == Some(ToSubgroup);
    var opt := if ent.direction == Some(Input) then InIface else OutIface;
    var opt_r := if ent.direction == Some(Input) then OutIface else InIface;
    var t;
    t, needret, feat' := BuildTexts(ent, opt, opt_r, needret, feat');
    cmds, r := PrintLog(ent, t.rule);
    if ent.target.None? {
      return [], -1, feat';
    }
    var ruletarget, revtarget, fortarget, forrevtarget;
    ruletarget, revtarget, fortarget, forrevtarget, needret := ChooseTargets(style, ent, needret);
    if ent.target == Some(Final(Reject)) {
      feat' := feat' + {2, A_TCP};
    }
    assert feat' == feat + Features(ent);
    if lstate && ent.target != Some(Final(Reject)) {
      needret := false;
    }
    if ent.oneway {
      needret := false;
    }
    if IsNat(ent) {
      var natcmds := PrintNat(style, ent, t.natrule);
      cmds, r := cmds + natcmds, r + 1;
    }
    var fs, n := PrintFilter(style, lstate, ent, t, needret, ruletarget, revtarget, fortarget, forrevtarget);
    assert cmds == LogCommands(ent) + NatCommands(style, ent);
    cmds, r := cmds + fs, r + n;
  }

  /** The commands that are rules. */
  function RulesAmong(cs: seq<Command>): nat {
    if cs == [] then 0 else (if cs[0].Append? || cs[0].Insert? || cs[0].NatAppend? then 1 else 0) + RulesAmong(cs[1..])
  }

  lemma {:induction false} RulesAmongAppend(cs: seq<Command>, ds: seq<Command>)
    ensures RulesAmong(cs + ds) == RulesAmong(cs) + RulesAmong(ds)
    decreases |cs|
  {
    if cs == [] {
      assert cs + ds == ds;
    } else {
      assert (cs + ds)[0] == cs[0] && (cs + ds)[1..] == cs[1..] + ds;
      RulesAmongAppend(cs[1..], ds);
    }
  }

  lemma {:induction false} AllAreRules(cs: seq<Command>)
    requires forall c | c in cs :: c.Append? || c.Insert?
    ensures RulesAmong(cs) == |cs|
    decreases |cs|
  {
    if cs != [] {
      assert cs[0] in cs;
      AllAreRules(cs[1..]);
    }
  }

  lemma FilterAreRules(style: Style, lstate: bool, e: Entry)
    ensures RulesAmong(LogCommands(e)) == |LogCommands(e)|
    ensures RulesAmong(LocalCommands(lstate, e)) == |LocalCommands(lstate, e)|
    ensures RulesAmong(ForwardCommands(style, lstate, e)) == |ForwardCommands(style, lstate, e)|
  {
    AllAreRules(LogCommands(e));
    AllAreRules(LocalCommands(lstate, e));
    AllAreRules(ForwardCommands(style, lstate, e));
  }

  lemma AsManyForwarded(style: Style, lstate: bool, e: Entry)
    ensures |ForwardCommands(style, lstate, e)| == |ForwardCommands(Restore, lstate, e)|
  {
  }

  /** The number the callback returns is that of the rules it prints, in either back end. */
  lemma CountsRules(style: Style, lstate: bool, e: Entry)
    ensures RuleCount(lstate, e) == RulesAmong(EntryCommands(style, lstate, e))
  {
    var l, n, f := LogCommands(e), NatCommands(style, e), LocalCommands(lstate, e);
    var w := ForwardCommands(style, lstate, e);
    RulesAmongAppend(l + n, f + w);
    RulesAmongAppend(l, n);
    RulesAmongAppend(f, w);
    FilterAreRules(style, lstate, e);
    AsManyForwarded(style, lstate, e);
    NatIsOneRule(style, e);
  }

  lemma RulesAmongOne(c: Command)
    ensures RulesAmong([c]) == if c.Append? || c.Insert? || c.NatAppend? then 1 else 0
  {
    assert [c][1..] == [];
  }

  lemma Between(a: Command, b: Command, c: Command)
    requires a.Commit? && b.Table? && c.Table?
    ensures forall d: Command :: d.NatAppend? ==> RulesAmong([a, b, d, a, c]) == 1
  {
    forall d: Command | d.NatAppend? ensures RulesAmong([a, b, d, a, c]) == 1 {
      assert [a, b, d, a, c] == [a] + ([b] + ([d] + ([a] + [c])));
      RulesAmongOne(a);
      RulesAmongOne(b);
      RulesAmongOne(c);
      RulesAmongOne(d);
      RulesAmongAppend([a], [b] + ([d] + ([a] + [c])));
      RulesAmongAppend([b], [d] + ([a] + [c]));
      RulesAmongAppend([d], [a] + [c]);
      RulesAmongAppend([a], [c]);
    }
  }

  lemma NatIsOneRule(style: Style, e: Entry)
    ensures RulesAmong(NatCommands(style, e)) == if IsNat(e) then 1 else 0
  {
    if IsNat(e) {
      RulesAmongOne(NatCommands(Iptables, e)[0]);
      Between(Commit, Table(true), Table(false));
    }
  }

  // ----- the script around the rules -----

  function InvalidText(): Text { StatesText({Invalid}) + [JumpOpt] }

  const INVALID_CHAIN := Chain(None, INVALID)

  function Skeleton(style: Style): seq<Command> {
    (if style == Iptables then [DropPolicy(INPUT), DropPolicy(OUTPUT), DropPolicy(FORWARD), Flush]
     else [Table(false), DropPolicy(INPUT), DropPolicy(OUTPUT), DropPolicy(FORWARD)])
    + [NewChain(Chain(None, FORW_OUT)),
       NewChain(INVALID_CHAIN),
       Append(INVALID_CHAIN, [JumpOpt], DropWord),
       Insert(Chain(None, INPUT), InvalidText(), ChainWord(INVALID_CHAIN)),
       Insert(Chain(None, OUTPUT), InvalidText(), ChainWord(INVALID_CHAIN)),
       Insert(Chain(None, FORWARD), InvalidText(), ChainWord(INVALID_CHAIN))]
  }

  function TcpStateText(): Text { [ProtoOpt, Word("tcp"), Bang, SynOpt] + StatesText({Established}) + [JumpOpt] }

  function UdpStateText(): Text { [ProtoOpt, Word("udp")] + StatesText({Established}) + [JumpOpt] }

  /** One rule inserted at the head of each built-in chain. */
  function InsertAll(rule: Text): seq<Command> {
    [Insert(Chain(None, INPUT), rule, AcceptWord), Insert(Chain(None, OUTPUT), rule, AcceptWord),
     Insert(Chain(None, FORWARD), rule, AcceptWord)]
  }

  /** The generic rules of light state mode, for the protocols whose feature bit is set. */
  function StateRules(lstate: bool, feat: set<nat>): seq<Command> {
    if !lstate then []
    else (if A_TCP in feat then InsertAll(TcpStateText()) else [])
         + (if A_UDP in feat then InsertAll(UdpStateText()) else [])
  }

  function AllFeatures(es: seq<Entry>): set<nat> {
    if es == [] then {} else Features(es[0]) + AllFeatures(es[1..])
  }

  function AllCommands(style: Style, lstate: bool, es: seq<Entry>): seq<Command> {
    if es == [] then [] else EntryCommands(style, lstate, es[0]) + AllCommands(style, lstate, es[1..])
  }

  function AnyUnsupported(v6: bool, es: seq<Entry>): bool {
    es != [] && (Unsupported(v6, es[0]) || AnyUnsupported(v6, es[1..]))
  }

  function Script(style: Style, skeleton: bool, lstate: bool, es: seq<Entry>): seq<Command> {
    (if skeleton then Skeleton(style) else [])
    + AllCommands(style, lstate, es)
    + (if skeleton then StateRules(lstate, AllFeatures(es)) else [])
    + (if style == Restore then [Commit] else [])
  }

  lemma RulesStep(style: Style, v6: bool, lstate: bool, es: seq<Entry>, i: nat, cmds: seq<Command>, feat: set<nat>)
    requires i < |es|
    ensures cmds + AllCommands(style, lstate, es[i..])
        == cmds + EntryCommands(style, lstate, es[i]) + AllCommands(style, lstate, es[i+1..])
    ensures feat + AllFeatures(es[i..]) == feat + Features(es[i]) + AllFeatures(es[i+1..])
    ensures AnyUnsupported(v6, es[i..]) <==> Unsupported(v6, es[i]) || AnyUnsupported(v6, es[i+1..])
  {
    assert es[i..][0] == es[i] && es[i..][1..] == es[i+1..];
    SeqAssoc(cmds, EntryCommands(style, lstate, es[i]), AllCommands(style, lstate, es[i+1..]));
  }

  lemma RulesEnds(style: Style, lstate: bool, es: seq<Entry>, cmds: seq<Command>)
    ensures es[0..] == es && es[|es|..] == []
    ensures [] + AllCommands(style, lstate, es) == AllCommands(style, lstate, es)
    ensures cmds + AllCommands(style, lstate, es[|es|..]) == cmds
  {
  }

  /** The calls of the rule callback that the walk makes, one per entry, up to the first failure. */
  method EmitRules(style: Style, v6: bool, lstate: bool, es: seq<Entry>)
    returns (ok: bool, cmds: seq<Command>, feat: set<nat>)
    requires forall e | e in es :: e.target == Some(ToSubgroup) ==> e.subgroup.Some?
    ensures ok <==> !AnyUnsupported(v6, es)
    ensures ok ==> cmds == AllCommands(style, lstate, es) && feat == AllFeatures(es)
  {
    cmds, feat := [], {};
    RulesEnds(style, lstate, es, cmds);
    for i := 0 to |es|
      invariant AllCommands(style, lstate, es) == cmds + AllCommands(style, lstate, es[i..])
      invariant AllFeatures(es) == feat + AllFeatures(es[i..])
      invariant AnyUnsupported(v6, es) <==> AnyUnsupported(v6, es[i..])
    {
      RulesStep(style, v6, lstate, es, i, cmds, feat);
      var cs;
      var r;
      cs, r, feat := RuleCommon(style, v6, lstate, es[i], feat);
      if r < 0 {
        return false, cmds, feat;
      }
      cmds := cmds + cs;
    }
    RulesEnds(style, lstate, es, cmds);
    ok := true;
  }

  /** `fg_iptables_common` and `fg_iptrestore_common`, given the entries the walk hands over. */
  method EmitScript(style: Style, v6: bool, skeleton: bool, lstate: bool, es: seq<Entry>)
    returns (ok: bool, cmds: seq<Command>)
    requires forall e | e in es :: e.target == Some(ToSubgroup) ==> e.subgroup.Some?
    ensures ok <==> !AnyUnsupported(v6, es)
    ensures ok ==> cmds == Script(style, skeleton, lstate, es)
  {
    cmds := if skeleton then Skeleton(style) else [];
    var rules, feat;
    ok, rules, feat := EmitRules(style, v6, lstate, es);
    if !ok {
      return;
    }
    cmds := cmds + rules;
    cmds := cmds + (if skeleton then StateRules(lstate, feat) else []);
    cmds := cmds + (if style == Restore then [Commit] else []);
  }
}
