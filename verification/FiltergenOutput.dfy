/** The filtergen back end, which writes the compiled rules in the source language again, and the
    proof that its output is a normal form: compiling it gives the same rules. */
module FiltergenOutput {
  import opened FilterSpec
  import opened FilterEntry
  import opened FilterGraph
  import opened FilterSyntax
  import opened FilterTree
  import opened FilterNegation
  import opened FilterPasses
  import opened SyntaxTokens
  import opened SyntaxParser
  import opened SyntaxForms
  import opened Readings
  import opened SyntaxReadings
  import opened CompiledRules
  import opened RoundTrip
  import RuleWalk

  // ----- the output -----

  function AddrToks(k: Keyword, a: Option<Addr>): seq<Tok> {
    if a.None? then [] else [Key(k)] + PrintHost(HostArg(a.value.addr, a.value.mask))
  }

  function PortToks(k: Keyword, p: Option<Ports>): seq<Tok> {
    if p.None? then [] else [Key(k)] + PrintPort(PortArg(p.value.min, p.value.max))
  }

  function TargetToks(t: Option<EntryTarget>): seq<Tok> {
    match t
    case Some(Final(Accept)) => [Key(ACCEPT)]
    case Some(Final(Drop)) => [Key(DROP)]
    case Some(Final(Reject)) => [Key(REJECT)]
    case _ => []
  }

  function ProtoToks(p: Option<Proto>): seq<Tok> {
    if p.None? then [] else [Key(PROTO), Bare(p.value.name)]
  }

  function IcmpToks(i: Option<string>): seq<Tok> {
    if i.None? then [] else [Key(ICMPTYPE), Bare(i.value)]
  }

  function LogToks(log: bool): seq<Tok> {
    if log then [Key(LOG)] else []
  }

  predicate Faced(e: Entry) { e.direction.Some? && e.iface.Some? }

  /** The words of one rule; arguments are printed without braces. */
  function RuleToks(e: Entry): seq<Tok>
    requires Faced(e)
  {
    [Key(if e.direction.value == Input then INPUT else OUTPUT), Bare(e.iface.value)]
    + AddrToks(SOURCE, e.src) + AddrToks(DEST, e.dst) + ProtoToks(e.proto) + PortToks(SPORT, e.sport)
        + PortToks(DPORT, e.dport)
    + IcmpToks(e.icmp) + LogToks(LogBit in e.whatsSet) + TargetToks(e.target) + [Semicolon]
  }

  method AppendAddr(k: Keyword, a: Option<Addr>, rule: seq<Tok>) returns (rule': seq<Tok>)
    ensures rule' == rule + AddrToks(k, a)
  {
    rule' := rule;
    if a.Some? {
      rule' := rule' + [Key(k), Bare(a.value.addr)];
      if a.value.mask.Some? {
        rule' := rule' + [Slash, Bare(a.value.mask.value)];
      }
    }
  }

  method AppendPorts(k: Keyword, p: Option<Ports>, rule: seq<Tok>) returns (rule': seq<Tok>)
    ensures rule' == rule + PortToks(k, p)
  {
    rule' := rule;
    if p.Some? {
      rule' := rule' + [Key(k), Bare(p.value.min)];
      if p.value.max.Some? {
        rule' := rule' + [Colon, Bare(p.value.max.value)];
      }
    }
  }

  /** `out_filtergen_rule`: the buffer grows field by field. */
  method OutRule(ent: Entry) returns (rule: seq<Tok>)
    requires Faced(ent)
    ensures rule == RuleToks(ent)
  {
    match ent.direction.value {
      case Input => rule := [Key(INPUT), Bare(ent.iface.value)];
      case Output => rule := [Key(OUTPUT), Bare(ent.iface.value)];
    }
    rule := AppendAddr(SOURCE, ent.src, rule);
    rule := AppendAddr(DEST, ent.dst, rule);
    rule := rule + ProtoToks(ent.proto);
    rule := AppendPorts(SPORT, ent.sport, rule);
    rule := AppendPorts(DPORT, ent.dport, rule);
    rule := rule + IcmpToks(ent.icmp);
    rule := rule + LogToks(LogBit in ent.whatsSet);
    rule := rule + TargetToks(ent.target);
    rule := rule + [Semicolon];
  }

  /** The whole output. */
  function FileToks(es: seq<Entry>): seq<Tok>
    requires forall e | e in es :: Faced(e)
  {
    if es == [] then [] else RuleToks(es[0]) + FileToks(es[1..])
  }

  // ----- the syntax tree the output is parsed as -----

  function AddrSpecs(source: bool, a: Option<Addr>): seq<Specifier> {
    if a.None? then [] else [HostArgs(source, SnocArg(NoArgs, HostArg(a.value.addr, a.value.mask)))]
  }

  function PortSpecs(source: bool, p: Option<Ports>): seq<Specifier> {
    if p.None? then [] else [PortArgs(source, SnocArg(NoArgs, PortArg(p.value.min, p.value.max)))]
  }

  function ProtoSpecs(p: Option<Proto>): seq<Specifier> {
    if p.None? then [] else [ProtocolArgs(SnocArg(NoArgs, p.value.name))]
  }

  function IcmpSpecs(i: Option<string>): seq<Specifier> {
    if i.None? then [] else [IcmpArgs(SnocArg(NoArgs, i.value))]
  }

  function LogSpecs(log: bool): seq<Specifier> {
    if log then [OptionArg(LogOption(None))] else []
  }

  function TargetSpecs(t: Option<EntryTarget>): seq<Specifier> {
    match t
    case Some(Final(Accept)) => [TargetArg(AcceptName)]
    case Some(Final(Drop)) => [TargetArg(DropName)]
    case Some(Final(Reject)) => [TargetArg(RejectName)]
    case _ => []
  }

  function RuleSpecs(e: Entry): seq<Specifier>
    requires Faced(e)
  {
    MatchSpecs(e) + PortSpecs(false, e.dport) + IcmpSpecs(e.icmp) + LogSpecs(LogBit in e.whatsSet)
        + TargetSpecs(e.target)
  }

  /** A specifier of one argument as this back end prints it. */
  function ShortToks(s: Specifier): seq<Tok> {
    match s
    case DirectionArgs(d, SnocArg(NoArgs, i)) => [Key(if d == Input then INPUT else OUTPUT), Bare(i)]
    case HostArgs(source, SnocArg(NoArgs, h)) => [Key(if source then SOURCE else DEST)] + PrintHost(h)
    case PortArgs(source, SnocArg(NoArgs, p)) => [Key(if source then SPORT else DPORT)] + PrintPort(p)
    case ProtocolArgs(SnocArg(NoArgs, n)) => [Key(PROTO), Bare(n)]
    case IcmpArgs(SnocArg(NoArgs, i)) => [Key(ICMPTYPE), Bare(i)]
    case OptionArg(LogOption(None)) => [Key(LOG)]
    case TargetArg(t) => [PrintTarget(t)]
    case _ => []
  }

  function Flat(ss: seq<Specifier>): seq<Tok> {
    if ss == [] then [] else ShortToks(ss[0]) + Flat(ss[1..])
  }

  lemma {:induction false} FlatAppend(ss: seq<Specifier>, tt: seq<Specifier>)
    ensures Flat(ss + tt) == Flat(ss) + Flat(tt)
    decreases |ss|
  {
    if ss == [] {
      assert ss + tt == tt;
    } else {
      assert (ss + tt)[0] == ss[0] && (ss + tt)[1..] == ss[1..] + tt;
      FlatAppend(ss[1..], tt);
      SeqAssoc(ShortToks(ss[0]), Flat(ss[1..]), Flat(tt));
    }
  }

  lemma FlatOne(s: Specifier)
    ensures Flat([s]) == ShortToks(s)
  {
    assert [s][1..] == [];
  }

  lemma FlatAddr(source: bool, a: Option<Addr>)
    ensures Flat(AddrSpecs(source, a)) == AddrToks(if source then SOURCE else DEST, a)
  {
    if a.Some? { FlatOne(AddrSpecs(source, a)[0]); }
  }

  lemma FlatPorts(source: bool, p: Option<Ports>)
    ensures Flat(PortSpecs(source, p)) == PortToks(if source then SPORT else DPORT, p)
  {
    if p.Some? { FlatOne(PortSpecs(source, p)[0]); }
  }

  lemma FlatWords(e: Entry)
    ensures Flat(ProtoSpecs(e.proto)) == ProtoToks(e.proto) && Flat(IcmpSpecs(e.icmp)) == IcmpToks(e.icmp)
    ensures Flat(LogSpecs(LogBit in e.whatsSet)) == LogToks(LogBit in e.whatsSet)
  {
    if e.proto.Some? { FlatOne(ProtoSpecs(e.proto)[0]); }
    if e.icmp.Some? { FlatOne(IcmpSpecs(e.icmp)[0]); }
    FlatOne(OptionArg(LogOption(None)));
  }

  lemma FlatTarget(t: Option<EntryTarget>)
    ensures Flat(TargetSpecs(t)) == TargetToks(t)
  {
    if TargetSpecs(t) != [] { FlatOne(TargetSpecs(t)[0]); }
  }

  function MatchSpecs(e: Entry): seq<Specifier>
    requires Faced(e)
  {
    [DirectionArgs(e.direction.value, SnocArg(NoArgs, e.iface.value))]
    + AddrSpecs(true, e.src) + AddrSpecs(false, e.dst) + ProtoSpecs(e.proto) + PortSpecs(true, e.sport)
  }

  lemma FlatMatch(e: Entry)
    requires Faced(e)
    ensures Flat(MatchSpecs(e))
         == [Key(if e.direction.value == Input then INPUT else OUTPUT), Bare(e.iface.value)]
            + AddrToks(SOURCE, e.src) + AddrToks(DEST, e.dst) + ProtoToks(e.proto) + PortToks(SPORT, e.sport)
  {
    var s0 := [DirectionArgs(e.direction.value, SnocArg(NoArgs, e.iface.value))];
    var s1 := s0 + AddrSpecs(true, e.src);
    var s2 := s1 + AddrSpecs(false, e.dst);
    var s3 := s2 + ProtoSpecs(e.proto);
    FlatOne(s0[0]);
    FlatAppend(s0, AddrSpecs(true, e.src));
    FlatAppend(s1, AddrSpecs(false, e.dst));
    FlatAppend(s2, ProtoSpecs(e.proto));
    FlatAppend(s3, PortSpecs(true, e.sport));
    FlatAddr(true, e.src);
    FlatAddr(false, e.dst);
    FlatPorts(true, e.sport);
    FlatWords(e);
  }

  lemma FlatRule(e: Entry)
    requires Faced(e)
    ensures RuleToks(e) == Flat(RuleSpecs(e)) + [Semicolon]
  {
    var s4 := MatchSpecs(e);
    var s5 := s4 + PortSpecs(false, e.dport);
    var s6 := s5 + IcmpSpecs(e.icmp);
    var s7 := s6 + LogSpecs(LogBit in e.whatsSet);
    FlatMatch(e);
    FlatAppend(s4, PortSpecs(false, e.dport));
    FlatAppend(s5, IcmpSpecs(e.icmp));
    FlatAppend(s6, LogSpecs(LogBit in e.whatsSet));
    FlatAppend(s7, TargetSpecs(e.target));
    FlatPorts(false, e.dport);
    FlatWords(e);
    FlatTarget(e.target);
  }

  // ----- parsing the output -----

  /** A specifier of one argument whose names can be printed bare; the interface may be a star. */
  predicate Short(s: Specifier) {
    match s
    case DirectionArgs(_, SnocArg(NoArgs, i)) => i == "*" || PlainName(i)
    case HostArgs(_, SnocArg(NoArgs, h)) => PlainHost(h)
    case PortArgs(_, SnocArg(NoArgs, p)) => PlainPort(p)
    case ProtocolArgs(SnocArg(NoArgs, n)) => PlainName(n)
    case IcmpArgs(SnocArg(NoArgs, i)) => PlainName(i)
    case OptionArg(LogOption(None)) => true
    case TargetArg(t) => t != ProxyName
    case _ => false
  }

  predicate AllShort(ss: seq<Specifier>) {
    ss != [] ==> Short(ss[0]) && AllShort(ss[1..])
  }

  /** What follows a specifier in the output: the next one, or the end of the rule. */
  predicate Ended(ts: seq<Tok>) {
    ts != [] && (ts[0] == Semicolon || (ts[0].Key? && ts[0].key != TEXT))
  }

  lemma OneArg<T(!new)>(p: ArgParser<T>, show: T -> seq<Tok>, plain: T -> bool, a: T, rest: seq<Tok>)
    requires Reads(p, show, plain) && plain(a) && Ended(rest) && p(rest) == NoArg
    ensures ParseList(p, show(a) + rest) == Done(SnocArg(NoArgs, a), rest)
    ensures ParseArgs(p, NoArgs, show(a) + rest) == Done(SnocArg(NoArgs, a), rest) && !At(show(a) + rest, LCurly)
  {
    ArgStep(p, show, plain, NoArgs, a, rest);
    assert show(a) != [] && show(a)[0] != LCurly && (show(a) + rest)[0] == show(a)[0];
  }

  lemma IfaceKeyword(d: Direction, l: Args<string>, ts: seq<Tok>, rest: seq<Tok>)
    requires ParseIfaces(ts) == Done(l, rest)
    ensures ParseSpecifier([Key(if d == Input then INPUT else OUTPUT)] + ts) == Done(DirectionArgs(d, l), rest)
  {
    var k := if d == Input then INPUT else OUTPUT;
    assert ([Key(k)] + ts)[0] == Key(k) && ([Key(k)] + ts)[1..] == ts;
  }

  lemma OneIface(i: string, rest: seq<Tok>)
    requires (i == "*" || PlainName(i)) && Ended(rest)
    ensures ParseIfaces([Bare(i)] + rest) == Done(SnocArg(NoArgs, i), rest)
  {
    if i == "*" {
      assert ([Star] + rest)[1..] == rest;
    } else {
      WordsRead();
      OneArg(WordArg, PrintWord, PlainName, i, rest);
      assert PrintWord(i) == [Bare(i)] && !At([Bare(i)] + rest, Star);
    }
  }

  lemma IfaceToks(d: Direction, i: string, rest: seq<Tok>)
    ensures ShortToks(DirectionArgs(d, SnocArg(NoArgs, i))) + rest
         == [Key(if d == Input then INPUT else OUTPUT)] + ([Bare(i)] + rest)
  {
  }

  lemma IfaceShort(d: Direction, i: string, rest: seq<Tok>)
    requires (i == "*" || PlainName(i)) && Ended(rest)
    ensures var s := DirectionArgs(d, SnocArg(NoArgs, i)); ParseSpecifier(ShortToks(s) + rest) == Done(s, rest)
  {
    OneIface(i, rest);
    IfaceToks(d, i, rest);
    IfaceKeyword(d, SnocArg(NoArgs, i), [Bare(i)] + rest, rest);
  }

  lemma HostShort(source: bool, h: HostArg, rest: seq<Tok>)
    requires PlainHost(h) && Ended(rest)
    ensures var s := HostArgs(source, SnocArg(NoArgs, h)); ParseSpecifier(ShortToks(s) + rest) == Done(s, rest)
  {
    var k := if source then SOURCE else DEST;
    var ts := [Key(k)] + PrintHost(h) + rest;
    assert ts[0] == Key(k) && ts[1..] == PrintHost(h) + rest;
    HostsRead();
    OneArg(HostAt, PrintHost, PlainHost, h, rest);
  }

  lemma PortShort(source: bool, p: PortArg, rest: seq<Tok>)
    requires PlainPort(p) && Ended(rest)
    ensures var s := PortArgs(source, SnocArg(NoArgs, p)); ParseSpecifier(ShortToks(s) + rest) == Done(s, rest)
  {
    var k := if source then SPORT else DPORT;
    var ts := [Key(k)] + PrintPort(p) + rest;
    assert ts[0] == Key(k) && ts[1..] == PrintPort(p) + rest;
    PortsRead();
    OneArg(PortAt, PrintPort, PlainPort, p, rest);
  }

  lemma ProtoShort(n: string, rest: seq<Tok>)
    requires PlainName(n) && Ended(rest)
    ensures var s := ProtocolArgs(SnocArg(NoArgs, n)); ParseSpecifier(ShortToks(s) + rest) == Done(s, rest)
  {
    var ts := [Key(PROTO), Bare(n)] + rest;
    assert ts[0] == Key(PROTO) && ts[1..] == PrintWord(n) + rest;
    WordsRead();
    OneArg(WordArg, PrintWord, PlainName, n, rest);
  }

  lemma IcmpShort(i: string, rest: seq<Tok>)
    requires PlainName(i) && Ended(rest)
    ensures var s := IcmpArgs(SnocArg(NoArgs, i)); ParseSpecifier(ShortToks(s) + rest) == Done(s, rest)
  {
    var ts := [Key(ICMPTYPE), Bare(i)] + rest;
    assert ts[0] == Key(ICMPTYPE) && ts[1..] == PrintWord(i) + rest;
    WordsRead();
    OneArg(WordArg, PrintWord, PlainName, i, rest);
  }

  lemma ShortBack(s: Specifier, rest: seq<Tok>)
    requires Short(s) && Ended(rest)
    ensures ParseSpecifier(ShortToks(s) + rest) == Done(s, rest)
  {
    match s
    case DirectionArgs(d, SnocArg(NoArgs, i)) => IfaceShort(d, i, rest);
    case HostArgs(source, SnocArg(NoArgs, h)) => HostShort(source, h, rest);
    case PortArgs(source, SnocArg(NoArgs, p)) => PortShort(source, p, rest);
    case ProtocolArgs(SnocArg(NoArgs, n)) => ProtoShort(n, rest);
    case IcmpArgs(SnocArg(NoArgs, i)) => IcmpShort(i, rest);
    case OptionArg(LogOption(None)) =>
      assert [Key(LOG)] + rest == PrintOption(LogOption(None)) + rest; OptionBack(LogOption(None), rest);
    case TargetArg(t) => TargetBack(t, rest);
  }

  lemma ShortBegins(s: Specifier, rest: seq<Tok>)
    requires Short(s)
    ensures var ts := ShortToks(s) + rest; Ended(ts) && Begins(ts) && !At(ts, Bang)
  {
    assert ShortToks(s) != [] && (ShortToks(s) + rest)[0] == ShortToks(s)[0];
  }

  function Onto(acc: Specifiers, ss: seq<Specifier>): Specifiers
    decreases |ss|
  {
    if ss == [] then acc else Onto(SnocSpecifier(acc, Negated(false, ss[0])), ss[1..])
  }

  lemma {:induction false} ShortsBack(acc: Specifiers, ss: seq<Specifier>, rest: seq<Tok>)
    requires AllShort(ss) && At(rest, Semicolon)
    ensures ParseSpecifiers(acc, Flat(ss) + rest) == Done(Onto(acc, ss), rest)
    ensures Ended(Flat(ss) + rest)
    decreases |ss|
  {
    if ss == [] {
      assert [] + rest == rest;
    } else {
      var more := Flat(ss[1..]) + rest;
      SeqAssoc(ShortToks(ss[0]), Flat(ss[1..]), rest);
      ShortsBack(SnocSpecifier(acc, Negated(false, ss[0])), ss[1..], rest);
      ShortBack(ss[0], more);
      ShortBegins(ss[0], more);
    }
  }

  /** The names of an entry can be printed bare. */
  predicate Speakable(e: Entry) {
    && Faced(e) && (e.iface.value == "*" || PlainName(e.iface.value))
    && (e.src.Some? ==> PlainHost(HostArg(e.src.value.addr, e.src.value.mask)))
    && (e.dst.Some? ==> PlainHost(HostArg(e.dst.value.addr, e.dst.value.mask)))
    && (e.sport.Some? ==> PlainPort(PortArg(e.sport.value.min, e.sport.value.max)))
    && (e.dport.Some? ==> PlainPort(PortArg(e.dport.value.min, e.dport.value.max)))
    && (e.proto.Some? ==> PlainName(e.proto.value.name))
    && (e.icmp.Some? ==> PlainName(e.icmp.value))
  }

  lemma {:induction false} ShortAppend(ss: seq<Specifier>, tt: seq<Specifier>)
    requires AllShort(ss) && AllShort(tt)
    ensures AllShort(ss + tt)
    decreases |ss|
  {
    if ss == [] {
      assert ss + tt == tt;
    } else {
      assert (ss + tt)[0] == ss[0] && (ss + tt)[1..] == ss[1..] + tt;
      ShortAppend(ss[1..], tt);
    }
  }

  lemma RuleShort(e: Entry)
    requires Speakable(e)
    ensures AllShort(RuleSpecs(e))
  {
    var s0 := [DirectionArgs(e.direction.value, SnocArg(NoArgs, e.iface.value))];
    var s1 := s0 + AddrSpecs(true, e.src);
    var s2 := s1 + AddrSpecs(false, e.dst);
    var s3 := s2 + ProtoSpecs(e.proto);
    var s4 := s3 + PortSpecs(true, e.sport);
    var s5 := s4 + PortSpecs(false, e.dport);
    var s6 := s5 + IcmpSpecs(e.icmp);
    var s7 := s6 + LogSpecs(LogBit in e.whatsSet);
    ShortAppend(s0, AddrSpecs(true, e.src));
    ShortAppend(s1, AddrSpecs(false, e.dst));
    ShortAppend(s2, ProtoSpecs(e.proto));
    ShortAppend(s3, PortSpecs(true, e.sport));
    ShortAppend(s4, PortSpecs(false, e.dport));
    ShortAppend(s5, IcmpSpecs(e.icmp));
    ShortAppend(s6, LogSpecs(LogBit in e.whatsSet));
    ShortAppend(s7, TargetSpecs(e.target));
  }

  function RuleTree(e: Entry): Specifiers
    requires Faced(e)
  {
    Onto(NoSpecifiers, RuleSpecs(e))
  }

  function FileTree(acc: RuleList, es: seq<Entry>): RuleList
    requires forall e | e in es :: Faced(e)
    decreases |es|
  {
    if es == [] then acc else FileTree(SnocRule(acc, RuleTree(es[0])), es[1..])
  }

  /** The output parses, rule by rule. */
  lemma {:induction false} FileParses(acc: RuleList, es: seq<Entry>)
    requires forall e | e in es :: Speakable(e) && Faced(e)
    ensures ParseRules(acc, FileToks(es)) == Done(FileTree(acc, es), [])
    decreases |es|
  {
    if es != [] {
      var e := es[0];
      assert e in es;
      var rest := [Semicolon] + FileToks(es[1..]);
      FlatRule(e);
      SeqAssoc(Flat(RuleSpecs(e)), [Semicolon], FileToks(es[1..]));
      RuleShort(e);
      ShortsBack(NoSpecifiers, RuleSpecs(e), rest);
      assert rest[1..] == FileToks(es[1..]);
      FileParses(SnocRule(acc, RuleTree(e)), es[1..]);
    }
  }

  // ----- what the output says -----

  /** The leaf that a specifier of one argument becomes. */
  function SpecOf(s: Specifier, k: Lookup): Option<Spec> {
    match s
    case DirectionArgs(d, SnocArg(NoArgs, i)) => IfaceLeaf(d)(i)
    case HostArgs(source, SnocArg(NoArgs, h)) => HostLeaf(k, source)(h)
    case PortArgs(source, SnocArg(NoArgs, p)) => PortLeaf(k, source)(p)
    case ProtocolArgs(SnocArg(NoArgs, n)) => ProtoLeaf(k)(n)
    case IcmpArgs(SnocArg(NoArgs, i)) => IcmpLeaf()(i)
    case OptionArg(o) => Some(OptionOf(o))
    case TargetArg(t) => Some(TargetSpec(TargetOf(t)))
    case _ => None
  }

  lemma ShortReads(s: Specifier, k: Lookup)
    requires SpecOf(s, k).Some?
    ensures PrunedSpecifier(s, k) == s && SpecifierReading(s, k, false) == Some([[Literal(SpecOf(s, k).value, false)]])
  {
    match s
    case DirectionArgs(d, SnocArg(NoArgs, i)) => OneArgReads(i, IfaceLeaf(d));
    case HostArgs(source, SnocArg(NoArgs, h)) => OneArgReads(h, HostLeaf(k, source));
    case PortArgs(source, SnocArg(NoArgs, p)) => OneArgReads(p, PortLeaf(k, source));
    case ProtocolArgs(SnocArg(NoArgs, n)) => OneArgReads(n, ProtoLeaf(k));
    case IcmpArgs(SnocArg(NoArgs, i)) => OneArgReads(i, IcmpLeaf());
    case OptionArg(_) =>
    case TargetArg(_) =>
  }

  lemma OneArgReads<T>(a: T, leaf: T -> Option<Spec>)
    ensures ArgsReading(SnocArg(NoArgs, a), leaf, false) == One(leaf(a), false)
    ensures PrunedArgs(SnocArg(NoArgs, a), leaf) == SnocArg(NoArgs, a)
  {
    assert ArgsReading<T>(NoArgs, leaf, false).None?;
  }

  /** The alternative that a list of specifiers of one argument is. */
  function Literals(ss: seq<Specifier>, k: Lookup): Option<Alternative> {
    if ss == [] then Some([])
    else
      match (SpecOf(ss[0], k), Literals(ss[1..], k))
      case (Some(s), Some(a)) => Some([Literal(s, false)] + a)
      case _ => None
  }

  lemma {:induction false} LiteralsAppend(ss: seq<Specifier>, tt: seq<Specifier>, k: Lookup)
    requires Literals(ss, k).Some? && Literals(tt, k).Some?
    ensures Literals(ss + tt, k) == Some(Literals(ss, k).value + Literals(tt, k).value)
    decreases |ss|
  {
    if ss == [] {
      assert ss + tt == tt;
      assert [] + Literals(tt, k).value == Literals(tt, k).value;
    } else {
      assert (ss + tt)[0] == ss[0] && (ss + tt)[1..] == ss[1..] + tt;
      LiteralsAppend(ss[1..], tt, k);
      SeqAssoc([Literal(SpecOf(ss[0], k).value, false)], Literals(ss[1..], k).value, Literals(tt, k).value);
    }
  }

  lemma {:induction false} OntoReads(acc: Specifiers, a: Alternative, ss: seq<Specifier>, k: Lookup)
    requires PrunedSpecifiers(acc, k) == acc && SpecifiersReading(acc, k, false) == Some([a]) && Literals(ss, k).Some?
    ensures PrunedSpecifiers(Onto(acc, ss), k) == Onto(acc, ss)
    ensures SpecifiersReading(Onto(acc, ss), k, false) == Some([a + Literals(ss, k).value])
    decreases |ss|
  {
    if ss == [] {
      assert a + [] == a;
    } else {
      var l := Literal(SpecOf(ss[0], k).value, false);
      var next := SnocSpecifier(acc, Negated(false, ss[0]));
      ShortReads(ss[0], k);
      CrossOfOne(a, [l]);
      OntoReads(next, a + [l], ss[1..], k);
      SeqAssoc(a, [l], Literals(ss[1..], k).value);
    }
  }

  lemma CrossOfOne<T>(p: seq<T>, q: seq<T>)
    ensures Cross([p], [q]) == [p + q]
  {
    assert Cross([p], [q]) == Prefix(p, [q]) + Cross([], [q]);
  }

  /** The words are looked up to what they stand for. */
  predicate Settled(e: Entry, k: Lookup) {
    && (e.src.Some? ==> k.addr(HostArg(e.src.value.addr, e.src.value.mask)) == e.src)
    && (e.dst.Some? ==> k.addr(HostArg(e.dst.value.addr, e.dst.value.mask)) == e.dst)
    && (e.sport.Some? ==> k.ports(PortArg(e.sport.value.min, e.sport.value.max)) == e.sport.value)
    && (e.dport.Some? ==> k.ports(PortArg(e.dport.value.min, e.dport.value.max)) == e.dport.value)
    && (e.proto.Some? ==> k.proto(e.proto.value.name) == e.proto)
  }

  function Lit(s: Spec): Literal { Literal(s, false) }

  function MatchLiterals(e: Entry): Alternative
    requires Faced(e)
  {
    [Lit(DirectionSpec(e.direction.value, e.iface.value))]
    + (if e.src.Some? then [Lit(SourceSpec(e.src.value))] else [])
    + (if e.dst.Some? then [Lit(DestSpec(e.dst.value))] else [])
    + (if e.proto.Some? then [Lit(ProtoSpec(e.proto.value))] else [])
    + (if e.sport.Some? then [Lit(SportSpec(e.sport.value))] else [])
  }

  /** The target that is printed. */
  function Printed(t: Option<EntryTarget>): Option<Target> {
    match t
    case Some(Final(Accept)) => Some(Accept)
    case Some(Final(Drop)) => Some(Drop)
    case Some(Final(Reject)) => Some(Reject)
    case _ => None
  }

  function RuleLiterals(e: Entry): Alternative
    requires Faced(e)
  {
    MatchLiterals(e)
    + (if e.dport.Some? then [Lit(DportSpec(e.dport.value))] else [])
    + (if e.icmp.Some? then [Lit(IcmpSpec(e.icmp.value))] else [])
    + (if LogBit in e.whatsSet then [Lit(LogSpec(None))] else [])
    + (if Printed(e.target).Some? then [Lit(TargetSpec(Printed(e.target).value))] else [])
  }

  lemma LiteralsOne(s: Specifier, k: Lookup)
    requires SpecOf(s, k).Some?
    ensures Literals([s], k) == Some([Lit(SpecOf(s, k).value)])
  {
    assert [s][1..] == [];
    assert [Lit(SpecOf(s, k).value)] + [] == [Lit(SpecOf(s, k).value)];
  }

  lemma PartLiterals(e: Entry, k: Lookup)
    requires Settled(e, k)
    ensures Literals(AddrSpecs(true, e.src), k) == Some(if e.src.Some? then [Lit(SourceSpec(e.src.value))] else [])
    ensures Literals(AddrSpecs(false, e.dst), k) == Some(if e.dst.Some? then [Lit(DestSpec(e.dst.value))] else [])
    ensures Literals(ProtoSpecs(e.proto), k) == Some(if e.proto.Some? then [Lit(ProtoSpec(e.proto.value))] else [])
    ensures Literals(PortSpecs(true, e.sport), k) == Some(if e.sport.Some? then [Lit(SportSpec(e.sport.value))] else [])
  {
    if e.src.Some? { LiteralsOne(AddrSpecs(true, e.src)[0], k); }
    if e.dst.Some? { LiteralsOne(AddrSpecs(false, e.dst)[0], k); }
    if e.proto.Some? { LiteralsOne(ProtoSpecs(e.proto)[0], k); }
    if e.sport.Some? { LiteralsOne(PortSpecs(true, e.sport)[0], k); }
  }

  lemma OtherLiterals(e: Entry, k: Lookup)
    requires Settled(e, k)
    ensures Literals(PortSpecs(false, e.dport), k)
        == Some(if e.dport.Some? then [Lit(DportSpec(e.dport.value))] else [])
    ensures Literals(IcmpSpecs(e.icmp), k) == Some(if e.icmp.Some? then [Lit(IcmpSpec(e.icmp.value))] else [])
    ensures Literals(LogSpecs(LogBit in e.whatsSet), k)
        == Some(if LogBit in e.whatsSet then [Lit(LogSpec(None))] else [])
    ensures Literals(TargetSpecs(e.target), k)
        == Some(if Printed(e.target).Some? then [Lit(TargetSpec(Printed(e.target).value))] else [])
  {
    if e.dport.Some? { LiteralsOne(PortSpecs(false, e.dport)[0], k); }
    if e.icmp.Some? { LiteralsOne(IcmpSpecs(e.icmp)[0], k); }
    LiteralsOne(OptionArg(LogOption(None)), k);
    if TargetSpecs(e.target) != [] { LiteralsOne(TargetSpecs(e.target)[0], k); }
  }

  lemma MatchReads(e: Entry, k: Lookup)
    requires Faced(e) && Settled(e, k)
    ensures Literals(MatchSpecs(e), k) == Some(MatchLiterals(e))
  {
    var s0 := [DirectionArgs(e.direction.value, SnocArg(NoArgs, e.iface.value))];
    var s1 := s0 + AddrSpecs(true, e.src);
    var s2 := s1 + AddrSpecs(false, e.dst);
    var s3 := s2 + ProtoSpecs(e.proto);
    LiteralsOne(s0[0], k);
    PartLiterals(e, k);
    LiteralsAppend(s0, AddrSpecs(true, e.src), k);
    LiteralsAppend(s1, AddrSpecs(false, e.dst), k);
    LiteralsAppend(s2, ProtoSpecs(e.proto), k);
    LiteralsAppend(s3, PortSpecs(true, e.sport), k);
  }

  lemma SpecsRead(e: Entry, k: Lookup)
    requires Faced(e) && Settled(e, k)
    ensures Literals(RuleSpecs(e), k) == Some(RuleLiterals(e))
  {
    var s4 := MatchSpecs(e);
    var s5 := s4 + PortSpecs(false, e.dport);
    var s6 := s5 + IcmpSpecs(e.icmp);
    var s7 := s6 + LogSpecs(LogBit in e.whatsSet);
    MatchReads(e, k);
    OtherLiterals(e, k);
    LiteralsAppend(s4, PortSpecs(false, e.dport), k);
    LiteralsAppend(s5, IcmpSpecs(e.icmp), k);
    LiteralsAppend(s6, LogSpecs(LogBit in e.whatsSet), k);
    LiteralsAppend(s7, TargetSpecs(e.target), k);
  }

  /** The parsed rule has one alternative, the literals of the entry. */
  lemma RuleReads(e: Entry, k: Lookup)
    requires Faced(e) && Settled(e, k)
    ensures PrunedSpecifiers(RuleTree(e), k) == RuleTree(e)
    ensures SpecifiersReading(RuleTree(e), k, false) == Some([RuleLiterals(e)])
  {
    var ss := RuleSpecs(e);
    SpecsRead(e, k);
    var first := SnocSpecifier(NoSpecifiers, Negated(false, ss[0]));
    ShortReads(ss[0], k);
    assert SpecifiersReading(NoSpecifiers, k, false).None?;
    OntoReads(first, [Lit(SpecOf(ss[0], k).value)], ss[1..], k);
  }

  // ----- recompiling gives the same entries -----

  lemma {:induction false} FoldAppend(e: Entry, a: Alternative, b: Alternative)
    ensures Fold(e, a + b) == match Fold(e, a) case None => None case Some(d) => Fold(d, b)
    decreases |a|
  {
    if a == [] {
      assert a + b == b;
    } else {
      assert (a + b)[0] == a[0] && (a + b)[1..] == a[1..] + b;
      if ApplyLiteral(e, a[0]).Some? {
        FoldAppend(ApplyLiteral(e, a[0]).value, a[1..], b);
      }
    }
  }

  lemma FoldOne(e: Entry, l: Literal)
    ensures Fold(e, [l]) == ApplyLiteral(e, l)
  {
    assert [l][1..] == [];
    if ApplyLiteral(e, l).Some? {
      assert Fold(ApplyLiteral(e, l).value, []) == ApplyLiteral(e, l);
    }
  }

  /** The entry so far, once the matches up to the source port have been given. */
  function MatchEntry(e: Entry): Entry {
    EMPTY.(whatsSet := {DirectionBit}, direction := e.direction, iface := e.iface, src := e.src, dst := e.dst,
           proto := e.proto, sport := e.sport)
  }

  lemma MatchFolds(e: Entry)
    requires Faced(e)
    ensures Fold(EMPTY, MatchLiterals(e)) == Some(MatchEntry(e))
  {
    var e0 := EMPTY.(whatsSet := {DirectionBit}, direction := e.direction, iface := e.iface);
    var e1 := e0.(src := e.src);
    var e2 := e1.(dst := e.dst);
    var e3 := e2.(proto := e.proto);
    var l0 := Lit(DirectionSpec(e.direction.value, e.iface.value));
    var a1 := if e.src.Some? then [Lit(SourceSpec(e.src.value))] else [];
    var a2 := if e.dst.Some? then [Lit(DestSpec(e.dst.value))] else [];
    var a3 := if e.proto.Some? then [Lit(ProtoSpec(e.proto.value))] else [];
    var a4 := if e.sport.Some? then [Lit(SportSpec(e.sport.value))] else [];
    FoldOne(EMPTY, l0);
    assert EMPTY.whatsSet + {DirectionBit} == {DirectionBit};
    FoldAppend(EMPTY, [l0], a1);
    if e.src.Some? { FoldOne(e0, a1[0]); }
    FoldAppend(EMPTY, [l0] + a1, a2);
    if e.dst.Some? { FoldOne(e1, a2[0]); }
    FoldAppend(EMPTY, [l0] + a1 + a2, a3);
    if e.proto.Some? { FoldOne(e2, a3[0]); }
    FoldAppend(EMPTY, [l0] + a1 + a2 + a3, a4);
    if e.sport.Some? { FoldOne(e3, a4[0]); }
  }

  /** The entry that the output of `e` is compiled to, before the defaults. */
  function Recompiled(e: Entry): Entry {
    var t := Printed(e.target);
    MatchEntry(e).(dport := e.dport, icmp := e.icmp,
                   whatsSet := {DirectionBit} + (if LogBit in e.whatsSet then {LogBit} else {})
                       + (if t.Some? then {TargetBit} else {}),
                   target := if t.Some? then Some(Final(t.value)) else None)
  }

  lemma RuleFolds(e: Entry)
    requires Faced(e)
    ensures Fold(EMPTY, RuleLiterals(e)) == if IsRange(e.sport) && e.dport.Some? then None else Some(Recompiled(e))
  {
    var e4 := MatchEntry(e);
    var e5 := e4.(dport := e.dport);
    var e6 := e5.(icmp := e.icmp);
    var e7 := e6.(whatsSet := {DirectionBit} + (if LogBit in e.whatsSet then {LogBit} else {}));
    var a4 := MatchLiterals(e);
    var a5 := if e.dport.Some? then [Lit(DportSpec(e.dport.value))] else [];
    var a6 := if e.icmp.Some? then [Lit(IcmpSpec(e.icmp.value))] else [];
    var a7 := if LogBit in e.whatsSet then [Lit(LogSpec(None))] else [];
    var t := Printed(e.target);
    var a8 := if t.Some? then [Lit(TargetSpec(t.value))] else [];
    MatchFolds(e);
    FoldAppend(EMPTY, a4, a5);
    FoldAppend(EMPTY, a4 + a5, a6);
    FoldAppend(EMPTY, a4 + a5 + a6, a7);
    FoldAppend(EMPTY, a4 + a5 + a6 + a7, a8);
    if e.dport.Some? { FoldOne(e4, a5[0]); }
    if !(IsRange(e.sport) && e.dport.Some?) {
      if e.icmp.Some? { FoldOne(e5, a6[0]); }
      assert Fold(e5, a6) == Some(e6);
      if LogBit in e.whatsSet { FoldOne(e6, a7[0]); }
      assert e7.whatsSet == if LogBit in e.whatsSet then e6.whatsSet + {LogBit} else e6.whatsSet;
      assert Fold(e6, a7) == Some(e7);
      if t.Some? { FoldOne(e7, a8[0]); }
      assert Recompiled(e).whatsSet == if t.Some? then e7.whatsSet + {TargetBit} else e7.whatsSet;
      assert Fold(e7, a8) == Some(Recompiled(e));
    }
  }

  /** What every entry handed to the rule callback without groups is: it has passed `checkmatch`,
      and its marks are those the walk sets. */
  predicate Handed(e: Entry) {
    && e.groupname.None? && e.subgroup.None? && Complete(e) && e.target.value.Final?
    && e.whatsSet == {DirectionBit, TargetBit} + (if LogBit in e.whatsSet then {LogBit} else {})
  }

  /** Nothing of the entry is lost in the output: no negation, NAT, log text, `oneway` mark or routing
      option other than the default, and no source port range next to a destination port. */
  predicate Normal(e: Entry, fl: Flags) {
    && e.negated == {} && Printed(e.target).Some? && e.logmsg.None? && !e.oneway
    && e.rtype == Defaults(EMPTY, fl).rtype
    && !(IsRange(e.sport) && e.dport.Some?)
  }

  /** Compiling the output of one rule gives the rule back exactly when it is normal. */
  lemma RuleIsFixed(e: Entry, fl: Flags)
    requires Handed(e)
    ensures EntryOf(EMPTY, RuleLiterals(e), fl) == Some(e) <==> Normal(e, fl)
  {
    RuleFolds(e);
    if !(IsRange(e.sport) && e.dport.Some?) {
      var d := Defaults(Recompiled(e), fl);
      RecompiledIs(e, fl);
    }
  }

  lemma RecompiledIs(e: Entry, fl: Flags)
    requires Handed(e)
    ensures Defaults(Recompiled(e), fl) == e
       <==> e.negated == {} && Printed(e.target).Some? && e.logmsg.None? && !e.oneway
            && e.rtype == Defaults(EMPTY, fl).rtype
  {
    var d := Defaults(Recompiled(e), fl);
    if Printed(e.target).Some? {
      assert d.whatsSet == e.whatsSet;
    }
  }

  function AllLiterals(es: seq<Entry>): seq<Alternative>
    requires forall e | e in es :: Faced(e)
  {
    if es == [] then [] else [RuleLiterals(es[0])] + AllLiterals(es[1..])
  }

  lemma {:induction false} FileReads(acc: RuleList, es: seq<Entry>, k: Lookup)
    requires (forall e | e in es :: Faced(e) && Settled(e, k)) && Pruned(acc, k) == acc
    ensures Pruned(FileTree(acc, es), k) == FileTree(acc, es)
    ensures RulesReading(FileTree(acc, es), k) == RulesReading(acc, k) + AllLiterals(es)
    decreases |es|
  {
    if es == [] {
      assert RulesReading(acc, k) + [] == RulesReading(acc, k);
    } else {
      assert es[0] in es;
      RuleReads(es[0], k);
      FileReads(SnocRule(acc, RuleTree(es[0])), es[1..], k);
      SeqAssoc(RulesReading(acc, k), [RuleLiterals(es[0])], AllLiterals(es[1..]));
    }
  }

  lemma {:induction false} FirstOfOnto(acc: Specifiers, ss: seq<Specifier>)
    requires acc.SnocSpecifier?
    ensures Onto(acc, ss).SnocSpecifier? && FirstSpecifier(Onto(acc, ss)) == FirstSpecifier(acc)
    decreases |ss|
  {
    if ss != [] {
      FirstOfOnto(SnocSpecifier(acc, Negated(false, ss[0])), ss[1..]);
    }
  }

  /** No rule of the output starts with its target, so none is lost. */
  lemma {:induction false} FileKept(acc: RuleList, es: seq<Entry>, k: Lookup)
    requires (forall e | e in es :: Faced(e)) && !AnyLeadsWithTarget(acc, k)
    ensures !AnyLeadsWithTarget(FileTree(acc, es), k)
    decreases |es|
  {
    if es != [] {
      var e := es[0];
      assert e in es;
      var ss := RuleSpecs(e);
      FirstOfOnto(SnocSpecifier(NoSpecifiers, Negated(false, ss[0])), ss[1..]);
      FileKept(SnocRule(acc, RuleTree(e)), es[1..], k);
    }
  }

  lemma {:induction false} AllFixed(es: seq<Entry>, fl: Flags)
    requires forall e | e in es :: Faced(e) && Handed(e)
    ensures Entries(EMPTY, AllLiterals(es), fl) == Some(es) <==> forall e | e in es :: Normal(e, fl)
  {
    if es != [] {
      var e, rest := es[0], es[1..];
      assert e in es;
      RuleIsFixed(e, fl);
      AllFixed(rest, fl);
      assert es == [e] + rest;
      assert AllLiterals(es)[1..] == AllLiterals(rest);
      var r := Entries(EMPTY, AllLiterals(rest), fl);
      if r.Some? && EntryOf(EMPTY, RuleLiterals(e), fl).Some? {
        var d := EntryOf(EMPTY, RuleLiterals(e), fl).value;
        assert Entries(EMPTY, AllLiterals(es), fl) == Some([d] + r.value);
        assert [d] + r.value == [e] + rest <==> d == e && r.value == rest by {
          assert ([d] + r.value)[0] == d && ([d] + r.value)[1..] == r.value && ([e] + rest)[0] == e
              && ([e] + rest)[1..] == rest;
        }
      }
      assert (forall x | x in es :: Normal(x, fl)) <==> Normal(e, fl) && forall x | x in rest :: Normal(x, fl);
    }
  }

  /** The output parses as the rules it is made of, nothing of which is dropped, lost or refused; and
      compiling it gives the same entries in the same order exactly when every entry is normal. */
  lemma {:induction false} NormalForm(es: seq<Entry>, k: Lookup, fl: Flags, n: nat)
    requires forall e | e in es :: Faced(e) && Handed(e) && Speakable(e) && Settled(e, k)
    ensures Parse(FileToks(es)) == Done(FileTree(NoRules, es), [])
    ensures Expandable(FileTree(NoRules, es), k, n) && !Refused(FileTree(NoRules, es), k, n)
    ensures Compiled(FileTree(NoRules, es), k) == AllLiterals(es)
    ensures Entries(EMPTY, Compiled(FileTree(NoRules, es), k), fl) == Some(es) <==> forall e | e in es :: Normal(e, fl)
  {
    FileParses(NoRules, es);
    FileReads(NoRules, es, k);
    FileKept(NoRules, es, k);
    FilePeaceful(NoRules, es, k, n);
    AllFixed(es, fl);
    assert [] + AllLiterals(es) == AllLiterals(es);
    KeptAll(FileTree(NoRules, es), k);
  }

  lemma KeptAll(l: RuleList, k: Lookup)
    requires !AnyLeadsWithTarget(l, k)
    ensures KeptRules(l, k) == l
  {
  }

  // ----- the output can be compiled -----

  /** No negations and no groups. */
  ghost predicate Peaceful<N>(t: TreeOf<N>) {
    t.Cons? ==> !t.kind.NegKind? && !t.kind.SubgroupKind? && Peaceful(t.inner) && Peaceful(t.child) && Peaceful(t.next)
  }

  lemma {:induction false} PeacefulExpands<N>(t: TreeOf<N>)
    requires Peaceful(t)
    ensures !Fails(t, false) && Unshared(t, false) && GroupFree(t) && Ungroup(t) == t
  {
    if t.Cons? {
      PeacefulExpands(t.inner);
      PeacefulExpands(t.child);
      PeacefulExpands(t.next);
    }
  }

  lemma {:induction false} PeacefulJoin(f: Form, g: Form)
    requires Peaceful(f) && Peaceful(g)
    ensures Peaceful(JoinNext(f, g)) && Peaceful(Concat(f, g))
  {
    if f.Cons? {
      PeacefulJoin(f.next, g);
      PeacefulJoin(f.child, g);
    }
  }

  lemma {:induction false} PeacefulArgs<T>(l: Args<T>, leaf: T -> Option<Spec>)
    ensures Peaceful(ArgsForm(l, leaf))
  {
    if l.SnocArg? {
      PeacefulArgs(l.front, leaf);
      PeacefulJoin(ArgsForm(l.front, leaf), LeafForm(leaf(l.arg)));
    }
  }

  /** Neither a list of its own nor a group. */
  predicate Flatly(s: Specifier) { !s.Compound? && !s.Chaingroup? }

  lemma PeacefulSpecifier(s: Specifier, k: Lookup, n: nat)
    requires Flatly(s)
    ensures Peaceful(SpecifierForm(s, k, n).form)
  {
    match s
    case DirectionArgs(d, l) => PeacefulArgs(l, IfaceLeaf(d));
    case HostArgs(source, l) => PeacefulArgs(l, HostLeaf(k, source));
    case PortArgs(source, l) => PeacefulArgs(l, PortLeaf(k, source));
    case ProtocolArgs(l) => PeacefulArgs(l, ProtoLeaf(k));
    case IcmpArgs(l) => PeacefulArgs(l, IcmpLeaf());
    case _ =>
  }

  predicate AllFlatly(l: Specifiers) {
    l.SnocSpecifier? ==> AllFlatly(l.front) && !l.last.negated && Flatly(l.last.spec)
  }

  lemma {:induction false} PeacefulSpecifiers(l: Specifiers, k: Lookup, n: nat)
    requires AllFlatly(l)
    ensures Peaceful(SpecifiersForm(l, k, n).form)
  {
    if l.SnocSpecifier? {
      var r := SpecifiersForm(l.front, k, n);
      PeacefulSpecifiers(l.front, k, n);
      PeacefulSpecifier(l.last.spec, k, n);
      PeacefulSpecifier(l.last.spec, k, r.count);
      PeacefulJoin(r.form, NegatedForm(l.last, k, r.count).form);
    }
  }

  lemma {:induction false} OntoFlatly(acc: Specifiers, ss: seq<Specifier>)
    requires AllFlatly(acc) && forall s | s in ss :: Flatly(s)
    ensures AllFlatly(Onto(acc, ss))
    decreases |ss|
  {
    if ss != [] {
      assert ss[0] in ss;
      OntoFlatly(SnocSpecifier(acc, Negated(false, ss[0])), ss[1..]);
    }
  }

  lemma RuleFlatly(e: Entry)
    requires Faced(e)
    ensures AllFlatly(RuleTree(e))
  {
    OntoFlatly(NoSpecifiers, RuleSpecs(e));
  }

  ghost predicate PeacefulRules(l: RuleList, k: Lookup, n: nat) {
    Peaceful(RulesForm(l, k, n).form)
  }

  lemma {:induction false} FormsPeaceful(acc: RuleList, es: seq<Entry>, k: Lookup, n: nat)
    requires PeacefulRules(acc, k, n) && forall e | e in es :: Faced(e)
    ensures PeacefulRules(FileTree(acc, es), k, n)
    decreases |es|
  {
    if es != [] {
      assert es[0] in es;
      var r := RulesForm(acc, k, n);
      RuleFlatly(es[0]);
      PeacefulSpecifiers(RuleTree(es[0]), k, r.count);
      PeacefulJoin(r.form, SpecifiersForm(RuleTree(es[0]), k, r.count).form);
      FormsPeaceful(SnocRule(acc, RuleTree(es[0])), es[1..], k, n);
    }
  }

  lemma FilePeaceful(acc: RuleList, es: seq<Entry>, k: Lookup, n: nat)
    requires acc.NoRules? && forall e | e in es :: Faced(e)
    ensures Expandable(FileTree(acc, es), k, n) && !Refused(FileTree(acc, es), k, n)
  {
    FormsPeaceful(acc, es, k, n);
    PeacefulExpands(RulesForm(FileTree(acc, es), k, n).form);
  }

  // ----- the whole back end -----

  /** What the walk keeps about the marks of an entry outside groups. */
  predicate Marked(e: Entry) {
    && e.groupname.None? && e.subgroup.None? && (e.target.Some? ==> e.target.value.Final?)
    && e.whatsSet == (if e.direction.Some? then {DirectionBit} else {}) + (if e.target.Some? then {TargetBit} else {})
                     + (if LogBit in e.whatsSet then {LogBit} else {})
  }

  lemma ApplyMarked(e: Entry, l: Literal)
    requires Marked(e) && ApplyLiteral(e, l).Some?
    ensures Marked(ApplyLiteral(e, l).value)
  {
    var d := Assign(e, l.spec);
    assert d.whatsSet == e.whatsSet + (if l.spec.DirectionSpec? then {DirectionBit} else {})
                         + (if l.spec.TargetSpec? then {TargetBit} else {})
                             + (if l.spec.LogSpec? then {LogBit} else {});
    assert Marked(d);
  }

  lemma {:induction false} FoldMarked(e: Entry, a: Alternative)
    requires Marked(e) && Fold(e, a).Some?
    ensures Marked(Fold(e, a).value)
    decreases |a|
  {
    if a != [] {
      ApplyMarked(e, a[0]);
      FoldMarked(ApplyLiteral(e, a[0]).value, a[1..]);
    }
  }

  /** Every entry of a compiled filter is such as the main result asks for. */
  lemma {:induction false} EntriesHanded(xs: seq<Alternative>, fl: Flags)
    requires Entries(EMPTY, xs, fl).Some?
    ensures forall e | e in Entries(EMPTY, xs, fl).value :: Faced(e) && Handed(e)
  {
    if xs != [] {
      assert Marked(EMPTY);
      FoldMarked(EMPTY, xs[0]);
      EntriesHanded(xs[1..], fl);
      var d := Fold(EMPTY, xs[0]).value;
      assert Defaults(d, fl).whatsSet == d.whatsSet;
      assert Faced(Defaults(d, fl)) && Handed(Defaults(d, fl));
    }
  }

  lemma {:induction false} FileSnoc(es: seq<Entry>, e: Entry)
    requires Faced(e) && forall d | d in es :: Faced(d)
    ensures FileToks(es + [e]) == FileToks(es) + RuleToks(e)
    decreases |es|
  {
    if es == [] {
      assert [] + [e] == [e] && [e][1..] == [];
    } else {
      assert (es + [e])[0] == es[0] && (es + [e])[1..] == es[1..] + [e];
      FileSnoc(es[1..], e);
      SeqAssoc(RuleToks(es[0]), FileToks(es[1..]), RuleToks(e));
    }
  }

  lemma FilePrefix(es: seq<Entry>, i: nat)
    requires i < |es| && forall e | e in es :: Faced(e)
    ensures FileToks(es[..i+1]) == FileToks(es[..i]) + RuleToks(es[i])
  {
    FileSnoc(es[..i], es[i]);
    assert es[..i+1] == es[..i] + [es[i]];
  }

  method OutFile(es: seq<Entry>) returns (toks: seq<Tok>)
    requires forall e | e in es :: Faced(e)
    ensures toks == FileToks(es)
  {
    toks := [];
    for i := 0 to |es|
      invariant toks == FileToks(es[..i])
    {
      FilePrefix(es, i);
      var rule := OutRule(es[i]);
      toks := toks + rule;
    }
    assert es[..|es|] == es;
  }

  lemma AllOnes(b: RuleWalk.Backend, ds: seq<Entry>)
    requires forall d :: b.rule(d) == 1
    ensures AllAccepted(b, ds)
  {
    if ds != [] {
      AllOnes(b, ds[1..]);
    }
  }

  /** What the back end prints for a syntax tree, if it does not fail. */
  ghost function Emitted(ast: RuleList, k: Lookup, fl: Flags, n: nat): Option<seq<Tok>> {
    if Refused(ast, k, n) || Entries(EMPTY, Compiled(ast, k), fl).None? then None
    else
      EntriesHanded(Compiled(ast, k), fl);
      Some(FileToks(Entries(EMPTY, Compiled(ast, k), fl).value))
  }

  /** `emit_filtergen`, from the syntax tree on; groups are inlined. */
  method EmitFiltergen(ast: RuleList, k: Lookup, fl: Flags, count: nat) returns (ok: bool, toks: seq<Tok>)
    requires Expandable(ast, k, count)
    ensures ok <==> !Refused(ast, k, count) && Entries(EMPTY, Compiled(ast, k), fl).Some?
    ensures ok ==>
      var es := Entries(EMPTY, Compiled(ast, k), fl).value;
      (forall e | e in es :: Faced(e) && Handed(e)) && toks == FileToks(es)
    ensures Emitted(ast, k, fl, count) == if ok then Some(toks) else None
  {
    toks := [];
    var b := RuleWalk.Backend((e: Entry) => 1, false, fl);
    RunAllSucceeds(b, EMPTY, Compiled(ast, k));
    var calls, c, count';
    ok, calls, c, count' := Compile(ast, k, b, true, count);
    if Entries(EMPTY, Compiled(ast, k), fl).Some? {
      AllOnes(b, Entries(EMPTY, Compiled(ast, k), fl).value);
    }
    if !ok || c < 0 {
      ok := false;
      return;
    }
    EntriesHanded(Compiled(ast, k), fl);
    toks := OutFile(RuleWalk.Rules(calls));
  }

  // ----- the output of the output -----

  /** The rule can be printed so that it compiles again: it has a target that is printed, and no range
      of source ports next to a destination port. */
  predicate Again(e: Entry) {
    Printed(e.target).Some? && !(IsRange(e.sport) && e.dport.Some?)
  }

  /** Then its output is printed for it again, whatever else of it is lost. */
  lemma RuleAgain(e: Entry, fl: Flags)
    requires Faced(e) && Handed(e)
    ensures EntryOf(EMPTY, RuleLiterals(e), fl).Some? <==> Again(e)
    ensures Again(e) ==> var d := EntryOf(EMPTY, RuleLiterals(e), fl).value; Faced(d) && RuleToks(d) == RuleToks(e)
  {
    RuleFolds(e);
    RecompiledComplete(e, fl);
    SameToks(e, Defaults(Recompiled(e), fl));
  }

  lemma RecompiledComplete(e: Entry, fl: Flags)
    requires Handed(e)
    ensures Complete(Defaults(Recompiled(e), fl)) <==> Printed(e.target).Some?
  {
  }

  lemma SameToks(e: Entry, d: Entry)
    requires Faced(e) && d.direction == e.direction && d.iface == e.iface && d.src == e.src && d.dst == e.dst
    requires d.proto == e.proto
    requires d.sport == e.sport && d.dport == e.dport && d.icmp == e.icmp
        && (LogBit in d.whatsSet <==> LogBit in e.whatsSet)
    requires TargetToks(d.target) == TargetToks(e.target)
    ensures RuleToks(d) == RuleToks(e)
  {
  }

  ghost predicate AllFaced(es: seq<Entry>) {
    forall e | e in es :: Faced(e)
  }

  ghost predicate AllAgain(es: seq<Entry>) {
    forall e | e in es :: Again(e)
  }

  lemma AllCons(e: Entry, rest: seq<Entry>)
    ensures AllFaced([e] + rest) <==> Faced(e) && AllFaced(rest)
    ensures AllAgain([e] + rest) <==> Again(e) && AllAgain(rest)
  {
    assert e in [e] + rest && forall x | x in rest :: x in [e] + rest;
  }

  lemma ToksCons(e: Entry, rest: seq<Entry>)
    requires Faced(e) && AllFaced(rest)
    ensures AllFaced([e] + rest) && FileToks([e] + rest) == RuleToks(e) + FileToks(rest)
  {
    AllCons(e, rest);
    assert ([e] + rest)[0] == e && ([e] + rest)[1..] == rest;
  }

  lemma EntriesCons(e: Entry, rest: seq<Entry>, fl: Flags)
    requires Faced(e)
    requires AllFaced(rest)
    ensures var d, ds := EntryOf(EMPTY, RuleLiterals(e), fl), Entries(EMPTY, AllLiterals(rest), fl);
            Entries(EMPTY, AllLiterals([e] + rest), fl)
              == if d.Some? && ds.Some? then Some([d.value] + ds.value) else None
  {
    assert ([e] + rest)[0] == e && ([e] + rest)[1..] == rest;
    var xs := AllLiterals([e] + rest);
    assert xs[0] == RuleLiterals(e) && xs[1..] == AllLiterals(rest);
  }

  lemma {:induction false} FileAgain(es: seq<Entry>, fl: Flags)
    requires AllFaced(es) && forall e | e in es :: Handed(e)
    ensures Entries(EMPTY, AllLiterals(es), fl).Some? <==> AllAgain(es)
    ensures Entries(EMPTY, AllLiterals(es), fl).Some? ==>
      var ds := Entries(EMPTY, AllLiterals(es), fl).value;
      AllFaced(ds) && FileToks(ds) == FileToks(es)
  {
    if es != [] {
      var e, rest := es[0], es[1..];
      assert es == [e] + rest && e in es;
      AllCons(e, rest);
      RuleAgain(e, fl);
      FileAgain(rest, fl);
      EntriesCons(e, rest, fl);
      if Entries(EMPTY, AllLiterals(es), fl).Some? {
        ToksCons(e, rest);
        ToksCons(EntryOf(EMPTY, RuleLiterals(e), fl).value, Entries(EMPTY, AllLiterals(rest), fl).value);
      }
    }
  }

  /** The loop is closed: what the back end prints parses, and the back end prints the same for it,
      exactly when every rule can be printed again. */
  lemma OutputIsFixed(ast: RuleList, k: Lookup, fl: Flags, n: nat, m: nat)
    requires Emitted(ast, k, fl, n).Some? && forall e | e in Entries(EMPTY, Compiled(ast, k), fl).value ::
        Speakable(e) && Settled(e, k)
    ensures var es := Entries(EMPTY, Compiled(ast, k), fl).value;
            && (forall e | e in es :: Faced(e))
                && Parse(Emitted(ast, k, fl, n).value) == Done(FileTree(NoRules, es), [])
            && Expandable(FileTree(NoRules, es), k, m)
            && (Emitted(FileTree(NoRules, es), k, fl, m) == Emitted(ast, k, fl, n) <==> forall e | e in es :: Again(e))
  {
    var es := Entries(EMPTY, Compiled(ast, k), fl).value;
    EntriesHanded(Compiled(ast, k), fl);
    NormalForm(es, k, fl, m);
    FileAgain(es, fl);
  }
}
