/** The grammar of the filter language, one clause per production, and the proof that the parser
    accepts exactly what it derives when a brace that could begin the arguments of a keyword does. */
module Grammar {
  import opened FilterSpec
  import opened FilterSyntax
  import opened SyntaxTokens
  import opened SyntaxParser

  // ----- the grammar: `ts` begins with a spelling of the tree and `rest` follows -----

  function WordToks(w: string): seq<Tok> { [Word(w)] }

  function HostToks(h: HostArg): seq<Tok> {
    if h.mask.None? then [Word(h.host)] else [Word(h.host), Slash, Word(h.mask.value)]
  }

  function PortToks(p: PortArg): seq<Tok> {
    if p.max.None? then [Word(p.min)] else [Word(p.min), Colon, Word(p.max.value)]
  }

  ghost predicate ArgsSpelled<T>(l: Args<T>, show: T -> seq<Tok>, ts: seq<Tok>, rest: seq<Tok>) {
    match l
    case NoArgs => ts == rest
    case SnocArg(f, a) => ArgsSpelled(f, show, ts, show(a) + rest)
  }

  /** With or without braces.  With `shift` no brace follows where there are none and no arguments either. */
  ghost predicate ListSpelled<T>(l: Args<T>, show: T -> seq<Tok>, ts: seq<Tok>, rest: seq<Tok>, shift: bool) {
    || (ts != [] && ts[0] == LCurly && ArgsSpelled(l, show, ts[1..], [RCurly] + rest))
    || (ArgsSpelled(l, show, ts, rest) && (shift && l.NoArgs? ==> !At(rest, LCurly)))
  }

  ghost predicate IfacesSpelled(l: Args<string>, ts: seq<Tok>, rest: seq<Tok>, shift: bool) {
    ListSpelled(l, WordToks, ts, rest, shift) || (l == SnocArg(NoArgs, "*") && ts == [Star] + rest)
  }

  ghost predicate PortsSpelled(l: Args<PortArg>, ts: seq<Tok>, rest: seq<Tok>)
    decreases |ts|
  {
    || (l.SnocArg? && ArgsSpelled(l, PortToks, ts, rest))
    || (ts != [] && ts[0] == LCurly && PortsSpelled(l, ts[1..], [RCurly] + rest))
  }

  ghost predicate TargetSpelled(t: TargetName, ts: seq<Tok>, rest: seq<Tok>) {
    match t
    case AcceptName => ts == [Key(ACCEPT)] + rest
    case RejectName => ts == [Key(REJECT)] + rest
    case DropName => ts == [Key(DROP)] + rest
    case MasqName => ts == [Key(MASQ)] + rest
    case ProxyName => ts == [Key(PROXY)] + rest
    case RedirectName => ts == [Key(REDIRECT)] + rest
  }

  ghost predicate OptionSpelled(o: OptionName, ts: seq<Tok>, rest: seq<Tok>) {
    match o
    case LocalOption => ts == [Key(LOCAL)] + rest
    case ForwardOption => ts == [Key(FORWARD)] + rest
    case OnewayOption => ts == [Key(ONEWAY)] + rest
    case LogOption(None) => ts == [Key(LOG)] + rest
    case LogOption(Some(m)) => ts == [Key(LOG), Key(TEXT), Word(m)] + rest
  }

  ghost predicate SpecifierSpelled(s: Specifier, ts: seq<Tok>, rest: seq<Tok>, shift: bool)
    decreases s
  {
    ts != [] &&
    match s
    case Compound(l) => ts[0] == LCurly && SubrulesSpelled(l, ts[1..], [RCurly] + rest, shift)
    case DirectionArgs(Input, l) => ts[0] == Key(INPUT) && IfacesSpelled(l, ts[1..], rest, shift)
    case DirectionArgs(Output, l) => ts[0] == Key(OUTPUT) && IfacesSpelled(l, ts[1..], rest, shift)
    case TargetArg(t) => TargetSpelled(t, ts, rest)
    case HostArgs(true, l) => ts[0] == Key(SOURCE) && ListSpelled(l, HostToks, ts[1..], rest, shift)
    case HostArgs(false, l) => ts[0] == Key(DEST) && ListSpelled(l, HostToks, ts[1..], rest, shift)
    case PortArgs(true, l) => ts[0] == Key(SPORT) && PortsSpelled(l, ts[1..], rest)
    case PortArgs(false, l) => ts[0] == Key(DPORT) && PortsSpelled(l, ts[1..], rest)
    case ProtocolArgs(l) => ts[0] == Key(PROTO) && ListSpelled(l, WordToks, ts[1..], rest, shift)
    case IcmpArgs(l) => ts[0] == Key(ICMPTYPE) && ListSpelled(l, WordToks, ts[1..], rest, shift)
    case OptionArg(o) => OptionSpelled(o, ts, rest)
    case Chaingroup(None, l) => ts[0] == LSquare && SubrulesSpelled(l, ts[1..], [RSquare] + rest, shift)
    case Chaingroup(Some(n), l) =>
      |ts| > 1 && ts[0] == LSquare && ts[1] == Word(n) && SubrulesSpelled(l, ts[2..], [RSquare] + rest, shift)
  }

  ghost predicate NegatedSpelled(n: Negated, ts: seq<Tok>, rest: seq<Tok>, shift: bool)
    decreases n
  {
    if n.negated then ts != [] && ts[0] == Bang && SpecifierSpelled(n.spec, ts[1..], rest, shift)
    else SpecifierSpelled(n.spec, ts, rest, shift)
  }

  ghost predicate SpecifiersSpelled(l: Specifiers, ts: seq<Tok>, rest: seq<Tok>, shift: bool)
    decreases l
  {
    match l
    case NoSpecifiers => ts == rest
    case SnocSpecifier(f, n) =>
      exists mid :: SpecifiersSpelled(f, ts, mid, shift) && NegatedSpelled(n, mid, rest, shift)
  }

  ghost predicate SubrulesSpelled(l: Subrules, ts: seq<Tok>, rest: seq<Tok>, shift: bool)
    decreases l
  {
    match l
    case OneSubrule(s) => SpecifiersSpelled(s, ts, rest, shift)
    case SnocSubrule(f, s) =>
      exists mid :: SubrulesSpelled(f, ts, [Semicolon] + mid, shift) && SpecifiersSpelled(s, mid, rest, shift)
  }

  ghost predicate RulesSpelled(l: RuleList, ts: seq<Tok>, rest: seq<Tok>, shift: bool) {
    match l
    case NoRules => ts == rest
    case SnocRule(f, r) =>
      exists mid :: RulesSpelled(f, ts, mid, shift) && SpecifiersSpelled(r, mid, [Semicolon] + rest, shift)
  }

  /** The tokens are a spelling of the rules. */
  ghost predicate Spells(t: RuleList, ts: seq<Tok>) {
    RulesSpelled(t, ts, [], false)
  }

  /** They are one in which every conflict is resolved by shifting. */
  ghost predicate SpellsShifting(t: RuleList, ts: seq<Tok>) {
    RulesSpelled(t, ts, [], true)
  }

  // ----- arguments -----

  /** The argument parser takes what `show` spells. */
  ghost predicate Takes<T(!new)>(p: ArgParser<T>, show: T -> seq<Tok>) {
    && (forall ts: seq<Tok> :: p(ts).GotArg? ==> ts == show(p(ts).arg) + p(ts).rest)
    && (forall a: T, rest: seq<Tok> :: Clear(rest) ==> p(show(a) + rest) == GotArg(a, rest))
    && (forall ts: seq<Tok> | ts != [] && !ts[0].Word? :: p(ts) == NoArg)
    && p([]) == NoArg && (forall a: T :: show(a) != [] && show(a)[0].Word?)
  }

  /** Nothing that would lengthen an argument follows. */
  ghost predicate Clear(rest: seq<Tok>) {
    !At(rest, Slash) && !At(rest, Colon)
  }

  lemma WordsTaken()
    ensures Takes(WordArg, WordToks)
  {
    forall a, rest | Clear(rest) ensures WordArg(WordToks(a) + rest) == GotArg(a, rest) {
      assert ([Word(a)] + rest)[1..] == rest;
    }
    forall ts | WordArg(ts).GotArg? ensures ts == WordToks(WordArg(ts).arg) + WordArg(ts).rest {
      assert ts == [ts[0]] + ts[1..];
    }
  }

  lemma PairTaken(x: string, y: Option<string>, sep: Tok, rest: seq<Tok>)
    requires sep == Slash || sep == Colon
    requires Clear(rest)
    ensures var ts := (if y.None? then [Word(x)] else [Word(x), sep, Word(y.value)]) + rest;
            PairArg(ts, sep) == GotArg((x, y), rest)
  {
    if y.None? {
      var ts := [Word(x)] + rest;
      assert ts[1..] == rest && (|ts| > 1 ==> ts[1] == rest[0]);
    } else {
      var ts := [Word(x), sep, Word(y.value)] + rest;
      assert ts[0] == Word(x) && ts[1] == sep && ts[2] == Word(y.value) && ts[3..] == rest;
    }
  }

  lemma PairGot(ts: seq<Tok>, sep: Tok)
    requires PairArg(ts, sep).GotArg?
    ensures var g := PairArg(ts, sep);
            ts == (if g.arg.1.None? then [Word(g.arg.0)] else [Word(g.arg.0), sep, Word(g.arg.1.value)]) + g.rest
  {
    if |ts| < 2 || ts[1] != sep {
      assert ts == [ts[0]] + ts[1..];
    } else {
      assert ts == [ts[0], ts[1], ts[2]] + ts[3..];
    }
  }

  lemma HostsTaken()
    ensures Takes(HostAt, HostToks)
  {
    forall ts | HostAt(ts).GotArg? ensures ts == HostToks(HostAt(ts).arg) + HostAt(ts).rest { PairGot(ts, Slash); }
    forall a: HostArg, rest | Clear(rest) ensures HostAt(HostToks(a) + rest) == GotArg(a, rest) {
      PairTaken(a.host, a.mask, Slash, rest);
    }
  }

  lemma PortsTaken()
    ensures Takes(PortAt, PortToks)
  {
    forall ts | PortAt(ts).GotArg? ensures ts == PortToks(PortAt(ts).arg) + PortAt(ts).rest { PairGot(ts, Colon); }
    forall a: PortArg, rest | Clear(rest) ensures PortAt(PortToks(a) + rest) == GotArg(a, rest) {
      PairTaken(a.min, a.max, Colon, rest);
    }
  }

  // ----- what the parser accepts is spelled so -----

  lemma {:induction false} ArgsSound<T(!new)>(p: ArgParser<T>, show: T -> seq<Tok>, acc: Args<T>, us: seq<Tok>,
                                       ts: seq<Tok>)
    requires Takes(p, show) && ArgsSpelled(acc, show, us, ts) && ParseArgs(p, acc, ts).Done?
    ensures var r := ParseArgs(p, acc, ts); ArgsSpelled(r.value, show, us, r.rest)
    decreases |ts|
  {
    var f := p(ts);
    if f.GotArg? {
      assert ts == show(f.arg) + f.rest;
      ArgsSound(p, show, SnocArg(acc, f.arg), us, f.rest);
    }
  }

  lemma ExpectGives<T>(r: Parsed<T>, t: Tok)
    requires Expect(r, t).Done?
    ensures r.Done? && Expect(r, t).value == r.value && r.rest == [t] + Expect(r, t).rest
  {
    assert r.rest == [r.rest[0]] + r.rest[1..];
  }

  lemma ListSound<T(!new)>(p: ArgParser<T>, show: T -> seq<Tok>, ts: seq<Tok>)
    requires Takes(p, show) && ParseList(p, ts).Done?
    ensures var r := ParseList(p, ts); ListSpelled(r.value, show, ts, r.rest, true)
  {
    if At(ts, LCurly) {
      ExpectGives(ParseArgs(p, NoArgs, ts[1..]), RCurly);
      ArgsSound(p, show, NoArgs, ts[1..], ts[1..]);
    } else {
      ArgsSound(p, show, NoArgs, ts, ts);
    }
  }

  lemma IfacesSound(ts: seq<Tok>)
    requires ParseIfaces(ts).Done?
    ensures var r := ParseIfaces(ts); IfacesSpelled(r.value, ts, r.rest, true)
  {
    if At(ts, Star) {
      assert ts == [Star] + ts[1..];
    } else {
      WordsTaken();
      ListSound(WordArg, WordToks, ts);
    }
  }

  lemma {:induction false} PortsSound(ts: seq<Tok>)
    requires ParsePorts(ts).Done?
    ensures var r := ParsePorts(ts); PortsSpelled(r.value, ts, r.rest)
    decreases |ts|
  {
    if At(ts, LCurly) {
      ExpectGives(ParsePorts(ts[1..]), RCurly);
      PortsSound(ts[1..]);
    } else {
      PortsTaken();
      ArgsSound(PortAt, PortToks, NoArgs, ts, ts);
    }
  }

  lemma LogSound(ts: seq<Tok>)
    requires ParseLog(ts).Done?
    ensures var r := ParseLog(ts); SpecifierSpelled(r.value, [Key(LOG)] + ts, r.rest, true)
  {
    if At(ts, Key(TEXT)) {
      assert [Key(LOG)] + ts == [Key(LOG), Key(TEXT), Word(ts[1].name)] + ts[2..];
    }
  }

  lemma KeywordSound(k: Keyword, ts: seq<Tok>)
    requires ParseKeyword(k, ts).Done?
    ensures var r := ParseKeyword(k, ts); SpecifierSpelled(r.value, [Key(k)] + ts, r.rest, true)
  {
    assert ([Key(k)] + ts)[0] == Key(k) && ([Key(k)] + ts)[1..] == ts;
    match k
    case INPUT => IfacesSound(ts);
    case OUTPUT => IfacesSound(ts);
    case SOURCE => HostsTaken(); ListSound(HostAt, HostToks, ts);
    case DEST => HostsTaken(); ListSound(HostAt, HostToks, ts);
    case SPORT => PortsSound(ts);
    case DPORT => PortsSound(ts);
    case PROTO => WordsTaken(); ListSound(WordArg, WordToks, ts);
    case ICMPTYPE => WordsTaken(); ListSound(WordArg, WordToks, ts);
    case LOG => LogSound(ts);
    case _ =>
  }

  lemma {:induction false} SpecifierSound(ts: seq<Tok>)
    requires ParseSpecifier(ts).Done?
    ensures var r := ParseSpecifier(ts); SpecifierSpelled(r.value, ts, r.rest, true)
    decreases |ts|, 0
  {
    match ts[0]
    case Key(k) =>
      KeywordSound(k, ts[1..]);
      assert ts == [Key(k)] + ts[1..];
    case LCurly =>
      ExpectGives(ParseSubrules(ts[1..]), RCurly);
      SubrulesSound(ts[1..]);
    case LSquare =>
      var us := if |ts| > 1 && ts[1].Word? then ts[2..] else ts[1..];
      ExpectGives(ParseSubrules(us), RSquare);
      SubrulesSound(us);
  }

  lemma NegatedSound(ts: seq<Tok>)
    requires ParseNegated(ts).Done?
    ensures var r := ParseNegated(ts); NegatedSpelled(r.value, ts, r.rest, true)
    decreases |ts|, 1
  {
    SpecifierSound(if At(ts, Bang) then ts[1..] else ts);
  }

  lemma {:induction false} SpecifiersSound(acc: Specifiers, us: seq<Tok>, ts: seq<Tok>)
    requires SpecifiersSpelled(acc, us, ts, true) && ParseSpecifiers(acc, ts).Done?
    ensures var r := ParseSpecifiers(acc, ts); SpecifiersSpelled(r.value, us, r.rest, true)
    decreases |ts|, 2
  {
    if Begins(ts) {
      NegatedSound(ts);
      var n := ParseNegated(ts);
      SpecifiersSound(SnocSpecifier(acc, n.value), us, n.rest);
    }
  }

  lemma {:induction false} SubrulesSound(ts: seq<Tok>)
    requires ParseSubrules(ts).Done?
    ensures var r := ParseSubrules(ts); SubrulesSpelled(r.value, ts, r.rest, true)
    decreases |ts|, 4
  {
    SpecifiersSound(NoSpecifiers, ts, ts);
    var s := ParseSpecifiers(NoSpecifiers, ts);
    MoreSound(OneSubrule(s.value), ts, s.rest);
  }

  lemma {:induction false} MoreSound(acc: Subrules, us: seq<Tok>, ts: seq<Tok>)
    requires SubrulesSpelled(acc, us, ts, true) && ParseMore(acc, ts).Done?
    ensures var r := ParseMore(acc, ts); SubrulesSpelled(r.value, us, r.rest, true)
    decreases |ts|, 3
  {
    if At(ts, Semicolon) {
      assert ts == [Semicolon] + ts[1..];
      SpecifiersSound(NoSpecifiers, ts[1..], ts[1..]);
      var s := ParseSpecifiers(NoSpecifiers, ts[1..]);
      MoreSound(SnocSubrule(acc, s.value), us, s.rest);
    }
  }

  lemma {:induction false} RulesSound(acc: RuleList, us: seq<Tok>, ts: seq<Tok>)
    requires RulesSpelled(acc, us, ts, true) && ParseRules(acc, ts).Done?
    ensures RulesSpelled(ParseRules(acc, ts).value, us, [], true)
    decreases |ts|
  {
    if ts != [] {
      var s := ParseSpecifiers(NoSpecifiers, ts);
      ExpectGives(s, Semicolon);
      SpecifiersSound(NoSpecifiers, ts, ts);
      RulesSound(SnocRule(acc, s.value), us, s.rest[1..]);
    }
  }

  // ----- what is spelled so the parser accepts -----

  /** What may follow a specifier. */
  ghost predicate Follows(rest: seq<Tok>) {
    rest == [] || rest[0] in {Semicolon, RCurly, RSquare} || Begins(rest)
  }

  /** What may follow a list of specifiers. */
  ghost predicate Stops(rest: seq<Tok>) {
    rest == [] || rest[0] in {Semicolon, RCurly, RSquare}
  }

  lemma {:induction false} ArgsComplete<T(!new)>(p: ArgParser<T>, show: T -> seq<Tok>, l: Args<T>, ts: seq<Tok>,
                                                 rest: seq<Tok>)
    requires Takes(p, show) && ArgsSpelled(l, show, ts, rest) && Clear(rest)
    ensures ParseArgs(p, NoArgs, ts) == ParseArgs(p, l, rest)
  {
    if l.SnocArg? {
      var mid := show(l.arg) + rest;
      assert mid[0] == show(l.arg)[0];
      ArgsComplete(p, show, l.front, ts, mid);
      assert p(mid) == GotArg(l.arg, rest);
    }
  }

  /** Unbraced arguments begin with a word, if there are any. */
  lemma {:induction false} ArgsBegin<T(!new)>(p: ArgParser<T>, show: T -> seq<Tok>, l: Args<T>, ts: seq<Tok>,
                                       rest: seq<Tok>)
    requires Takes(p, show) && ArgsSpelled(l, show, ts, rest)
    ensures if l.NoArgs? then ts == rest else ts != [] && ts[0].Word?
  {
    if l.SnocArg? {
      ArgsBegin(p, show, l.front, ts, show(l.arg) + rest);
    }
  }

  lemma ExpectFinds<T>(r: Parsed<T>, t: Tok, rest: seq<Tok>)
    requires r.Done? && r.rest == [t] + rest
    ensures Expect(r, t) == Done(r.value, rest)
  {
    assert r.rest[1..] == rest;
  }

  lemma ListComplete<T(!new)>(p: ArgParser<T>, show: T -> seq<Tok>, l: Args<T>, ts: seq<Tok>, rest: seq<Tok>)
    requires Takes(p, show) && ListSpelled(l, show, ts, rest, true) && Follows(rest)
    ensures ParseList(p, ts) == Done(l, rest)
  {
    if ts != [] && ts[0] == LCurly && ArgsSpelled(l, show, ts[1..], [RCurly] + rest) {
      ArgsComplete(p, show, l, ts[1..], [RCurly] + rest);
      assert p([RCurly] + rest) == NoArg;
      ExpectFinds(ParseArgs(p, NoArgs, ts[1..]), RCurly, rest);
    } else {
      ArgsBegin(p, show, l, ts, rest);
      ArgsComplete(p, show, l, ts, rest);
      assert p(rest) == NoArg;
    }
  }

  lemma IfacesComplete(l: Args<string>, ts: seq<Tok>, rest: seq<Tok>)
    requires IfacesSpelled(l, ts, rest, true) && Follows(rest)
    ensures ParseIfaces(ts) == Done(l, rest)
  {
    WordsTaken();
    if ListSpelled(l, WordToks, ts, rest, true) {
      if !(ts != [] && ts[0] == LCurly) {
        ArgsBegin(WordArg, WordToks, l, ts, rest);
      }
      ListComplete(WordArg, WordToks, l, ts, rest);
    } else {
      assert ts[1..] == rest;
    }
  }

  lemma {:induction false} PortsComplete(l: Args<PortArg>, ts: seq<Tok>, rest: seq<Tok>)
    requires PortsSpelled(l, ts, rest) && Follows(rest)
    ensures ParsePorts(ts) == Done(l, rest)
    decreases |ts|
  {
    PortsTaken();
    if l.SnocArg? && ArgsSpelled(l, PortToks, ts, rest) {
      ArgsBegin(PortAt, PortToks, l, ts, rest);
      ArgsComplete(PortAt, PortToks, l, ts, rest);
      assert PortAt(rest) == NoArg;
    } else {
      PortsComplete(l, ts[1..], [RCurly] + rest);
      ExpectFinds(ParsePorts(ts[1..]), RCurly, rest);
    }
  }

  lemma OneTok(t: Tok, ts: seq<Tok>, rest: seq<Tok>)
    requires ts == [t] + rest
    ensures ts[0] == t && ts[1..] == rest
  {
  }

  lemma OptionComplete(o: OptionName, ts: seq<Tok>, rest: seq<Tok>)
    requires OptionSpelled(o, ts, rest) && Follows(rest)
    ensures ParseSpecifier(ts) == Done(OptionArg(o), rest)
  {
    match o
    case LocalOption => OneTok(Key(LOCAL), ts, rest);
    case ForwardOption => OneTok(Key(FORWARD), ts, rest);
    case OnewayOption => OneTok(Key(ONEWAY), ts, rest);
    case LogOption(None) => OneTok(Key(LOG), ts, rest);
    case LogOption(Some(m)) =>
      assert ts[0] == Key(LOG) && ts[1..][0] == Key(TEXT) && ts[1..][1] == Word(m) && ts[1..][2..] == rest;
  }

  lemma TargetComplete(t: TargetName, ts: seq<Tok>, rest: seq<Tok>)
    requires TargetSpelled(t, ts, rest)
    ensures ParseSpecifier(ts) == Done(TargetArg(t), rest)
  {
    match t
    case AcceptName => OneTok(Key(ACCEPT), ts, rest);
    case RejectName => OneTok(Key(REJECT), ts, rest);
    case DropName => OneTok(Key(DROP), ts, rest);
    case MasqName => OneTok(Key(MASQ), ts, rest);
    case ProxyName => OneTok(Key(PROXY), ts, rest);
    case RedirectName => OneTok(Key(REDIRECT), ts, rest);
  }

  lemma SpecifierBegins(s: Specifier, ts: seq<Tok>, rest: seq<Tok>, shift: bool)
    requires SpecifierSpelled(s, ts, rest, shift)
    ensures Begins(ts) && ts[0] != Bang
  {
    match s
    case TargetArg(t) => TargetBegins(t, ts, rest);
    case OptionArg(o) => OptionBegins(o, ts, rest);
    case _ =>
  }

  lemma TargetBegins(t: TargetName, ts: seq<Tok>, rest: seq<Tok>)
    requires TargetSpelled(t, ts, rest)
    ensures ts != [] && ts[0].Key? && ts[0].key != TEXT
  {
  }

  lemma OptionBegins(o: OptionName, ts: seq<Tok>, rest: seq<Tok>)
    requires OptionSpelled(o, ts, rest)
    ensures ts != [] && ts[0].Key? && ts[0].key != TEXT
  {
  }

  lemma NegatedBegins(n: Negated, ts: seq<Tok>, rest: seq<Tok>, shift: bool)
    requires NegatedSpelled(n, ts, rest, shift)
    ensures Begins(ts)
  {
    if !n.negated {
      SpecifierBegins(n.spec, ts, rest, shift);
    }
  }

  /** A list of specifiers begins with one, if it has any. */
  lemma {:induction false} SpecifiersBegin(l: Specifiers, ts: seq<Tok>, rest: seq<Tok>, shift: bool)
    requires SpecifiersSpelled(l, ts, rest, shift)
    ensures ts == rest || Begins(ts)
  {
    if l.SnocSpecifier? {
      var mid :| SpecifiersSpelled(l.front, ts, mid, shift) && NegatedSpelled(l.last, mid, rest, shift);
      SpecifiersBegin(l.front, ts, mid, shift);
      NegatedBegins(l.last, mid, rest, shift);
    }
  }

  lemma {:induction false} SubrulesBegin(l: Subrules, ts: seq<Tok>, rest: seq<Tok>, shift: bool)
    requires SubrulesSpelled(l, ts, rest, shift)
    ensures ts == rest || Begins(ts) || At(ts, Semicolon)
  {
    match l
    case OneSubrule(s) => SpecifiersBegin(s, ts, rest, shift);
    case SnocSubrule(f, s) =>
      var mid :| SubrulesSpelled(f, ts, [Semicolon] + mid, shift) && SpecifiersSpelled(s, mid, rest, shift);
      SubrulesBegin(f, ts, [Semicolon] + mid, shift);
  }

  lemma HostsComplete(source: bool, l: Args<HostArg>, ts: seq<Tok>, rest: seq<Tok>)
    requires SpecifierSpelled(HostArgs(source, l), ts, rest, true) && Follows(rest)
    ensures ParseSpecifier(ts) == Done(HostArgs(source, l), rest)
  {
    HostsTaken();
    ListComplete(HostAt, HostToks, l, ts[1..], rest);
  }

  lemma DirectionComplete(d: Direction, l: Args<string>, ts: seq<Tok>, rest: seq<Tok>)
    requires SpecifierSpelled(DirectionArgs(d, l), ts, rest, true) && Follows(rest)
    ensures ParseSpecifier(ts) == Done(DirectionArgs(d, l), rest)
  {
    IfacesComplete(l, ts[1..], rest);
  }

  lemma PortArgsComplete(source: bool, l: Args<PortArg>, ts: seq<Tok>, rest: seq<Tok>)
    requires SpecifierSpelled(PortArgs(source, l), ts, rest, true) && Follows(rest)
    ensures ParseSpecifier(ts) == Done(PortArgs(source, l), rest)
  {
    PortsComplete(l, ts[1..], rest);
  }

  lemma NamesComplete(s: Specifier, l: Args<string>, ts: seq<Tok>, rest: seq<Tok>)
    requires (s == ProtocolArgs(l) || s == IcmpArgs(l)) && SpecifierSpelled(s, ts, rest, true) && Follows(rest)
    ensures ParseSpecifier(ts) == Done(s, rest)
  {
    WordsTaken();
    ListComplete(WordArg, WordToks, l, ts[1..], rest);
  }

  lemma {:induction false} SpecifierComplete(s: Specifier, ts: seq<Tok>, rest: seq<Tok>)
    requires SpecifierSpelled(s, ts, rest, true) && Follows(rest)
    ensures ParseSpecifier(ts) == Done(s, rest)
    decreases s
  {
    match s
    case Compound(l) => SubrulesDone(l, ts[1..], RCurly, rest);
    case DirectionArgs(d, l) => DirectionComplete(d, l, ts, rest);
    case TargetArg(t) => TargetComplete(t, ts, rest);
    case HostArgs(source, l) => HostsComplete(source, l, ts, rest);
    case PortArgs(source, l) => PortArgsComplete(source, l, ts, rest);
    case ProtocolArgs(l) => NamesComplete(s, l, ts, rest);
    case IcmpArgs(l) => NamesComplete(s, l, ts, rest);
    case OptionArg(o) => OptionComplete(o, ts, rest);
    case Chaingroup(None, l) =>
      SubrulesBegin(l, ts[1..], [RSquare] + rest, true);
      assert |ts| > 1 ==> ts[1..][0] == ts[1];
      SubrulesDone(l, ts[1..], RSquare, rest);
    case Chaingroup(Some(_), l) => SubrulesDone(l, ts[2..], RSquare, rest);
  }

  lemma SubrulesDone(l: Subrules, ts: seq<Tok>, end: Tok, rest: seq<Tok>)
    requires SubrulesSpelled(l, ts, [end] + rest, true) && end in {RCurly, RSquare}
    ensures Expect(ParseSubrules(ts), end) == Done(l, rest)
    decreases l, 2
  {
    SubrulesComplete(l, ts, [end] + rest);
    ExpectFinds(ParseSubrules(ts), end, rest);
  }

  lemma NegatedComplete(n: Negated, ts: seq<Tok>, rest: seq<Tok>)
    requires NegatedSpelled(n, ts, rest, true) && Follows(rest)
    ensures ParseNegated(ts) == Done(n, rest)
    decreases n, 1
  {
    if n.negated {
      SpecifierComplete(n.spec, ts[1..], rest);
    } else {
      SpecifierBegins(n.spec, ts, rest, true);
      SpecifierComplete(n.spec, ts, rest);
    }
  }

  lemma {:induction false} SpecifiersComplete(l: Specifiers, ts: seq<Tok>, rest: seq<Tok>)
    requires SpecifiersSpelled(l, ts, rest, true) && Follows(rest)
    ensures ParseSpecifiers(NoSpecifiers, ts) == ParseSpecifiers(l, rest)
    decreases l, 0
  {
    if l.SnocSpecifier? {
      var mid :| SpecifiersSpelled(l.front, ts, mid, true) && NegatedSpelled(l.last, mid, rest, true);
      NegatedBegins(l.last, mid, rest, true);
      SpecifiersComplete(l.front, ts, mid);
      NegatedComplete(l.last, mid, rest);
    }
  }

  lemma SpecifiersDone(l: Specifiers, ts: seq<Tok>, rest: seq<Tok>)
    requires SpecifiersSpelled(l, ts, rest, true) && Stops(rest)
    ensures ParseSpecifiers(NoSpecifiers, ts) == Done(l, rest)
    decreases l, 1
  {
    SpecifiersComplete(l, ts, rest);
  }

  lemma {:induction false} SubrulesComplete(l: Subrules, ts: seq<Tok>, rest: seq<Tok>)
    requires SubrulesSpelled(l, ts, rest, true) && Stops(rest)
    ensures ParseSubrules(ts) == ParseMore(l, rest)
    decreases l, 1
  {
    match l
    case OneSubrule(s) => SpecifiersDone(s, ts, rest);
    case SnocSubrule(f, s) =>
      var mid :| SubrulesSpelled(f, ts, [Semicolon] + mid, true) && SpecifiersSpelled(s, mid, rest, true);
      SubrulesComplete(f, ts, [Semicolon] + mid);
      assert ([Semicolon] + mid)[1..] == mid;
      SpecifiersDone(s, mid, rest);
  }

  lemma {:induction false} RulesComplete(l: RuleList, ts: seq<Tok>, rest: seq<Tok>)
    requires RulesSpelled(l, ts, rest, true)
    ensures ParseRules(NoRules, ts) == ParseRules(l, rest)
  {
    if l.SnocRule? {
      var mid :| RulesSpelled(l.front, ts, mid, true) && SpecifiersSpelled(l.rule, mid, [Semicolon] + rest, true);
      RulesComplete(l.front, ts, mid);
      SpecifiersDone(l.rule, mid, [Semicolon] + rest);
      ExpectFinds(ParseSpecifiers(NoSpecifiers, mid), Semicolon, rest);
      SpecifiersBegin(l.rule, mid, [Semicolon] + rest, true);
    }
  }

  /** The parser accepts a text with a tree if and only if the grammar derives the text from the tree
      and no brace after a keyword without arguments begins anything but its arguments. */
  lemma ParsesExactly(t: RuleList, ts: seq<Tok>)
    ensures Parse(ts) == Done(t, []) <==> SpellsShifting(t, ts)
  {
    if Parse(ts) == Done(t, []) {
      RulesSound(NoRules, ts, ts);
    }
    if SpellsShifting(t, ts) {
      RulesComplete(t, ts, []);
    }
  }

  // ----- the grammar without the resolution of conflicts -----

  lemma {:induction false} SpecifierUnshifted(s: Specifier, ts: seq<Tok>, rest: seq<Tok>)
    requires SpecifierSpelled(s, ts, rest, true)
    ensures SpecifierSpelled(s, ts, rest, false)
    decreases s
  {
    match s
    case Compound(l) => SubrulesUnshifted(l, ts[1..], [RCurly] + rest);
    case Chaingroup(None, l) => SubrulesUnshifted(l, ts[1..], [RSquare] + rest);
    case Chaingroup(Some(_), l) => SubrulesUnshifted(l, ts[2..], [RSquare] + rest);
    case _ =>
  }

  lemma {:induction false} SpecifiersUnshifted(l: Specifiers, ts: seq<Tok>, rest: seq<Tok>)
    requires SpecifiersSpelled(l, ts, rest, true)
    ensures SpecifiersSpelled(l, ts, rest, false)
    decreases l
  {
    if l.SnocSpecifier? {
      var mid :| SpecifiersSpelled(l.front, ts, mid, true) && NegatedSpelled(l.last, mid, rest, true);
      SpecifiersUnshifted(l.front, ts, mid);
      SpecifierUnshifted(l.last.spec, if l.last.negated then mid[1..] else mid, rest);
      assert NegatedSpelled(l.last, mid, rest, false);
    }
  }

  lemma {:induction false} SubrulesUnshifted(l: Subrules, ts: seq<Tok>, rest: seq<Tok>)
    requires SubrulesSpelled(l, ts, rest, true)
    ensures SubrulesSpelled(l, ts, rest, false)
    decreases l
  {
    match l
    case OneSubrule(s) => SpecifiersUnshifted(s, ts, rest);
    case SnocSubrule(f, s) =>
      var mid :| SubrulesSpelled(f, ts, [Semicolon] + mid, true) && SpecifiersSpelled(s, mid, rest, true);
      SubrulesUnshifted(f, ts, [Semicolon] + mid);
      SpecifiersUnshifted(s, mid, rest);
  }

  lemma {:induction false} RulesUnshifted(l: RuleList, ts: seq<Tok>, rest: seq<Tok>)
    requires RulesSpelled(l, ts, rest, true)
    ensures RulesSpelled(l, ts, rest, false)
  {
    if l.SnocRule? {
      var mid :| RulesSpelled(l.front, ts, mid, true) && SpecifiersSpelled(l.rule, mid, [Semicolon] + rest, true);
      RulesUnshifted(l.front, ts, mid);
      SpecifiersUnshifted(l.rule, mid, [Semicolon] + rest);
    }
  }

  /** What the parser accepts the grammar derives. */
  lemma ParsedIsSpelled(t: RuleList, ts: seq<Tok>)
    requires Parse(ts) == Done(t, [])
    ensures Spells(t, ts)
  {
    ParsesExactly(t, ts);
    RulesUnshifted(t, ts, []);
  }

  const ACCEPTING := SnocSpecifier(NoSpecifiers, Negated(false, TargetArg(AcceptName)))
  const ANYSOURCE := SnocSpecifier(NoSpecifiers, Negated(false, HostArgs(true, NoArgs)))
  const BRACED := SnocSpecifier(ANYSOURCE, Negated(false, Compound(OneSubrule(ACCEPTING))))
  const BRACEDTOKS := [Key(SOURCE), LCurly, Key(ACCEPT), RCurly, Semicolon]

  lemma BracedIsSpelled()
    ensures SpecifiersSpelled(BRACED, BRACEDTOKS, [Semicolon], false)
  {
    var t1 := [Key(ACCEPT), RCurly, Semicolon];
    var t2 := [LCurly, Key(ACCEPT), RCurly, Semicolon];
    assert t1 == [Key(ACCEPT)] + ([RCurly] + [Semicolon]);
    assert SpecifiersSpelled(NoSpecifiers, t1, t1, false)
        && NegatedSpelled(ACCEPTING.last, t1, [RCurly] + [Semicolon], false);
    assert t2[1..] == t1;
    assert SubrulesSpelled(OneSubrule(ACCEPTING), t1, [RCurly] + [Semicolon], false);
    assert NegatedSpelled(BRACED.last, t2, [Semicolon], false);
    assert BRACEDTOKS[1..] == t2 && ListSpelled<HostArg>(NoArgs, HostToks, t2, t2, false);
    assert SpecifiersSpelled(NoSpecifiers, BRACEDTOKS, BRACEDTOKS, false);
    assert NegatedSpelled(ANYSOURCE.last, BRACEDTOKS, t2, false);
    assert SpecifiersSpelled(ANYSOURCE, BRACEDTOKS, t2, false);
  }

  lemma BracedIsRejected()
    ensures ParseSpecifiers(NoSpecifiers, BRACEDTOKS) == Fail
  {
    var t1 := [Key(ACCEPT), RCurly, Semicolon];
    var t2 := [LCurly, Key(ACCEPT), RCurly, Semicolon];
    assert t2[1..] == t1 && BRACEDTOKS[1..] == t2;
    assert HostAt(t1) == NoArg;
    assert ParseArgs(HostAt, NoArgs, t1) == Done(NoArgs, t1);
    assert ParseList(HostAt, t2) == Fail;
    assert ParseSpecifier(BRACEDTOKS) == Fail;
    assert ParseNegated(BRACEDTOKS) == Fail;
  }

  /** `source { accept } ;` is derived by the grammar, and rejected because the brace is shifted. */
  lemma ShiftingLoses()
    ensures Spells(SnocRule(NoRules, BRACED), BRACEDTOKS) && Parse(BRACEDTOKS).Fail?
  {
    BracedIsSpelled();
    BracedIsRejected();
    assert [Semicolon] == [Semicolon] + [];
    assert RulesSpelled(NoRules, BRACEDTOKS, BRACEDTOKS, false);
  }
}
