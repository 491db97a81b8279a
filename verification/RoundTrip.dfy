/** Printing a syntax tree and parsing the result gives the tree back, exactly when no name in it
    reads as something else without its quotes, no port list is empty and `proxy` is not used. */
module RoundTrip {
  import opened FilterSpec
  import opened FilterSyntax
  import opened SyntaxTokens
  import opened SyntaxParser

  // ----- which trees can be printed and read back -----

  /** Neither a star nor a keyword. */
  predicate PlainName(w: string) { w != "*" && KeywordOf(w).None? }

  predicate PlainHost(h: HostArg) { PlainName(h.host) && (h.mask.Some? ==> PlainName(h.mask.value)) }

  predicate PlainPort(p: PortArg) { PlainName(p.min) && (p.max.Some? ==> PlainName(p.max.value)) }

  predicate PlainArgs<T>(l: Args<T>, plain: T -> bool) {
    l.SnocArg? ==> PlainArgs(l.front, plain) && plain(l.arg)
  }

  predicate Reprintable(s: Specifier) {
    match s
    case Compound(l) => ReprintableSubrules(l)
    case DirectionArgs(_, l) => PlainArgs(l, PlainName)
    case TargetArg(t) => t != ProxyName
    case HostArgs(_, l) => PlainArgs(l, PlainHost)
    case PortArgs(_, l) => l.SnocArg? && PlainArgs(l, PlainPort)
    case ProtocolArgs(l) => PlainArgs(l, PlainName)
    case IcmpArgs(l) => PlainArgs(l, PlainName)
    case OptionArg(_) => true
    case Chaingroup(_, l) => ReprintableSubrules(l)
  }

  predicate ReprintableSpecifiers(l: Specifiers) {
    l.SnocSpecifier? ==> ReprintableSpecifiers(l.front) && Reprintable(l.last.spec)
  }

  predicate ReprintableSubrules(l: Subrules) {
    match l
    case OneSubrule(s) => ReprintableSpecifiers(s)
    case SnocSubrule(f, s) => ReprintableSubrules(f) && ReprintableSpecifiers(s)
  }

  predicate ReprintableRules(l: RuleList) {
    l.SnocRule? ==> ReprintableRules(l.front) && ReprintableSpecifiers(l.rule)
  }

  // ----- arguments -----

  /** No separator that would make a pair of the name before it. */
  predicate Clear(ts: seq<Tok>) {
    !At(ts, Slash) && !At(ts, Colon)
  }

  /** The parser `p` reads what `show` prints, and nothing else where the argument is not plain. */
  ghost predicate Reads<T(!new)>(p: ArgParser<T>, show: T -> seq<Tok>, plain: T -> bool) {
    forall a: T, rest: seq<Tok> | Clear(rest) ::
      && show(a) != [] && Clear(show(a)) && show(a)[0] != RCurly && show(a)[0] != LCurly
      && if plain(a) then p(show(a) + rest) == GotArg(a, rest) else !p(show(a) + rest).GotArg?
  }

  lemma PairReads(x: string, y: Option<string>, sep: Tok, rest: seq<Tok>)
    requires !At(rest, sep)
    ensures var ts := [Bare(x)] + (if y.Some? then [sep, Bare(y.value)] else []) + rest;
            if PlainName(x) && (y.Some? ==> PlainName(y.value)) then PairArg(ts, sep) == GotArg((x, y), rest)
              else !PairArg(ts, sep).GotArg?
  {
    var ts := [Bare(x)] + (if y.Some? then [sep, Bare(y.value)] else []) + rest;
    assert ts[0] == Bare(x);
    if y.Some? {
      assert ts[1] == sep && ts[2] == Bare(y.value) && ts[3..] == rest;
    } else {
      assert ts[1..] == rest;
      assert |ts| >= 2 ==> ts[1] == rest[0];
    }
  }

  lemma HostsRead()
    ensures Reads(HostAt, PrintHost, PlainHost)
  {
    forall h: HostArg, rest: seq<Tok> | Clear(rest)
      ensures if PlainHost(h) then HostAt(PrintHost(h) + rest) == GotArg(h, rest)
          else !HostAt(PrintHost(h) + rest).GotArg?
    {
      PairReads(h.host, h.mask, Slash, rest);
    }
  }

  lemma PortsRead()
    ensures Reads(PortAt, PrintPort, PlainPort)
  {
    forall p: PortArg, rest: seq<Tok> | Clear(rest)
      ensures if PlainPort(p) then PortAt(PrintPort(p) + rest) == GotArg(p, rest)
          else !PortAt(PrintPort(p) + rest).GotArg?
    {
      PairReads(p.min, p.max, Colon, rest);
    }
  }

  lemma WordsRead()
    ensures Reads(WordArg, PrintWord, PlainName)
  {
    forall w: string, rest: seq<Tok> | Clear(rest)
      ensures if PlainName(w) then WordArg(PrintWord(w) + rest) == GotArg(w, rest)
          else !WordArg(PrintWord(w) + rest).GotArg?
    {
      assert (PrintWord(w) + rest)[0] == Bare(w) && (PrintWord(w) + rest)[1..] == rest;
    }
  }

  function JoinArgs<T>(a: Args<T>, b: Args<T>): Args<T> {
    if b.NoArgs? then a else SnocArg(JoinArgs(a, b.front), b.arg)
  }

  lemma {:induction false} JoinNoArgs<T>(l: Args<T>)
    ensures JoinArgs(NoArgs, l) == l
  {
    if l.SnocArg? {
      JoinNoArgs(l.front);
    }
  }

  /** One step of the loop over arguments. */
  lemma ArgStep<T(!new)>(p: ArgParser<T>, show: T -> seq<Tok>, plain: T -> bool, acc: Args<T>, a: T, rest: seq<Tok>)
    requires Reads(p, show, plain) && Clear(rest)
    ensures Clear(show(a) + rest)
    ensures plain(a) ==> ParseArgs(p, acc, show(a) + rest) == ParseArgs(p, SnocArg(acc, a), rest)
    ensures !plain(a) ==> Expect(ParseArgs(p, acc, show(a) + rest), RCurly).Fail?
  {
    var ts := show(a) + rest;
    assert show(a) != [] && Clear(show(a)) && show(a)[0] != RCurly;
    assert ts[0] == show(a)[0] && |rest| < |ts|;
  }

  lemma {:induction false} ArgsBack<T(!new)>(p: ArgParser<T>, show: T -> seq<Tok>, plain: T -> bool, acc: Args<T>,
                                      l: Args<T>, rest: seq<Tok>)
    requires Reads(p, show, plain) && Clear(rest)
    ensures PlainArgs(l, plain) ==> ParseArgs(p, acc, PrintArgs(l, show) + rest) == ParseArgs(p, JoinArgs(acc, l), rest)
    ensures !PlainArgs(l, plain) ==> Expect(ParseArgs(p, acc, PrintArgs(l, show) + rest), RCurly).Fail?
  {
    if l.NoArgs? {
      assert [] + rest == rest;
    } else {
      var ts := show(l.arg) + rest;
      SeqAssoc(PrintArgs(l.front, show), show(l.arg), rest);
      ArgStep(p, show, plain, JoinArgs(acc, l.front), l.arg, rest);
      ArgsBack(p, show, plain, acc, l.front, ts);
    }
  }

  lemma ArgsClosed<T(!new)>(p: ArgParser<T>, show: T -> seq<Tok>, plain: T -> bool, l: Args<T>, rest: seq<Tok>)
    requires Reads(p, show, plain) && p([RCurly] + rest) == NoArg
    ensures var r := Expect(ParseArgs(p, NoArgs, PrintArgs(l, show) + ([RCurly] + rest)), RCurly);
            if PlainArgs(l, plain) then r == Done(l, rest) else r.Fail?
    ensures PlainArgs(l, plain)
        ==> ParseArgs(p, NoArgs, PrintArgs(l, show) + ([RCurly] + rest)) == Done(l, [RCurly] + rest)
  {
    ArgsBack(p, show, plain, NoArgs, l, [RCurly] + rest);
    JoinNoArgs(l);
    assert ([RCurly] + rest)[1..] == rest;
  }

  lemma BracedTokens<T>(k: Keyword, l: Args<T>, show: T -> seq<Tok>, rest: seq<Tok>)
    ensures var ts := PrintBraced(k, l, show) + rest;
            ts[0] == Key(k) && ts[1..] == [LCurly] + (PrintArgs(l, show) + ([RCurly] + rest))
  {
    SeqAssoc(PrintArgs(l, show), [RCurly], rest);
  }

  /** A braced list is read back exactly when its arguments are plain. */
  lemma ListBack<T(!new)>(p: ArgParser<T>, show: T -> seq<Tok>, plain: T -> bool, l: Args<T>, rest: seq<Tok>)
    requires Reads(p, show, plain) && p([RCurly] + rest) == NoArg
    ensures var r := ParseList(p, [LCurly] + (PrintArgs(l, show) + ([RCurly] + rest)));
            if PlainArgs(l, plain) then r == Done(l, rest) else r.Fail?
  {
    var ts := PrintArgs(l, show) + ([RCurly] + rest);
    assert ([LCurly] + ts)[1..] == ts;
    ArgsClosed(p, show, plain, l, rest);
  }

  lemma NotBraced(l: Args<PortArg>, rest: seq<Tok>)
    ensures !At(PrintArgs(l, PrintPort) + ([RCurly] + rest), LCurly)
    decreases l
  {
    if l.SnocArg? {
      NotBracedPrefix(l, [RCurly] + rest);
    }
  }

  lemma {:induction false} NotBracedPrefix(l: Args<PortArg>, ts: seq<Tok>)
    requires l.SnocArg?
    ensures !At(PrintArgs(l, PrintPort) + ts, LCurly)
  {
    if l.front.SnocArg? {
      NotBracedPrefix(l.front, PrintPort(l.arg) + ts);
      SeqAssoc(PrintArgs(l.front, PrintPort), PrintPort(l.arg), ts);
    } else {
      assert PrintArgs(l, PrintPort) == [] + PrintPort(l.arg) == PrintPort(l.arg);
    }
  }

  lemma PortsBack(l: Args<PortArg>, rest: seq<Tok>)
    ensures var r := ParsePorts([LCurly] + (PrintArgs(l, PrintPort) + ([RCurly] + rest)));
            if l.SnocArg? && PlainArgs(l, PlainPort) then r == Done(l, rest) else r.Fail?
  {
    var ts := PrintArgs(l, PrintPort) + ([RCurly] + rest);
    assert ([LCurly] + ts)[1..] == ts;
    PortsRead();
    NotBraced(l, rest);
    ArgsClosed(PortAt, PrintPort, PlainPort, l, rest);
    assert ([RCurly] + rest)[1..] == rest;
  }

  // ----- specifiers that start with a keyword -----

  predicate IsNested(s: Specifier) { s.Compound? || s.Chaingroup? }

  /** What may follow a specifier: the word `text` would belong to a log option. */
  predicate Follows(ts: seq<Tok>) { !At(ts, Key(TEXT)) }

  lemma IfacesBack(d: Direction, l: Args<string>, rest: seq<Tok>)
    ensures var s := DirectionArgs(d, l);
            var r := ParseSpecifier(PrintSpecifier(s) + rest); if Reprintable(s) then r == Done(s, rest) else r.Fail?
  {
    WordsRead();
    BracedTokens(if d == Input then INPUT else OUTPUT, l, PrintWord, rest);
    ListBack(WordArg, PrintWord, PlainName, l, rest);
  }

  lemma HostsBack(source: bool, l: Args<HostArg>, rest: seq<Tok>)
    ensures var s := HostArgs(source, l);
            var r := ParseSpecifier(PrintSpecifier(s) + rest); if Reprintable(s) then r == Done(s, rest) else r.Fail?
  {
    HostsRead();
    BracedTokens(if source then SOURCE else DEST, l, PrintHost, rest);
    ListBack(HostAt, PrintHost, PlainHost, l, rest);
  }

  lemma PortListBack(source: bool, l: Args<PortArg>, rest: seq<Tok>)
    ensures var s := PortArgs(source, l);
            var r := ParseSpecifier(PrintSpecifier(s) + rest); if Reprintable(s) then r == Done(s, rest) else r.Fail?
  {
    BracedTokens(if source then SPORT else DPORT, l, PrintPort, rest);
    PortsBack(l, rest);
  }

  lemma ProtocolsBack(l: Args<string>, rest: seq<Tok>)
    ensures var s := ProtocolArgs(l);
            var r := ParseSpecifier(PrintSpecifier(s) + rest); if Reprintable(s) then r == Done(s, rest) else r.Fail?
  {
    WordsRead();
    BracedTokens(PROTO, l, PrintWord, rest);
    ListBack(WordArg, PrintWord, PlainName, l, rest);
  }

  lemma TypesBack(l: Args<string>, rest: seq<Tok>)
    ensures var s := IcmpArgs(l);
            var r := ParseSpecifier(PrintSpecifier(s) + rest); if Reprintable(s) then r == Done(s, rest) else r.Fail?
  {
    WordsRead();
    BracedTokens(ICMPTYPE, l, PrintWord, rest);
    ListBack(WordArg, PrintWord, PlainName, l, rest);
  }

  lemma TargetBack(t: TargetName, rest: seq<Tok>)
    ensures var s := TargetArg(t);
            var r := ParseSpecifier(PrintSpecifier(s) + rest); if Reprintable(s) then r == Done(s, rest) else r.Fail?
  {
    var ts := [PrintTarget(t)] + rest;
    assert ts[0] == PrintTarget(t) && ts[1..] == rest;
  }

  /** A specifier without a list of alternatives is read back exactly when it is reprintable. */
  lemma KeywordBack(s: Specifier, rest: seq<Tok>)
    requires !IsNested(s) && Follows(rest)
    ensures var r := ParseSpecifier(PrintSpecifier(s) + rest); if Reprintable(s) then r == Done(s, rest) else r.Fail?
  {
    match s
    case DirectionArgs(d, l) => IfacesBack(d, l, rest);
    case HostArgs(source, l) => HostsBack(source, l, rest);
    case PortArgs(source, l) => PortListBack(source, l, rest);
    case ProtocolArgs(l) => ProtocolsBack(l, rest);
    case IcmpArgs(l) => TypesBack(l, rest);
    case TargetArg(t) => TargetBack(t, rest);
    case OptionArg(o) => OptionBack(o, rest);
    case _ =>
  }

  lemma OptionBack(o: OptionName, rest: seq<Tok>)
    requires Follows(rest)
    ensures ParseSpecifier(PrintOption(o) + rest) == Done(OptionArg(o), rest)
  {
    var ts := PrintOption(o) + rest;
    if o.LogOption? && o.message.Some? {
      assert ts[0] == Key(LOG) && ts[1..][0] == Key(TEXT) && ts[1..][1] == Word(o.message.value)
          && ts[1..][2..] == rest;
    } else {
      assert ts[1..] == rest;
    }
  }

  // ----- how a printed specifier begins -----

  predicate AtWord(ts: seq<Tok>) { ts != [] && ts[0].Word? }

  predicate Stops(ts: seq<Tok>) { At(ts, Semicolon) || At(ts, RCurly) || At(ts, RSquare) }

  lemma Beginning(n: Negated, rest: seq<Tok>)
    ensures var ts := PrintNegated(n) + rest;
            Follows(ts) && ts != [] && (Reprintable(n.spec) ==> Begins(ts) && !AtWord(ts))
  {
    var ts := PrintSpecifier(n.spec) + rest;
    assert PrintSpecifier(n.spec) != [] && ts[0] == PrintSpecifier(n.spec)[0];
    assert (PrintNegated(n) + rest)[0] == if n.negated then Bang else ts[0];
  }

  lemma {:induction false} NoWordFirst(l: Specifiers, rest: seq<Tok>)
    requires ReprintableSpecifiers(l) && !AtWord(rest)
    ensures !AtWord(PrintSpecifiers(l) + rest)
  {
    if l.NoSpecifiers? {
      assert [] + rest == rest;
    } else {
      Beginning(l.last, rest);
      NoWordFirst(l.front, PrintNegated(l.last) + rest);
      SeqAssoc(PrintSpecifiers(l.front), PrintNegated(l.last), rest);
    }
  }

  lemma {:induction false} NoWordIn(l: Subrules, rest: seq<Tok>)
    requires ReprintableSubrules(l) && !AtWord(rest)
    ensures !AtWord(PrintSubrules(l) + rest)
  {
    match l
    case OneSubrule(s) => NoWordFirst(s, rest);
    case SnocSubrule(f, s) =>
      NoWordIn(f, [Semicolon] + PrintSpecifiers(s) + rest);
      SeqAssoc(PrintSubrules(f), [Semicolon] + PrintSpecifiers(s), rest);
  }

  // ----- lists that have been extended -----

  function Join(a: Specifiers, b: Specifiers): Specifiers {
    if b.NoSpecifiers? then a else SnocSpecifier(Join(a, b.front), b.last)
  }

  lemma {:induction false} JoinNone(l: Specifiers)
    ensures Join(NoSpecifiers, l) == l
  {
    if l.SnocSpecifier? {
      JoinNone(l.front);
    }
  }

  function Length(l: Specifiers): nat { if l.NoSpecifiers? then 0 else 1 + Length(l.front) }

  /** `l` is `p`, or `p` with more specifiers behind it. */
  predicate Extends(l: Specifiers, p: Specifiers) {
    l == p || (l.SnocSpecifier? && Extends(l.front, p))
  }

  lemma {:induction false} ExtendsLonger(l: Specifiers, p: Specifiers)
    requires Extends(l, p)
    ensures Length(p) <= Length(l) && (Length(p) == Length(l) ==> p == l)
    ensures p.SnocSpecifier? ==> Extends(l, p.front)
  {
    if l != p {
      ExtendsLonger(l.front, p);
    }
  }

  /** Two beginnings of equal length are equal. */
  lemma {:induction false} ExtendsUnique(l: Specifiers, p: Specifiers, q: Specifiers)
    requires Extends(l, p) && Extends(l, q) && Length(p) == Length(q)
    ensures p == q
  {
    ExtendsLonger(l, p);
    ExtendsLonger(l, q);
    if l != p && l != q {
      ExtendsUnique(l.front, p, q);
    }
  }

  lemma {:induction false} ExtendsTrans(l: Specifiers, p: Specifiers, q: Specifiers)
    requires Extends(l, p) && Extends(p, q)
    ensures Extends(l, q)
  {
    if l != p {
      ExtendsTrans(l.front, p, q);
    }
  }

  lemma {:induction false} SpecifiersGrow(acc: Specifiers, ts: seq<Tok>)
    ensures ParseSpecifiers(acc, ts).Done? ==> Extends(ParseSpecifiers(acc, ts).value, acc)
    decreases |ts|
  {
    if Begins(ts) && ParseNegated(ts).Done? {
      var next := SnocSpecifier(acc, ParseNegated(ts).value);
      SpecifiersGrow(next, ParseNegated(ts).rest);
      if ParseSpecifiers(acc, ts).Done? {
        ExtendsTrans(ParseSpecifiers(acc, ts).value, next, acc);
      }
    }
  }

  // ----- specifiers, forth and back -----

  lemma {:induction false} SpecifierBack(s: Specifier, rest: seq<Tok>)
    requires Reprintable(s) && Follows(rest)
    ensures ParseSpecifier(PrintSpecifier(s) + rest) == Done(s, rest)
    decreases s, 0
  {
    match s
    case Compound(l) =>
      var ts := PrintSubrules(l) + ([RCurly] + rest);
      NestedTokens([LCurly], l, RCurly, rest);
      SubrulesClosed(l, RCurly, rest);
    case Chaingroup(name, l) =>
      var ts := PrintSubrules(l) + ([RSquare] + rest);
      NestedTokens([LSquare] + (if name.Some? then [Word(name.value)] else []), l, RSquare, rest);
      SeqAssoc([LSquare], if name.Some? then [Word(name.value)] else [], PrintSubrules(l) + [RSquare]);
      SubrulesClosed(l, RSquare, rest);
      NoWordIn(l, [RSquare] + rest);
    case _ => KeywordBack(s, rest);
  }

  lemma NestedTokens(open: seq<Tok>, l: Subrules, close: Tok, rest: seq<Tok>)
    requires 1 <= |open| <= 2
    ensures var ts := open + (PrintSubrules(l) + [close]) + rest;
            ts[..|open|] == open && ts[|open|..] == PrintSubrules(l) + ([close] + rest)
  {
    SeqAssoc(open, PrintSubrules(l) + [close], rest);
    SeqAssoc(PrintSubrules(l), [close], rest);
  }

  lemma {:induction false} SubrulesClosed(l: Subrules, close: Tok, rest: seq<Tok>)
    requires ReprintableSubrules(l) && (close == RCurly || close == RSquare)
    ensures Expect(ParseSubrules(PrintSubrules(l) + ([close] + rest)), close) == Done(l, rest)
    decreases l, 2
  {
    var r := [close] + rest;
    SubrulesBack(l, r);
    assert r[0] == close && r[1..] == rest;
  }

  lemma {:induction false} NegatedBack(n: Negated, rest: seq<Tok>)
    requires Reprintable(n.spec) && Follows(rest)
    ensures ParseNegated(PrintNegated(n) + rest) == Done(n, rest)
    decreases n, 1
  {
    var ts := PrintSpecifier(n.spec) + rest;
    SpecifierBack(n.spec, rest);
    Beginning(n.(negated := false), rest);
    if n.negated {
      assert PrintNegated(n) + rest == [Bang] + ts && ([Bang] + ts)[1..] == ts;
    } else {
      assert PrintNegated(n) + rest == ts;
      assert !At(ts, Bang) by { assert ts[0] == PrintSpecifier(n.spec)[0]; }
    }
  }

  lemma {:induction false} SpecifiersBack(acc: Specifiers, l: Specifiers, rest: seq<Tok>)
    requires ReprintableSpecifiers(l) && Follows(rest)
    ensures ParseSpecifiers(acc, PrintSpecifiers(l) + rest) == ParseSpecifiers(Join(acc, l), rest)
    decreases l, 0
  {
    if l.NoSpecifiers? {
      assert [] + rest == rest;
    } else {
      var ts := PrintNegated(l.last) + rest;
      SeqAssoc(PrintSpecifiers(l.front), PrintNegated(l.last), rest);
      Beginning(l.last, rest);
      SpecifiersBack(acc, l.front, ts);
      NegatedBack(l.last, rest);
    }
  }

  lemma {:induction false} SubrulesBack(l: Subrules, rest: seq<Tok>)
    requires ReprintableSubrules(l) && Stops(rest)
    ensures ParseSubrules(PrintSubrules(l) + rest) == ParseMore(l, rest)
    decreases l, 1
  {
    match l
    case OneSubrule(s) =>
      SpecifiersBack(NoSpecifiers, s, rest);
      JoinNone(s);
    case SnocSubrule(f, s) =>
      var ts := [Semicolon] + PrintSpecifiers(s) + rest;
      SeqAssoc(PrintSubrules(f), [Semicolon] + PrintSpecifiers(s), rest);
      SubrulesBack(f, ts);
      assert ts[1..] == PrintSpecifiers(s) + rest;
      SpecifiersBack(NoSpecifiers, s, rest);
      JoinNone(s);
  }

  // ----- what cannot be read back -----

  /** The result of parsing is not `x`. */
  predicate Misread<T(==)>(r: Parsed<T>, x: T) { r.Done? ==> r.value != x }

  predicate MisreadList(r: Parsed<Specifiers>, l: Specifiers) { r.Done? ==> !Extends(r.value, l) }

  lemma {:induction false} SpecifierBad(s: Specifier, rest: seq<Tok>)
    requires !Reprintable(s) && Follows(rest)
    ensures Misread(ParseSpecifier(PrintSpecifier(s) + rest), s)
    decreases s, 0
  {
    match s
    case Compound(l) =>
      NestedTokens([LCurly], l, RCurly, rest);
      SubrulesBad(l, [RCurly] + rest);
      assert ([LCurly] + (PrintSubrules(l) + [RCurly]) + rest)[0] == LCurly;
    case Chaingroup(name, l) =>
      var open := [LSquare] + (if name.Some? then [Word(name.value)] else []);
      var ts := PrintSpecifier(s) + rest;
      NestedTokens(open, l, RSquare, rest);
      SeqAssoc([LSquare], if name.Some? then [Word(name.value)] else [], PrintSubrules(l) + [RSquare]);
      SubrulesBad(l, [RSquare] + rest);
      assert ts[0] == LSquare;
      assert name.Some? ==> ts[1] == Word(name.value);
    case _ => KeywordBack(s, rest);
  }

  lemma {:induction false} NegatedBad(n: Negated, rest: seq<Tok>)
    requires !Reprintable(n.spec) && Follows(rest)
    ensures Misread(ParseNegated(PrintNegated(n) + rest), n)
    decreases n, 1
  {
    var ts := PrintSpecifier(n.spec) + rest;
    SpecifierBad(n.spec, rest);
    if n.negated {
      assert PrintNegated(n) + rest == [Bang] + ts && ([Bang] + ts)[1..] == ts;
    } else {
      assert PrintNegated(n) + rest == ts;
      assert ts[0] == PrintSpecifier(n.spec)[0];
    }
  }

  lemma {:induction false} SpecifiersBad(acc: Specifiers, l: Specifiers, rest: seq<Tok>)
    requires !ReprintableSpecifiers(l) && Follows(rest)
    ensures MisreadList(ParseSpecifiers(acc, PrintSpecifiers(l) + rest), Join(acc, l))
    decreases l, 0
  {
    var ts := PrintNegated(l.last) + rest;
    var r := ParseSpecifiers(acc, PrintSpecifiers(l) + rest);
    SeqAssoc(PrintSpecifiers(l.front), PrintNegated(l.last), rest);
    Beginning(l.last, rest);
    if !ReprintableSpecifiers(l.front) {
      SpecifiersBad(acc, l.front, ts);
      if r.Done? && Extends(r.value, Join(acc, l)) {
        ExtendsLonger(r.value, Join(acc, l));
      }
    } else {
      SpecifiersBack(acc, l.front, ts);
      NegatedBad(l.last, rest);
      LastMisread(Join(acc, l.front), l.last, ts);
    }
  }

  lemma LastMisread(acc: Specifiers, n: Negated, ts: seq<Tok>)
    requires Misread(ParseNegated(ts), n)
    ensures MisreadList(ParseSpecifiers(acc, ts), SnocSpecifier(acc, n))
  {
    var r := ParseSpecifiers(acc, ts);
    if r.Done? && Extends(r.value, SnocSpecifier(acc, n)) {
      ExtendsLonger(r.value, SnocSpecifier(acc, n));
      if Begins(ts) {
        var next := SnocSpecifier(acc, ParseNegated(ts).value);
        SpecifiersGrow(next, ParseNegated(ts).rest);
        ExtendsUnique(r.value, next, SnocSpecifier(acc, n));
      }
    }
  }

  // The same notions for lists of alternatives.

  function SubLength(l: Subrules): nat {
    match l case OneSubrule(_) => 1 case SnocSubrule(f, _) => 1 + SubLength(f)
  }

  predicate SubExtends(l: Subrules, p: Subrules) {
    l == p || (l.SnocSubrule? && SubExtends(l.front, p))
  }

  lemma {:induction false} SubLonger(l: Subrules, p: Subrules)
    requires SubExtends(l, p)
    ensures SubLength(p) <= SubLength(l) && (SubLength(p) == SubLength(l) ==> p == l)
    ensures p.SnocSubrule? ==> SubExtends(l, p.front)
  {
    if l != p {
      SubLonger(l.front, p);
    }
  }

  lemma {:induction false} SubUnique(l: Subrules, p: Subrules, q: Subrules)
    requires SubExtends(l, p) && SubExtends(l, q) && SubLength(p) == SubLength(q)
    ensures p == q
  {
    SubLonger(l, p);
    SubLonger(l, q);
    if l != p && l != q {
      SubUnique(l.front, p, q);
    }
  }

  lemma {:induction false} SubTrans(l: Subrules, p: Subrules, q: Subrules)
    requires SubExtends(l, p) && SubExtends(p, q)
    ensures SubExtends(l, q)
  {
    if l != p {
      SubTrans(l.front, p, q);
    }
  }

  lemma {:induction false} MoreGrows(acc: Subrules, ts: seq<Tok>)
    ensures ParseMore(acc, ts).Done? ==> SubExtends(ParseMore(acc, ts).value, acc)
    decreases |ts|
  {
    if At(ts, Semicolon) {
      var r := ParseSpecifiers(NoSpecifiers, ts[1..]);
      if r.Done? {
        MoreGrows(SnocSubrule(acc, r.value), r.rest);
        if ParseMore(acc, ts).Done? {
          SubTrans(ParseMore(acc, ts).value, SnocSubrule(acc, r.value), acc);
        }
      }
    }
  }

  lemma {:induction false} SubrulesBad(l: Subrules, rest: seq<Tok>)
    requires !ReprintableSubrules(l) && Stops(rest)
    ensures var r := ParseSubrules(PrintSubrules(l) + rest); r.Done? ==> !SubExtends(r.value, l) && r.value != l
    decreases l, 1
  {
    var r := ParseSubrules(PrintSubrules(l) + rest);
    match l
    case OneSubrule(s) =>
      SpecifiersBad(NoSpecifiers, s, rest);
      JoinNone(s);
      var q := ParseSpecifiers(NoSpecifiers, PrintSpecifiers(s) + rest);
      if r.Done? && SubExtends(r.value, l) {
        MoreGrows(OneSubrule(q.value), q.rest);
        SubUnique(r.value, OneSubrule(q.value), l);
      }
    case SnocSubrule(f, s) =>
      var ts := [Semicolon] + PrintSpecifiers(s) + rest;
      SeqAssoc(PrintSubrules(f), [Semicolon] + PrintSpecifiers(s), rest);
      if !ReprintableSubrules(f) {
        SubrulesBad(f, ts);
        if r.Done? && SubExtends(r.value, l) {
          SubLonger(r.value, l);
        }
      } else {
        SubrulesBack(f, ts);
        assert ts[1..] == PrintSpecifiers(s) + rest;
        SpecifiersBad(NoSpecifiers, s, rest);
        JoinNone(s);
        var q := ParseSpecifiers(NoSpecifiers, ts[1..]);
        if r.Done? && SubExtends(r.value, l) {
          MoreGrows(SnocSubrule(f, q.value), q.rest);
          SubUnique(r.value, SnocSubrule(f, q.value), l);
        }
      }
  }

  // And for lists of rules.

  function JoinRules(a: RuleList, b: RuleList): RuleList {
    if b.NoRules? then a else SnocRule(JoinRules(a, b.front), b.rule)
  }

  function RuleCount(l: RuleList): nat { if l.NoRules? then 0 else 1 + RuleCount(l.front) }

  predicate RulesExtend(l: RuleList, p: RuleList) {
    l == p || (l.SnocRule? && RulesExtend(l.front, p))
  }

  lemma {:induction false} RulesLonger(l: RuleList, p: RuleList)
    requires RulesExtend(l, p)
    ensures RuleCount(p) <= RuleCount(l) && (RuleCount(p) == RuleCount(l) ==> p == l)
    ensures p.SnocRule? ==> RulesExtend(l, p.front)
  {
    if l != p {
      RulesLonger(l.front, p);
    }
  }

  lemma {:induction false} RulesUnique(l: RuleList, p: RuleList, q: RuleList)
    requires RulesExtend(l, p) && RulesExtend(l, q) && RuleCount(p) == RuleCount(q)
    ensures p == q
  {
    RulesLonger(l, p);
    RulesLonger(l, q);
    if l != p && l != q {
      RulesUnique(l.front, p, q);
    }
  }

  lemma {:induction false} RulesTrans(l: RuleList, p: RuleList, q: RuleList)
    requires RulesExtend(l, p) && RulesExtend(p, q)
    ensures RulesExtend(l, q)
  {
    if l != p {
      RulesTrans(l.front, p, q);
    }
  }

  lemma {:induction false} RulesGrow(acc: RuleList, ts: seq<Tok>)
    ensures ParseRules(acc, ts).Done? ==> RulesExtend(ParseRules(acc, ts).value, acc)
    decreases |ts|
  {
    if ts != [] {
      var r := Expect(ParseSpecifiers(NoSpecifiers, ts), Semicolon);
      if r.Done? {
        RulesGrow(SnocRule(acc, r.value), r.rest);
        if ParseRules(acc, ts).Done? {
          RulesTrans(ParseRules(acc, ts).value, SnocRule(acc, r.value), acc);
        }
      }
    }
  }

  lemma {:induction false} JoinNoRules(l: RuleList)
    ensures JoinRules(NoRules, l) == l
  {
    if l.SnocRule? {
      JoinNoRules(l.front);
    }
  }

  /** One rule: it is read back exactly when it is reprintable. */
  lemma RuleBack(l: Specifiers, rest: seq<Tok>)
    ensures var ts := PrintSpecifiers(l) + ([Semicolon] + rest);
            var r := Expect(ParseSpecifiers(NoSpecifiers, ts), Semicolon);
            if ReprintableSpecifiers(l) then r == Done(l, rest) else Misread(r, l)
  {
    var end := [Semicolon] + rest;
    assert end[1..] == rest;
    JoinNone(l);
    if ReprintableSpecifiers(l) {
      SpecifiersBack(NoSpecifiers, l, end);
    } else {
      SpecifiersBad(NoSpecifiers, l, end);
    }
  }

  lemma {:induction false} RulesBack(acc: RuleList, l: RuleList, rest: seq<Tok>)
    requires ReprintableRules(l)
    ensures ParseRules(acc, PrintRules(l) + rest) == ParseRules(JoinRules(acc, l), rest)
    decreases l
  {
    if l.NoRules? {
      assert [] + rest == rest;
    } else {
      var ts := PrintSpecifiers(l.rule) + ([Semicolon] + rest);
      SeqAssoc(PrintRules(l.front), PrintSpecifiers(l.rule) + [Semicolon], rest);
      SeqAssoc(PrintSpecifiers(l.rule), [Semicolon], rest);
      RulesBack(acc, l.front, ts);
      RuleBack(l.rule, rest);
    }
  }

  lemma {:induction false} RulesBad(acc: RuleList, l: RuleList, rest: seq<Tok>)
    requires !ReprintableRules(l)
    ensures var r := ParseRules(acc, PrintRules(l) + rest); r.Done? ==> !RulesExtend(r.value, JoinRules(acc, l))
    decreases l
  {
    var ts := PrintSpecifiers(l.rule) + ([Semicolon] + rest);
    var r := ParseRules(acc, PrintRules(l) + rest);
    SeqAssoc(PrintRules(l.front), PrintSpecifiers(l.rule) + [Semicolon], rest);
    SeqAssoc(PrintSpecifiers(l.rule), [Semicolon], rest);
    if !ReprintableRules(l.front) {
      RulesBad(acc, l.front, ts);
      if r.Done? && RulesExtend(r.value, JoinRules(acc, l)) {
        RulesLonger(r.value, JoinRules(acc, l));
      }
    } else {
      RulesBack(acc, l.front, ts);
      RuleBack(l.rule, rest);
      LastRuleMisread(JoinRules(acc, l.front), l.rule, ts);
    }
  }

  lemma LastRuleMisread(acc: RuleList, l: Specifiers, ts: seq<Tok>)
    requires ts != [] && Misread(Expect(ParseSpecifiers(NoSpecifiers, ts), Semicolon), l)
    ensures var r := ParseRules(acc, ts); r.Done? ==> !RulesExtend(r.value, SnocRule(acc, l))
  {
    var r := ParseRules(acc, ts);
    if r.Done? && RulesExtend(r.value, SnocRule(acc, l)) {
      var q := Expect(ParseSpecifiers(NoSpecifiers, ts), Semicolon);
      RulesGrow(SnocRule(acc, q.value), q.rest);
      RulesUnique(r.value, SnocRule(acc, q.value), SnocRule(acc, l));
    }
  }

  /** The round trip succeeds exactly for the reprintable trees. */
  lemma {:induction false} PrintThenParse(ast: RuleList)
    ensures Parse(PrintRules(ast)) == Done(ast, []) <==> ReprintableRules(ast)
  {
    assert PrintRules(ast) + [] == PrintRules(ast);
    JoinNoRules(ast);
    if ReprintableRules(ast) {
      RulesBack(NoRules, ast, []);
    } else {
      RulesBad(NoRules, ast, []);
    }
  }

  /** So no two reprintable trees are printed alike. */
  lemma PrintIsInjective(a: RuleList, b: RuleList)
    requires ReprintableRules(a) && ReprintableRules(b) && PrintRules(a) == PrintRules(b)
    ensures a == b
  {
    PrintThenParse(a);
    PrintThenParse(b);
  }

  // ----- what the grammar can build -----

  /** Every port list has a member. */
  predicate PortsGiven(s: Specifier) {
    match s
    case Compound(l) => PortsInSubrules(l)
    case PortArgs(_, l) => l.SnocArg?
    case Chaingroup(_, l) => PortsInSubrules(l)
    case _ => true
  }

  predicate PortsInSpecifiers(l: Specifiers) {
    l.SnocSpecifier? ==> PortsInSpecifiers(l.front) && PortsGiven(l.last.spec)
  }

  predicate PortsInSubrules(l: Subrules) {
    match l
    case OneSubrule(s) => PortsInSpecifiers(s)
    case SnocSubrule(f, s) => PortsInSubrules(f) && PortsInSpecifiers(s)
  }

  predicate PortsInRules(l: RuleList) {
    l.SnocRule? ==> PortsInRules(l.front) && PortsInSpecifiers(l.rule)
  }

  lemma {:induction false} PortsNonempty(ts: seq<Tok>)
    ensures ParsePorts(ts).Done? ==> ParsePorts(ts).value.SnocArg?
    decreases |ts|
  {
    if At(ts, LCurly) {
      PortsNonempty(ts[1..]);
    }
  }

  lemma {:induction false} SpecifierPorts(ts: seq<Tok>)
    ensures ParseSpecifier(ts).Done? ==> PortsGiven(ParseSpecifier(ts).value)
    decreases |ts|, 0
  {
    if ts != [] && ts[0].Key? {
      PortsNonempty(ts[1..]);
    } else if |ts| > 1 && ts[0] == LSquare && ts[1].Word? {
      SubrulesPorts(ts[2..]);
    } else if ts != [] {
      SubrulesPorts(ts[1..]);
    }
  }

  lemma {:induction false} SpecifiersPorts(acc: Specifiers, ts: seq<Tok>)
    requires PortsInSpecifiers(acc)
    ensures ParseSpecifiers(acc, ts).Done? ==> PortsInSpecifiers(ParseSpecifiers(acc, ts).value)
    decreases |ts|, 1
  {
    if Begins(ts) {
      SpecifierPorts(ts);
      SpecifierPorts(ts[1..]);
      if ParseNegated(ts).Done? {
        SpecifiersPorts(SnocSpecifier(acc, ParseNegated(ts).value), ParseNegated(ts).rest);
      }
    }
  }

  lemma {:induction false} SubrulesPorts(ts: seq<Tok>)
    ensures ParseSubrules(ts).Done? ==> PortsInSubrules(ParseSubrules(ts).value)
    decreases |ts|, 3
  {
    SpecifiersPorts(NoSpecifiers, ts);
    var r := ParseSpecifiers(NoSpecifiers, ts);
    if r.Done? {
      MorePorts(OneSubrule(r.value), r.rest);
    }
  }

  lemma {:induction false} MorePorts(acc: Subrules, ts: seq<Tok>)
    requires PortsInSubrules(acc)
    ensures ParseMore(acc, ts).Done? ==> PortsInSubrules(ParseMore(acc, ts).value)
    decreases |ts|, 2
  {
    if At(ts, Semicolon) {
      SpecifiersPorts(NoSpecifiers, ts[1..]);
      var r := ParseSpecifiers(NoSpecifiers, ts[1..]);
      if r.Done? {
        MorePorts(SnocSubrule(acc, r.value), r.rest);
      }
    }
  }

  /** The parser builds no tree with an empty port list, so for its results only names and `proxy` matter. */
  lemma {:induction false} ParsedPorts(acc: RuleList, ts: seq<Tok>)
    requires PortsInRules(acc)
    ensures ParseRules(acc, ts).Done? ==> PortsInRules(ParseRules(acc, ts).value)
    decreases |ts|
  {
    if ts != [] {
      SpecifiersPorts(NoSpecifiers, ts);
      var r := Expect(ParseSpecifiers(NoSpecifiers, ts), Semicolon);
      if r.Done? {
        ParsedPorts(SnocRule(acc, r.value), r.rest);
      }
    }
  }
}
