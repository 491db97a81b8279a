/** Where a source file may end: the parser only ever removes tokens from the front, and every rule
    needs its semicolon, the last one too. */
module RuleEnds {
  import opened FilterSpec
  import opened FilterSyntax
  import opened SyntaxTokens
  import opened SyntaxParser

  /** `rest` is what is left when some tokens of `ts` have been read. */
  predicate EndOf(rest: seq<Tok>, ts: seq<Tok>) {
    |rest| <= |ts| && rest == ts[|ts| - |rest|..]
  }

  /** A parser that reads from the front. */
  ghost predicate FromFront<T>(r: Parsed<T>, ts: seq<Tok>) {
    r.Done? ==> EndOf(r.rest, ts)
  }

  ghost predicate ArgFromFront<T>(p: ArgParser<T>, ts: seq<Tok>) {
    p(ts).GotArg? ==> EndOf(p(ts).rest, ts)
  }

  ghost predicate ArgsEnd<T(!new)>(p: ArgParser<T>) {
    forall ts :: ArgFromFront(p, ts)
  }

  lemma WordsEnd()
    ensures ArgsEnd(WordArg)
  {
  }

  lemma PairEnds(ts: seq<Tok>, sep: Tok)
    ensures PairArg(ts, sep).GotArg? ==> EndOf(PairArg(ts, sep).rest, ts)
  {
  }

  lemma HostsEnd()
    ensures ArgsEnd(HostAt)
  {
    forall ts ensures ArgFromFront(HostAt, ts) { PairEnds(ts, Slash); }
  }

  lemma PortsEnd()
    ensures ArgsEnd(PortAt)
  {
    forall ts ensures ArgFromFront(PortAt, ts) { PairEnds(ts, Colon); }
  }

  lemma EndOfEnd(a: seq<Tok>, b: seq<Tok>, c: seq<Tok>)
    requires EndOf(a, b) && EndOf(b, c)
    ensures EndOf(a, c)
  {
  }

  lemma {:induction false} ArgsFromFront<T(!new)>(p: ArgParser<T>, acc: Args<T>, ts: seq<Tok>)
    requires ArgsEnd(p)
    ensures FromFront(ParseArgs(p, acc, ts), ts)
    decreases |ts|
  {
    var f := p(ts);
    assert ArgFromFront(p, ts);
    if f.GotArg? && |f.rest| < |ts| {
      ArgsFromFront(p, SnocArg(acc, f.arg), f.rest);
      var r := ParseArgs(p, SnocArg(acc, f.arg), f.rest);
      if r.Done? {
        EndOfEnd(r.rest, f.rest, ts);
      }
    }
  }

  lemma ExpectFromFront<T>(r: Parsed<T>, t: Tok, us: seq<Tok>, ts: seq<Tok>)
    requires FromFront(r, us) && EndOf(us, ts)
    ensures FromFront(Expect(r, t), ts)
  {
    if Expect(r, t).Done? {
      EndOfEnd(r.rest, us, ts);
    }
  }

  lemma ListFromFront<T(!new)>(p: ArgParser<T>, ts: seq<Tok>)
    requires ArgsEnd(p)
    ensures FromFront(ParseList(p, ts), ts)
  {
    ArgsFromFront(p, NoArgs, ts);
    if At(ts, LCurly) {
      ArgsFromFront(p, NoArgs, ts[1..]);
      ExpectFromFront(ParseArgs(p, NoArgs, ts[1..]), RCurly, ts[1..], ts);
    }
  }

  lemma {:induction false} PortsFromFront(ts: seq<Tok>)
    ensures FromFront(ParsePorts(ts), ts)
    decreases |ts|
  {
    PortsEnd();
    ArgsFromFront(PortAt, NoArgs, ts);
    if At(ts, LCurly) {
      PortsFromFront(ts[1..]);
      ExpectFromFront(ParsePorts(ts[1..]), RCurly, ts[1..], ts);
    }
  }

  lemma IfacesFromFront(ts: seq<Tok>)
    ensures FromFront(ParseIfaces(ts), ts)
  {
    WordsEnd();
    ListFromFront(WordArg, ts);
  }

  lemma KeywordFromFront(k: Keyword, ts: seq<Tok>)
    ensures FromFront(ParseKeyword(k, ts), ts)
  {
    match k
    case INPUT => IfacesFromFront(ts);
    case OUTPUT => IfacesFromFront(ts);
    case SOURCE => HostsEnd(); ListFromFront(HostAt, ts);
    case DEST => HostsEnd(); ListFromFront(HostAt, ts);
    case SPORT => PortsFromFront(ts);
    case DPORT => PortsFromFront(ts);
    case PROTO => WordsEnd(); ListFromFront(WordArg, ts);
    case ICMPTYPE => WordsEnd(); ListFromFront(WordArg, ts);
    case _ =>
  }

  lemma {:induction false} SpecifierFromFront(ts: seq<Tok>)
    ensures FromFront(ParseSpecifier(ts), ts)
    decreases |ts|, 0
  {
    if ts != [] {
      match ts[0]
      case Key(k) =>
        KeywordFromFront(k, ts[1..]);
        ExtendFront(ParseKeyword(k, ts[1..]), ts[1..], ts);
      case LCurly =>
        SubrulesFromFront(ts[1..]);
        ExpectFromFront(ParseSubrules(ts[1..]), RCurly, ts[1..], ts);
      case LSquare =>
        var us := if |ts| > 1 && ts[1].Word? then ts[2..] else ts[1..];
        SubrulesFromFront(us);
        ExpectFromFront(ParseSubrules(us), RSquare, us, ts);
      case _ =>
    }
  }

  lemma ExtendFront<T>(r: Parsed<T>, us: seq<Tok>, ts: seq<Tok>)
    requires FromFront(r, us) && EndOf(us, ts)
    ensures FromFront(r, ts)
  {
    if r.Done? {
      EndOfEnd(r.rest, us, ts);
    }
  }

  lemma NegatedFromFront(ts: seq<Tok>)
    ensures FromFront(ParseNegated(ts), ts)
    decreases |ts|, 1
  {
    if At(ts, Bang) {
      SpecifierFromFront(ts[1..]);
      ExtendFront(ParseSpecifier(ts[1..]), ts[1..], ts);
    } else {
      SpecifierFromFront(ts);
    }
  }

  lemma {:induction false} SpecifiersFromFront(acc: Specifiers, ts: seq<Tok>)
    ensures FromFront(ParseSpecifiers(acc, ts), ts)
    decreases |ts|, 2
  {
    if Begins(ts) {
      NegatedFromFront(ts);
      var n := ParseNegated(ts);
      if n.Done? {
        SpecifiersFromFront(SnocSpecifier(acc, n.value), n.rest);
        ExtendFront(ParseSpecifiers(SnocSpecifier(acc, n.value), n.rest), n.rest, ts);
      }
    }
  }

  lemma {:induction false} SubrulesFromFront(ts: seq<Tok>)
    ensures FromFront(ParseSubrules(ts), ts)
    decreases |ts|, 4
  {
    SpecifiersFromFront(NoSpecifiers, ts);
    var s := ParseSpecifiers(NoSpecifiers, ts);
    if s.Done? {
      MoreFromFront(OneSubrule(s.value), s.rest);
      ExtendFront(ParseMore(OneSubrule(s.value), s.rest), s.rest, ts);
    }
  }

  lemma {:induction false} MoreFromFront(acc: Subrules, ts: seq<Tok>)
    ensures FromFront(ParseMore(acc, ts), ts)
    decreases |ts|, 3
  {
    if At(ts, Semicolon) {
      SpecifiersFromFront(NoSpecifiers, ts[1..]);
      var s := ParseSpecifiers(NoSpecifiers, ts[1..]);
      if s.Done? {
        var more := SnocSubrule(acc, s.value);
        MoreFromFront(more, s.rest);
        assert ParseMore(acc, ts) == ParseMore(more, s.rest);
        TwoFronts(ParseMore(more, s.rest), s.rest, ts);
      }
    }
  }

  lemma TwoFronts<T>(r: Parsed<T>, us: seq<Tok>, ts: seq<Tok>)
    requires ts != [] && FromFront(r, us) && EndOf(us, ts[1..])
    ensures FromFront(r, ts)
  {
    EndOfEnd(us, ts[1..], ts);
    ExtendFront(r, us, ts);
  }

  lemma LastOfEnd(rest: seq<Tok>, ts: seq<Tok>)
    requires EndOf(rest, ts) && rest != []
    ensures ts != [] && ts[|ts| - 1] == rest[|rest| - 1]
  {
  }

  lemma FirstRule(acc: RuleList, ts: seq<Tok>) returns (s: Parsed<Specifiers>)
    requires ParseRules(acc, ts).Done? && ts != []
    ensures s.Done? && EndOf(s.rest, ts) && s.rest != [] && s.rest[0] == Semicolon && |s.rest| <= |ts|
    ensures ParseRules(SnocRule(acc, s.value), s.rest[1..]).Done?
  {
    s := ParseSpecifiers(NoSpecifiers, ts);
    SpecifiersFromFront(NoSpecifiers, ts);
  }

  /** A source file that parses is empty or ends with a semicolon: no file whose last rule lacks it
      is accepted. */
  lemma {:induction false} LastSemicolon(acc: RuleList, ts: seq<Tok>)
    requires ParseRules(acc, ts).Done? && ts != []
    ensures ts[|ts| - 1] == Semicolon
    decreases |ts|
  {
    var s := FirstRule(acc, ts);
    LastOfEnd(s.rest, ts);
    if |s.rest| > 1 {
      LastSemicolon(SnocRule(acc, s.value), s.rest[1..]);
    }
  }
}
