/** The grammar of the filter language as a parser: one function per nonterminal, a left-recursive
    list as a loop, and every shift-reduce conflict resolved by shifting. */
module SyntaxParser {
  import opened FilterSpec
  import opened FilterSyntax
  import opened SyntaxTokens

  datatype Parsed<+T> = Fail | Done(value: T, rest: seq<Tok>)

  /** An argument at the head of the tokens, none, or the beginning of one that is cut short. */
  datatype Found<+T> = NoArg | BadArg | GotArg(arg: T, rest: seq<Tok>)

  type ArgParser<!T> = seq<Tok> -> Found<T>

  function WordArg(ts: seq<Tok>): Found<string> {
    if ts != [] && ts[0].Word? then GotArg(ts[0].name, ts[1..]) else NoArg
  }

  /** A name, and a second one if the separator follows. */
  function PairArg(ts: seq<Tok>, sep: Tok): Found<(string, Option<string>)> {
    if ts == [] || !ts[0].Word? then NoArg
    else if |ts| < 2 || ts[1] != sep then GotArg((ts[0].name, None), ts[1..])
    else if |ts| < 3 || !ts[2].Word? then BadArg
    else GotArg((ts[0].name, Some(ts[2].name)), ts[3..])
  }

  function HostAt(ts: seq<Tok>): Found<HostArg> {
    match PairArg(ts, Slash)
    case NoArg => NoArg
    case BadArg => BadArg
    case GotArg(p, rest) => GotArg(HostArg(p.0, p.1), rest)
  }

  function PortAt(ts: seq<Tok>): Found<PortArg> {
    match PairArg(ts, Colon)
    case NoArg => NoArg
    case BadArg => BadArg
    case GotArg(p, rest) => GotArg(PortArg(p.0, p.1), rest)
  }

  /** As many arguments as there are. */
  function ParseArgs<T>(p: ArgParser<T>, acc: Args<T>, ts: seq<Tok>): (r: Parsed<Args<T>>)
    ensures r.Done? ==> |r.rest| <= |ts|
    decreases |ts|
  {
    match p(ts)
    case NoArg => Done(acc, ts)
    case BadArg => Fail
    case GotArg(a, rest) => if |rest| < |ts| then ParseArgs(p, SnocArg(acc, a), rest) else Fail
  }

  function Expect<T>(r: Parsed<T>, t: Tok): (r': Parsed<T>)
    ensures r'.Done? ==> r.Done? && |r'.rest| < |r.rest|
  {
    if r.Done? && r.rest != [] && r.rest[0] == t then Done(r.value, r.rest[1..]) else Fail
  }

  predicate At(ts: seq<Tok>, t: Tok) {
    ts != [] && ts[0] == t
  }

  /** Arguments with or without braces, maybe none: a brace right here is that of the arguments. */
  function ParseList<T>(p: ArgParser<T>, ts: seq<Tok>): (r: Parsed<Args<T>>)
    ensures r.Done? ==> |r.rest| <= |ts|
  {
    if At(ts, LCurly) then Expect(ParseArgs(p, NoArgs, ts[1..]), RCurly) else ParseArgs(p, NoArgs, ts)
  }

  /** Interfaces may also be a lone star, without braces. */
  function ParseIfaces(ts: seq<Tok>): (r: Parsed<Args<string>>)
    ensures r.Done? ==> |r.rest| <= |ts|
  {
    if At(ts, Star) then Done(SnocArg(NoArgs, "*"), ts[1..]) else ParseList(WordArg, ts)
  }

  /** Ports need at least one argument, and their braces may be nested. */
  function ParsePorts(ts: seq<Tok>): (r: Parsed<Args<PortArg>>)
    ensures r.Done? ==> |r.rest| <= |ts|
    decreases |ts|
  {
    if At(ts, LCurly) then Expect(ParsePorts(ts[1..]), RCurly)
    else
      var r := ParseArgs(PortAt, NoArgs, ts);
      if r.Done? && r.value.NoArgs? then Fail else r
  }

  function ParseLog(ts: seq<Tok>): (r: Parsed<Specifier>)
    ensures r.Done? ==> |r.rest| <= |ts|
  {
    if !At(ts, Key(TEXT)) then Done(OptionArg(LogOption(None)), ts)
    else if |ts| > 1 && ts[1].Word? then Done(OptionArg(LogOption(Some(ts[1].name))), ts[2..])
    else Fail
  }

  /** The specifiers that start with a keyword. */
  function ParseKeyword(k: Keyword, ts: seq<Tok>): (r: Parsed<Specifier>)
    ensures r.Done? ==> |r.rest| <= |ts|
  {
    match k
    case ACCEPT => Done(TargetArg(AcceptName), ts)
    case REJECT => Done(TargetArg(RejectName), ts)
    case DROP => Done(TargetArg(DropName), ts)
    case MASQ => Done(TargetArg(MasqName), ts)
    case PROXY => Done(TargetArg(ProxyName), ts)
    case REDIRECT => Done(TargetArg(RedirectName), ts)
    case INPUT => (match ParseIfaces(ts) case Fail => Fail case Done(l, rest) => Done(DirectionArgs(Input, l), rest))
    case OUTPUT => (match ParseIfaces(ts) case Fail => Fail case Done(l, rest) => Done(DirectionArgs(Output, l), rest))
    case SOURCE => (match ParseList(HostAt, ts) case Fail => Fail case Done(l, rest) => Done(HostArgs(true, l), rest))
    case DEST => (match ParseList(HostAt, ts) case Fail => Fail case Done(l, rest) => Done(HostArgs(false, l), rest))
    case SPORT => (match ParsePorts(ts) case Fail => Fail case Done(l, rest) => Done(PortArgs(true, l), rest))
    case DPORT => (match ParsePorts(ts) case Fail => Fail case Done(l, rest) => Done(PortArgs(false, l), rest))
    case PROTO => (match ParseList(WordArg, ts) case Fail => Fail case Done(l, rest) => Done(ProtocolArgs(l), rest))
    case ICMPTYPE => (match ParseList(WordArg, ts) case Fail => Fail case Done(l, rest) => Done(IcmpArgs(l), rest))
    case LOCAL => Done(OptionArg(LocalOption), ts)
    case FORWARD => Done(OptionArg(ForwardOption), ts)
    case ONEWAY => Done(OptionArg(OnewayOption), ts)
    case LOG => ParseLog(ts)
    case TEXT => Fail
  }

  function ParseSpecifier(ts: seq<Tok>): (r: Parsed<Specifier>)
    ensures r.Done? ==> |r.rest| < |ts|
    decreases |ts|, 0
  {
    if ts == [] then Fail
    else
      match ts[0]
      case Key(k) => ParseKeyword(k, ts[1..])
      case LCurly =>
        (match Expect(ParseSubrules(ts[1..]), RCurly) case Fail => Fail case Done(l, rest) => Done(Compound(l), rest))
      case LSquare =>
        if |ts| > 1 && ts[1].Word? then
          (match Expect(ParseSubrules(ts[2..]), RSquare) case Fail => Fail
           case Done(l, rest) => Done(Chaingroup(Some(ts[1].name), l), rest))
        else
          (match Expect(ParseSubrules(ts[1..]), RSquare) case Fail => Fail
           case Done(l, rest) => Done(Chaingroup(None, l), rest))
      case _ => Fail
  }

  function ParseNegated(ts: seq<Tok>): (r: Parsed<Negated>)
    ensures r.Done? ==> |r.rest| < |ts|
    decreases |ts|, 1
  {
    if At(ts, Bang) then (match ParseSpecifier(ts[1..]) case Fail => Fail
                          case Done(s, rest) => Done(Negated(true, s), rest))
    else (match ParseSpecifier(ts) case Fail => Fail case Done(s, rest) => Done(Negated(false, s), rest))
  }

  /** A specifier begins here. */
  predicate Begins(ts: seq<Tok>) {
    ts != [] && (ts[0] == Bang || ts[0] == LCurly || ts[0] == LSquare || (ts[0].Key? && ts[0].key != TEXT))
  }

  function ParseSpecifiers(acc: Specifiers, ts: seq<Tok>): (r: Parsed<Specifiers>)
    ensures r.Done? ==> |r.rest| <= |ts|
    decreases |ts|, 2
  {
    if !Begins(ts) then Done(acc, ts)
    else
      match ParseNegated(ts)
      case Fail => Fail
      case Done(n, rest) => ParseSpecifiers(SnocSpecifier(acc, n), rest)
  }

  function ParseSubrules(ts: seq<Tok>): (r: Parsed<Subrules>)
    ensures r.Done? ==> |r.rest| <= |ts|
    decreases |ts|, 4
  {
    match ParseSpecifiers(NoSpecifiers, ts)
    case Fail => Fail
    case Done(s, rest) => ParseMore(OneSubrule(s), rest)
  }

  function ParseMore(acc: Subrules, ts: seq<Tok>): (r: Parsed<Subrules>)
    ensures r.Done? ==> |r.rest| <= |ts|
    decreases |ts|, 3
  {
    if !At(ts, Semicolon) then Done(acc, ts)
    else
      match ParseSpecifiers(NoSpecifiers, ts[1..])
      case Fail => Fail
      case Done(s, rest) => ParseMore(SnocSubrule(acc, s), rest)
  }

  function ParseRules(acc: RuleList, ts: seq<Tok>): Parsed<RuleList>
    decreases |ts|
  {
    if ts == [] then Done(acc, ts)
    else
      match Expect(ParseSpecifiers(NoSpecifiers, ts), Semicolon)
      case Fail => Fail
      case Done(s, rest) => ParseRules(SnocRule(acc, s), rest)
  }

  function Parse(ts: seq<Tok>): Parsed<RuleList> {
    ParseRules(NoRules, ts)
  }
}
