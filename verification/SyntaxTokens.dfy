/** The tokens of the filter language and the printer of syntax trees. */
module SyntaxTokens {
  import opened FilterSpec
  import opened FilterSyntax

  datatype Keyword =
    | ACCEPT | DEST | DPORT | DROP | FORWARD | ICMPTYPE | INPUT | LOCAL | LOG | MASQ | ONEWAY | OUTPUT
    | PROTO | PROXY | REDIRECT | REJECT | SOURCE | SPORT | TEXT

  datatype Tok =
    | Word(name: string) | Key(key: Keyword)
    | LCurly | RCurly | LSquare | RSquare | Semicolon | Colon | Slash | Bang | Star

  function KeywordOf(w: string): Option<Keyword> {
    if w == "accept" then Some(ACCEPT) else if w == "dest" then Some(DEST) else if w == "dport" then Some(DPORT)
    else if w == "drop" then Some(DROP) else if w == "forward" then Some(FORWARD)
      else if w == "icmptype" then Some(ICMPTYPE)
    else if w == "input" then Some(INPUT) else if w == "local" then Some(LOCAL) else if w == "log" then Some(LOG)
    else if w == "masq" then Some(MASQ) else if w == "oneway" then Some(ONEWAY) else if w == "output" then Some(OUTPUT)
    else if w == "proto" then Some(PROTO) else if w == "proxy" then Some(PROXY)
      else if w == "redirect" then Some(REDIRECT)
    else if w == "reject" then Some(REJECT) else if w == "source" then Some(SOURCE)
      else if w == "sport" then Some(SPORT)
    else if w == "text" then Some(TEXT) else None
  }

  /** What a name printed without quotes is scanned as. */
  function Bare(w: string): Tok {
    if w == "*" then Star else if KeywordOf(w).Some? then Key(KeywordOf(w).value) else Word(w)
  }

  // ----- the printer -----

  function PrintWord(w: string): seq<Tok> { [Bare(w)] }

  function PrintHost(h: HostArg): seq<Tok> {
    [Bare(h.host)] + (if h.mask.Some? then [Slash, Bare(h.mask.value)] else [])
  }

  function PrintPort(p: PortArg): seq<Tok> {
    [Bare(p.min)] + (if p.max.Some? then [Colon, Bare(p.max.value)] else [])
  }

  function PrintArgs<T>(l: Args<T>, show: T -> seq<Tok>): seq<Tok> {
    if l.NoArgs? then [] else PrintArgs(l.front, show) + show(l.arg)
  }

  /** Arguments are always printed in braces. */
  function PrintBraced<T>(k: Keyword, l: Args<T>, show: T -> seq<Tok>): seq<Tok> {
    [Key(k), LCurly] + (PrintArgs(l, show) + [RCurly])
  }

  /** The printer does not know `proxy`. */
  function PrintTarget(t: TargetName): Tok {
    match t
    case AcceptName => Key(ACCEPT)
    case RejectName => Key(REJECT)
    case DropName => Key(DROP)
    case RedirectName => Key(REDIRECT)
    case MasqName => Key(MASQ)
    case ProxyName => Word("error")
  }

  /** The message of a log option is printed in quotes. */
  function PrintOption(o: OptionName): seq<Tok> {
    match o
    case LocalOption => [Key(LOCAL)]
    case ForwardOption => [Key(FORWARD)]
    case OnewayOption => [Key(ONEWAY)]
    case LogOption(m) => if m.Some? then [Key(LOG), Key(TEXT), Word(m.value)] else [Key(LOG)]
  }

  /** So is the name of a group. */
  function PrintSpecifier(s: Specifier): seq<Tok> {
    match s
    case Compound(l) => [LCurly] + (PrintSubrules(l) + [RCurly])
    case DirectionArgs(d, l) => PrintBraced(if d == Input then INPUT else OUTPUT, l, PrintWord)
    case TargetArg(t) => [PrintTarget(t)]
    case HostArgs(source, l) => PrintBraced(if source then SOURCE else DEST, l, PrintHost)
    case PortArgs(source, l) => PrintBraced(if source then SPORT else DPORT, l, PrintPort)
    case ProtocolArgs(l) => PrintBraced(PROTO, l, PrintWord)
    case IcmpArgs(l) => PrintBraced(ICMPTYPE, l, PrintWord)
    case OptionArg(o) => PrintOption(o)
    case Chaingroup(name, l) =>
      [LSquare] + ((if name.Some? then [Word(name.value)] else []) + (PrintSubrules(l) + [RSquare]))
  }

  function PrintNegated(n: Negated): seq<Tok> {
    (if n.negated then [Bang] else []) + PrintSpecifier(n.spec)
  }

  function PrintSpecifiers(l: Specifiers): seq<Tok> {
    if l.NoSpecifiers? then [] else PrintSpecifiers(l.front) + PrintNegated(l.last)
  }

  function PrintSubrules(l: Subrules): seq<Tok> {
    match l
    case OneSubrule(s) => PrintSpecifiers(s)
    case SnocSubrule(f, s) => PrintSubrules(f) + ([Semicolon] + PrintSpecifiers(s))
  }

  function PrintRules(l: RuleList): seq<Tok> {
    if l.NoRules? then [] else PrintRules(l.front) + (PrintSpecifiers(l.rule) + [Semicolon])
  }
}
