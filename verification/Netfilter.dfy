/** What a loaded ruleset does to a packet: reading rule texts, loading commands into chains, and
    first-match evaluation with jumps and returns. */
module Netfilter {
  import opened FilterSpec
  import opened IptablesRules

  // ----- packets and how words match them -----

  /** Locally delivered packets have no outgoing interface, locally sent ones no incoming one. */
  datatype Packet = Packet(inIface: Option<string>, outIface: Option<string>, src: int, dst: int,
                           proto: int, sport: int, dport: int, icmp: int, state: CtState, syn: bool)

  /** How the uninterpreted words of rules match; names resolve to protocol numbers. */
  datatype Env = Env(iface: (string, string) -> bool, addr: (Addr, int) -> bool, ports: (Ports, int) -> bool,
                     icmp: (string, int) -> bool, protoNum: string -> int)

  datatype Test =
    | InIs(iface: string) | OutIs(iface: string) | ProtoIs(name: string) | IsSyn | StateIn(states: set<CtState>)
    | SrcIs(addr: Addr) | DstIs(addr: Addr) | SportIs(ports: Ports) | DportIs(ports: Ports) | IcmpIs(icmp: string)

  /** One match of a rule; `neg` when an exclamation mark stands before it. */
  datatype Match = Match(neg: bool, test: Test)

  predicate Passes(t: Test, p: Packet, env: Env) {
    match t
    case InIs(i) => p.inIface.Some? && env.iface(i, p.inIface.value)
    case OutIs(i) => p.outIface.Some? && env.iface(i, p.outIface.value)
    case ProtoIs(n) => env.protoNum(n) == p.proto
    case IsSyn => p.syn
    case StateIn(s) => p.state in s
    case SrcIs(a) => env.addr(a, p.src)
    case DstIs(a) => env.addr(a, p.dst)
    case SportIs(s) => env.ports(s, p.sport)
    case DportIs(s) => env.ports(s, p.dport)
    case IcmpIs(i) => env.icmp(i, p.icmp)
  }

  predicate MatchAll(ms: seq<Match>, p: Packet, env: Env) {
    ms != [] ==> Passes(ms[0].test, p, env) != ms[0].neg && MatchAll(ms[1..], p, env)
  }

  // ----- reading the text of a rule -----

  /** The option at the head of a text and the number of words it takes. */
  function ReadTest(ts: Text): Option<Test> {
    if ts == [] then None
    else if ts[0] == SynOpt then Some(IsSyn)
    else if |ts| < 2 then None
    else
      match (ts[0], ts[1])
      case (InIface, Word(w)) => Some(InIs(w))
      case (OutIface, Word(w)) => Some(OutIs(w))
      case (ProtoOpt, Word(w)) => Some(ProtoIs(w))
      case (StateOpt, StatesWord(s)) => Some(StateIn(s))
      case (SrcOpt, AddrWord(a)) => Some(SrcIs(a))
      case (DstOpt, AddrWord(a)) => Some(DstIs(a))
      case (SportOpt, PortsWord(s)) => Some(SportIs(s))
      case (DportOpt, PortsWord(s)) => Some(DportIs(s))
      case (IcmpOpt, Word(w)) => Some(IcmpIs(w))
      case _ => None
  }

  /** The matches of a text that ends in the jump option; an exclamation mark negates the option
      after it, and naming a match module adds no condition. */
  function Read(ts: Text, bang: bool): Option<seq<Match>>
    decreases |ts|
  {
    if ts == [] then None
    else if ts == [JumpOpt] then (if bang then None else Some([]))
    else if ts[0] == Bang then (if bang then None else Read(ts[1..], true))
    else if ts[0] == MatchOpt then
      if bang || |ts| < 2 || !ts[1].Word? then None else Read(ts[2..], false)
    else
      match ReadTest(ts)
      case None => None
      case Some(t) =>
        match Read(ts[if ts[0] == SynOpt then 1 else 2..], false)
        case None => None
        case Some(ms) => Some([Match(bang, t)] + ms)
  }

  // ----- rulesets -----

  datatype Verdict = Accepted | Dropped | Rejected

  datatype Action = Decide(verdict: Verdict) | Log | Jump(chain: Chain)

  datatype Line = Line(matches: seq<Match>, action: Action)

  /** The chains of the filter table and the policies of its built-in chains. */
  datatype Ruleset = Ruleset(chains: map<Chain, seq<Line>>, policy: map<Base, Verdict>)

  const BUILTIN := [Chain(None, INPUT), Chain(None, OUTPUT), Chain(None, FORWARD)]

  const EMPTIED: map<Chain, seq<Line>> := map[Chain(None, INPUT) := [], Chain(None, OUTPUT) := [],
                                              Chain(None, FORWARD) := []]

  function ActionOf(t: TargetWord, rs: Ruleset): Option<Action> {
    match t
    case AcceptWord => Some(Decide(Accepted))
    case DropWord => Some(Decide(Dropped))
    case RejectWord => Some(Decide(Rejected))
    case LogWord(_) => Some(Log)
    case ChainWord(c) => if c in rs.chains && c !in BUILTIN then Some(Jump(c)) else None
    case _ => None
  }

  function LineOf(rule: Text, target: TargetWord, rs: Ruleset): Option<Line> {
    match (Read(rule, false), ActionOf(target, rs))
    case (Some(ms), Some(a)) => Some(Line(ms, a))
    case _ => None
  }

  function AddLine(rs: Ruleset, chain: Chain, rule: Text, target: TargetWord, front: bool): Option<Ruleset> {
    if chain !in rs.chains then None
    else
      match LineOf(rule, target, rs)
      case None => None
      case Some(l) =>
        Some(rs.(chains := rs.chains[chain := if front then [l] + rs.chains[chain] else rs.chains[chain] + [l]]))
  }

  /** One command; None when the loader refuses it, or when it is about another table. */
  function Execute(c: Command, rs: Ruleset): Option<Ruleset> {
    match c
    case Append(chain, rule, target) => AddLine(rs, chain, rule, target, false)
    case Insert(chain, rule, target) => AddLine(rs, chain, rule, target, true)
    case NewChain(chain) => if chain in rs.chains then None else Some(rs.(chains := rs.chains[chain := []]))
    case DropPolicy(base) => Some(rs.(policy := rs.policy[base := Dropped]))
    case Flush => Some(rs.(chains := EMPTIED))
    case Table(false) => Some(rs.(chains := EMPTIED))
    case Commit => Some(rs)
    case _ => None
  }

  function Load(cs: seq<Command>, rs: Ruleset): Option<Ruleset>
    decreases |cs|
  {
    if cs == [] then Some(rs)
    else match Execute(cs[0], rs) case None => None case Some(rs') => Load(cs[1..], rs')
  }

  lemma {:induction false} LoadAppend(cs: seq<Command>, ds: seq<Command>, rs: Ruleset)
    ensures Load(cs + ds, rs) == match Load(cs, rs) case None => None case Some(rs') => Load(ds, rs')
    decreases |cs|
  {
    if cs == [] {
      assert cs + ds == ds;
    } else {
      assert (cs + ds)[0] == cs[0] && (cs + ds)[1..] == cs[1..] + ds;
      match Execute(cs[0], rs)
      case None =>
      case Some(rs') => LoadAppend(cs[1..], ds, rs');
    }
  }

  // ----- evaluation -----

  /** The lines of a chain from the first on: a verdict, or None when the packet falls off the end
      and returns to the calling chain.  `depth` bounds the jumps that may be open at a time; a
      jump beyond it drops the packet. */
  function Evaluate(ls: seq<Line>, rs: Ruleset, p: Packet, env: Env, depth: nat): Option<Verdict>
    decreases depth, |ls|
  {
    if ls == [] then None
    else if !MatchAll(ls[0].matches, p, env) then Evaluate(ls[1..], rs, p, env, depth)
    else
      match ls[0].action
      case Decide(v) => Some(v)
      case Log => Evaluate(ls[1..], rs, p, env, depth)
      case Jump(c) =>
        if depth == 0 || c !in rs.chains then Some(Dropped)
        else
          match Evaluate(rs.chains[c], rs, p, env, depth - 1)
          case Some(v) => Some(v)
          case None => Evaluate(ls[1..], rs, p, env, depth)
  }

  lemma {:induction false} EvaluateAppend(ls: seq<Line>, ms: seq<Line>, rs: Ruleset, p: Packet, env: Env, depth: nat)
    ensures Evaluate(ls + ms, rs, p, env, depth)
         == match Evaluate(ls, rs, p, env, depth) case Some(v) => Some(v) case None => Evaluate(ms, rs, p, env, depth)
    decreases |ls|
  {
    if ls == [] {
      assert ls + ms == ms;
    } else {
      assert (ls + ms)[0] == ls[0] && (ls + ms)[1..] == ls[1..] + ms;
      EvaluateAppend(ls[1..], ms, rs, p, env, depth);
    }
  }

  /** What a built-in chain does to a packet; the policy decides what falls off its end. */
  function Filtered(rs: Ruleset, base: Base, p: Packet, env: Env, depth: nat): Option<Verdict> {
    if Chain(None, base) !in rs.chains then None
    else
      match Evaluate(rs.chains[Chain(None, base)], rs, p, env, depth)
      case Some(v) => Some(v)
      case None => if base in rs.policy then Some(rs.policy[base]) else None
  }
}
