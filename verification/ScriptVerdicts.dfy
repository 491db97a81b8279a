/** What the loaded script does to every packet, in terms of the entries it was made from. */
module ScriptVerdicts {
  import opened FilterSpec
  import opened FilterEntry
  import opened IptablesRules
  import opened Netfilter
  import opened RuleMeaning
  import opened LoadedScript

  // ----- the specification: first match over the entries -----

  /** The entry is about packets of direction `d`, forwarded ones if `fwd`, and describes this one. */
  predicate Hits(e: Entry, d: Direction, fwd: bool, p: Packet, env: Env) {
    e.direction == Some(d) && (if fwd then IsForward(e) else IsLocal(e)) && Says(e, p, env) && StateOk(e, p)
  }

  /** The verdict of the first entry that hits. */
  function First(es: seq<Entry>, d: Direction, fwd: bool, p: Packet, env: Env): Option<Verdict> {
    if es == [] then None
    else if Hits(es[0], d, fwd, p, env) then Some(VerdictOf(es[0]))
    else First(es[1..], d, fwd, p, env)
  }

  /** The packet answers one that an entry of direction `d` describes, and replies to it are let back. */
  predicate Answers(e: Entry, lstate: bool, d: Direction, fwd: bool, p: Packet, env: Env) {
    e.direction == Some(d) && (fwd ==> IsForward(e)) && WantsReverse(lstate, e)
    && Says(e, Mirror(p), env) && p.state == Established && (ProtoNum(e) == TCP ==> !p.syn)
  }

  predicate IsReply(es: seq<Entry>, lstate: bool, d: Direction, fwd: bool, p: Packet, env: Env) {
    es != [] && (Answers(es[0], lstate, d, fwd, p, env) || IsReply(es[1..], lstate, d, fwd, p, env))
  }

  /** The generic rules of light state mode let the packet through. */
  predicate LightAccepts(lstate: bool, feat: set<nat>, p: Packet, env: Env) {
    lstate && p.state == Established
    && ((A_TCP in feat && env.protoNum("tcp") == p.proto && !p.syn)
        || (A_UDP in feat && env.protoNum("udp") == p.proto))
  }

  ghost predicate AllNamed(es: seq<Entry>, env: Env) {
    forall e | e in es :: WellNamed(e, env)
  }

  // ----- evaluating the parts of a chain -----

  lemma EvaluateOpt(b: bool, l: Line, rs: Ruleset, p: Packet, env: Env, depth: nat)
    ensures Evaluate(OptLine(b, l), rs, p, env, depth) == if b then Evaluate([l], rs, p, env, depth) else None
  {
  }

  lemma EvaluateOne(l: Line, rs: Ruleset, p: Packet, env: Env, depth: nat)
    ensures Evaluate([l], rs, p, env, depth)
         == if !MatchAll(l.matches, p, env) then None
            else match l.action
                 case Decide(v) => Some(v)
                 case Log => None
                 case Jump(c) =>
                   if depth == 0 || c !in rs.chains then Some(Dropped)
                     else Evaluate(rs.chains[c], rs, p, env, depth - 1)
  {
    assert [l][1..] == [];
  }

  /** The lines of one entry decide as the entry does. */
  lemma EvaluateAdded(style: Style, e: Entry, base: Base, rs: Ruleset, p: Packet, env: Env, depth: nat)
    requires Plain(e) && WellNamed(e, env)
    ensures Evaluate(Added(style, e, base), rs, p, env, depth)
         == if base == RuleBase(e) && IsLocal(e) && Says(e, p, env) && StateOk(e, p) then Some(VerdictOf(e))
            else if base == ForwardBase(e) && IsForward(e) && Says(e, p, env) && StateOk(e, p) then
              Evaluate([Line([], ForwardAction(style, e))], rs, p, env, depth)
            else None
  {
    ForwardMeans(e, p, env);
    var ms := ForwardMatches(e);
    var b0 := LogBit in e.whatsSet && ((base == RuleBase(e) && IsLocal(e)) || (base == ForwardBase(e) && IsForward(e)));
    var b1, b2 := base == RuleBase(e) && IsLocal(e), base == ForwardBase(e) && IsForward(e);
    var l0, l1, l2 := Line(ms, Log), Line(ms, Decide(VerdictOf(e))), Line(ms, ForwardAction(style, e));
    EvaluateAppend(OptLine(b0, l0), OptLine(b1, l1) + OptLine(b2, l2), rs, p, env, depth);
    EvaluateAppend(OptLine(b1, l1), OptLine(b2, l2), rs, p, env, depth);
    EvaluateOpt(b0, l0, rs, p, env, depth);
    EvaluateOpt(b1, l1, rs, p, env, depth);
    EvaluateOpt(b2, l2, rs, p, env, depth);
    EvaluateOne(l0, rs, p, env, depth);
    EvaluateOne(l1, rs, p, env, depth);
    EvaluateOne(l2, rs, p, env, depth);
    EvaluateOne(Line([], ForwardAction(style, e)), rs, p, env, depth);
  }

  /** The rules of INPUT and OUTPUT, and those of FORW_OUT, decide by first match. */
  lemma {:induction false} EvaluateLocal(style: Style, es: seq<Entry>, d: Direction, rs: Ruleset, p: Packet, env: Env,
                                         depth: nat)
    requires AllPlain(es) && AllNamed(es, env)
    ensures Evaluate(AllAdded(style, es, if d == Input then INPUT else OUTPUT), rs, p, env, depth)
        == First(es, d, false, p, env)
  {
    if es != [] {
      var base := if d == Input then INPUT else OUTPUT;
      HasDirection(es[0]);
      EvaluateAdded(style, es[0], base, rs, p, env, depth);
      EvaluateLocal(style, es[1..], d, rs, p, env, depth);
      EvaluateAppend(Added(style, es[0], base), AllAdded(style, es[1..], base), rs, p, env, depth);
    }
  }

  lemma {:induction false} EvaluateForwOut(style: Style, es: seq<Entry>, rs: Ruleset, p: Packet, env: Env, depth: nat)
    requires AllPlain(es) && AllNamed(es, env)
    ensures Evaluate(AllAdded(style, es, FORW_OUT), rs, p, env, depth) == First(es, Output, true, p, env)
  {
    if es != [] {
      HasDirection(es[0]);
      EvaluateAdded(style, es[0], FORW_OUT, rs, p, env, depth);
      EvaluateForwOut(style, es[1..], rs, p, env, depth);
      EvaluateAppend(Added(style, es[0], FORW_OUT), AllAdded(style, es[1..], FORW_OUT), rs, p, env, depth);
      EvaluateOne(Line([], ForwardAction(style, es[0])), rs, p, env, depth);
    }
  }

  /** The rules of FORWARD: an entry that sends the packet on to FORW_OUT decides as that chain does,
      and if that chain lets the packet return, the search goes on. */
  function Through(style: Style, es: seq<Entry>, out: Option<Verdict>, p: Packet, env: Env): Option<Verdict> {
    if es == [] then None
    else if !Hits(es[0], Input, true, p, env) then Through(style, es[1..], out, p, env)
    else if ForwardAction(style, es[0]).Decide? then Some(VerdictOf(es[0]))
    else if out.Some? then out
    else Through(style, es[1..], out, p, env)
  }

  lemma {:induction false} EvaluateForward(style: Style, es: seq<Entry>, rs: Ruleset, out: Option<Verdict>, p: Packet,
                                           env: Env, depth: nat)
    requires AllPlain(es) && AllNamed(es, env) && depth > 0 && FORW_OUT_CHAIN in rs.chains
    requires out == Evaluate(rs.chains[FORW_OUT_CHAIN], rs, p, env, depth - 1)
    ensures Evaluate(AllAdded(style, es, FORWARD), rs, p, env, depth) == Through(style, es, out, p, env)
  {
    if es != [] {
      EvaluateAdded(style, es[0], FORWARD, rs, p, env, depth);
      EvaluateForward(style, es[1..], rs, out, p, env, depth);
      EvaluateAppend(Added(style, es[0], FORWARD), AllAdded(style, es[1..], FORWARD), rs, p, env, depth);
      EvaluateOne(Line([], ForwardAction(style, es[0])), rs, p, env, depth);
    }
  }

  /** The direction of the entries whose replies a chain lets back, and what it does with a reply. */
  function Answered(base: Base): Direction {
    if base == INPUT || base == FORWARD then Output else Input
  }

  function ReplyOutcome(base: Base, out: Option<Verdict>): Option<Verdict> {
    if base == FORWARD then out else Some(Accepted)
  }

  lemma HasDirection(e: Entry)
    requires Plain(e)
    ensures e.direction == Some(Input) || e.direction == Some(Output)
  {
    assert e.direction.value == Input || e.direction.value == Output;
  }

  /** The reply rules of one entry. */
  lemma EvaluateReply(lstate: bool, e: Entry, base: Base, rs: Ruleset, out: Option<Verdict>, p: Packet, env: Env,
                      depth: nat)
    requires Plain(e) && WellNamed(e, env)
    requires base == FORWARD
        ==> depth > 0 && FORW_OUT_CHAIN in rs.chains
            && out == Evaluate(rs.chains[FORW_OUT_CHAIN], rs, p, env, depth - 1)
    requires base in {INPUT, OUTPUT, FORWARD, FORW_OUT}
    ensures Evaluate(InsertedFor(lstate, e, base), rs, p, env, depth)
         == if Answers(e, lstate, Answered(base), base in {FORWARD, FORW_OUT}, p, env) then ReplyOutcome(base, out)
             else None
  {
    HasDirection(e);
    var b1, b2 := base == ForwardReverseBase(e) && IsForward(e) && WantsReverse(lstate, e), base == ReverseBase(e)
        && WantsReverse(lstate, e);
    var l1 := Line(ReverseMatches(e), if e.direction == Some(Output) then Jump(FORW_OUT_CHAIN) else Decide(Accepted));
    var l2 := Line(ReverseMatches(e), Decide(Accepted));
    if WantsReverse(lstate, e) {
      ReverseMeans(e, p, env);
    }
    EvaluateAppend(OptLine(b1, l1), OptLine(b2, l2), rs, p, env, depth);
    EvaluateOpt(b1, l1, rs, p, env, depth);
    EvaluateOpt(b2, l2, rs, p, env, depth);
    EvaluateOne(l1, rs, p, env, depth);
    EvaluateOne(l2, rs, p, env, depth);
  }

  lemma {:induction false} EvaluateReplies(lstate: bool, es: seq<Entry>, base: Base, rs: Ruleset, out: Option<Verdict>,
                                           p: Packet, env: Env, depth: nat)
    requires AllPlain(es) && AllNamed(es, env)
    requires base == FORWARD
        ==> depth > 0 && FORW_OUT_CHAIN in rs.chains
            && out == Evaluate(rs.chains[FORW_OUT_CHAIN], rs, p, env, depth - 1)
    requires base in {INPUT, OUTPUT, FORWARD, FORW_OUT}
    ensures Evaluate(AllInserted(lstate, es, base), rs, p, env, depth)
         == if IsReply(es, lstate, Answered(base), base in {FORWARD, FORW_OUT}, p, env) then ReplyOutcome(base, out)
             else None
  {
    if es != [] {
      EvaluateReply(lstate, es[0], base, rs, out, p, env, depth);
      EvaluateReplies(lstate, es[1..], base, rs, out, p, env, depth);
      EvaluateAppend(AllInserted(lstate, es[1..], base), InsertedFor(lstate, es[0], base), rs, p, env, depth);
    }
  }

  lemma EvaluateState(lstate: bool, feat: set<nat>, base: Base, rs: Ruleset, p: Packet, env: Env, depth: nat)
    ensures Evaluate(StateLines(lstate, feat, base), rs, p, env, depth)
         == if base != FORW_OUT && LightAccepts(lstate, feat, p, env) then Some(Accepted) else None
  {
    if lstate && base != FORW_OUT {
      var l1, l2 := Line(StateMatches(false), Decide(Accepted)), Line(StateMatches(true), Decide(Accepted));
      EvaluateAppend(OptLine(A_UDP in feat, l1), OptLine(A_TCP in feat, l2), rs, p, env, depth);
      EvaluateOpt(A_UDP in feat, l1, rs, p, env, depth);
      EvaluateOpt(A_TCP in feat, l2, rs, p, env, depth);
      EvaluateOne(l1, rs, p, env, depth);
      EvaluateOne(l2, rs, p, env, depth);
      StateMatchesMean(true, p, env);
      StateMatchesMean(false, p, env);
    }
  }

  lemma StateMatchesMean(tcp: bool, p: Packet, env: Env)
    ensures MatchAll(StateMatches(tcp), p, env)
       <==> env.protoNum(if tcp then "tcp" else "udp") == p.proto && (tcp ==> !p.syn) && p.state == Established
  {
    var a := [Match(false, ProtoIs(if tcp then "tcp" else "udp"))];
    var b := if tcp then [Match(true, IsSyn)] else [];
    var c := [Match(false, StateIn({Established}))];
    MatchBoth(a + b, c, p, env);
    MatchBoth(a, b, p, env);
    MatchOne(a[0], p, env);
    MatchOne(Match(true, IsSyn), p, env);
    MatchOne(c[0], p, env);
  }

  lemma EvaluateInvalid(rs: Ruleset, p: Packet, env: Env, depth: nat)
    requires depth > 0 && INVALID_CHAIN in rs.chains && rs.chains[INVALID_CHAIN] == [Line([], Decide(Dropped))]
    ensures Evaluate([InvalidLine()], rs, p, env, depth) == if p.state == Invalid then Some(Dropped) else None
  {
    EvaluateOne(InvalidLine(), rs, p, env, depth);
    MatchOne(Match(false, StateIn({Invalid})), p, env);
    EvaluateOne(Line([], Decide(Dropped)), rs, p, env, depth - 1);
  }

  /** The four parts of a chain in turn. */
  lemma EvaluateContents(style: Style, lstate: bool, es: seq<Entry>, base: Base, rs: Ruleset, p: Packet, env: Env,
                         depth: nat)
    ensures Evaluate(Contents(style, lstate, es, base), rs, p, env, depth)
         == match Evaluate(StateLines(lstate, AllFeatures(es), base), rs, p, env, depth)
            case Some(v) => Some(v)
            case None =>
              match Evaluate(AllInserted(lstate, es, base), rs, p, env, depth)
              case Some(v) => Some(v)
              case None =>
                match Evaluate(if base == FORW_OUT then [] else [InvalidLine()], rs, p, env, depth)
                case Some(v) => Some(v)
                case None => Evaluate(AllAdded(style, es, base), rs, p, env, depth)
  {
    var a, b := StateLines(lstate, AllFeatures(es), base), AllInserted(lstate, es, base);
    var c := if base == FORW_OUT then [] else [InvalidLine()];
    EvaluateAppend(a, b, rs, p, env, depth);
    EvaluateAppend(a + b, c, rs, p, env, depth);
    EvaluateAppend(a + b + c, AllAdded(style, es, base), rs, p, env, depth);
  }

  // ----- what the script does to every packet -----

  function OrDrop(v: Option<Verdict>): Verdict {
    if v.Some? then v.value else Dropped
  }

  /** What becomes of a packet sent to FORW_OUT. */
  function Outbound(lstate: bool, es: seq<Entry>, p: Packet, env: Env): Option<Verdict> {
    if IsReply(es, lstate, Input, true, p, env) then Some(Accepted) else First(es, Output, true, p, env)
  }

  /** The verdict on a packet that arrives at or leaves the machine itself. */
  function LocalVerdict(lstate: bool, es: seq<Entry>, d: Direction, p: Packet, env: Env): Verdict {
    if LightAccepts(lstate, AllFeatures(es), p, env) then Accepted
    else if IsReply(es, lstate, if d == Input then Output else Input, false, p, env) then Accepted
    else if p.state == Invalid then Dropped
    else OrDrop(First(es, d, false, p, env))
  }

  /** The verdict on a forwarded packet. */
  function ForwardVerdict(style: Style, lstate: bool, es: seq<Entry>, p: Packet, env: Env): Verdict {
    var out := Outbound(lstate, es, p, env);
    if LightAccepts(lstate, AllFeatures(es), p, env) then Accepted
    else if IsReply(es, lstate, Output, true, p, env) && out.Some? then out.value
    else if p.state == Invalid then Dropped
    else OrDrop(Through(style, es, out, p, env))
  }

  ghost function Loaded(style: Style, lstate: bool, es: seq<Entry>, before: Ruleset): Ruleset
    requires AllPlain(es)
  {
    LoadScript(style, lstate, es, before);
    Load(Script(style, true, lstate, es), before).value
  }

  /** Every packet to or from the machine, whatever its state, meets the verdict the entries give it. */
  lemma ScriptLocal(style: Style, lstate: bool, es: seq<Entry>, before: Ruleset, d: Direction, p: Packet, env: Env,
                    depth: nat)
    requires AllPlain(es) && AllNamed(es, env) && depth > 0
    ensures Filtered(Loaded(style, lstate, es, before), if d == Input then INPUT else OUTPUT, p, env, depth)
         == Some(LocalVerdict(lstate, es, d, p, env))
  {
    var base := if d == Input then INPUT else OUTPUT;
    var rs := Loaded(style, lstate, es, before);
    LoadScript(style, lstate, es, before);
    EvaluateContents(style, lstate, es, base, rs, p, env, depth);
    EvaluateState(lstate, AllFeatures(es), base, rs, p, env, depth);
    EvaluateReplies(lstate, es, base, rs, None, p, env, depth);
    EvaluateInvalid(rs, p, env, depth);
    EvaluateLocal(style, es, d, rs, p, env, depth);
  }

  /** FORW_OUT lets replies back and otherwise decides by first match over the output entries. */
  lemma LoadedForwOut(style: Style, lstate: bool, es: seq<Entry>, rs: Ruleset, p: Packet, env: Env, depth: nat)
    requires AllPlain(es) && AllNamed(es, env) && IsLoaded(style, lstate, es, rs)
    ensures Evaluate(rs.chains[FORW_OUT_CHAIN], rs, p, env, depth) == Outbound(lstate, es, p, env)
  {
    EvaluateContents(style, lstate, es, FORW_OUT, rs, p, env, depth);
    EvaluateState(lstate, AllFeatures(es), FORW_OUT, rs, p, env, depth);
    EvaluateReplies(lstate, es, FORW_OUT, rs, None, p, env, depth);
    EvaluateForwOut(style, es, rs, p, env, depth);
  }

  lemma LoadedForward(style: Style, lstate: bool, es: seq<Entry>, rs: Ruleset, out: Option<Verdict>, p: Packet,
                      env: Env, depth: nat)
    requires AllPlain(es) && AllNamed(es, env) && IsLoaded(style, lstate, es, rs) && depth > 0
    requires out == Evaluate(rs.chains[FORW_OUT_CHAIN], rs, p, env, depth - 1) == Outbound(lstate, es, p, env)
    ensures Filtered(rs, FORWARD, p, env, depth) == Some(ForwardVerdict(style, lstate, es, p, env))
  {
    EvaluateContents(style, lstate, es, FORWARD, rs, p, env, depth);
    EvaluateState(lstate, AllFeatures(es), FORWARD, rs, p, env, depth);
    EvaluateReplies(lstate, es, FORWARD, rs, out, p, env, depth);
    EvaluateInvalid(rs, p, env, depth);
    EvaluateForward(style, es, rs, out, p, env, depth);
  }

  lemma LoadedBoth(style: Style, lstate: bool, es: seq<Entry>, rs: Ruleset, p: Packet, env: Env, depth: nat)
    requires AllPlain(es) && AllNamed(es, env) && IsLoaded(style, lstate, es, rs) && depth > 0
    ensures Filtered(rs, FORWARD, p, env, depth) == Some(ForwardVerdict(style, lstate, es, p, env))
  {
    LoadedForwOut(style, lstate, es, rs, p, env, depth - 1);
    assert FORW_OUT_CHAIN in rs.chains;
    LoadedForward(style, lstate, es, rs, Outbound(lstate, es, p, env), p, env, depth);
  }

  /** Every forwarded packet meets the verdict the entries give it. */
  lemma ScriptForward(style: Style, lstate: bool, es: seq<Entry>, before: Ruleset, p: Packet, env: Env, depth: nat)
    requires AllPlain(es) && AllNamed(es, env) && depth > 0
    ensures Filtered(Loaded(style, lstate, es, before), FORWARD, p, env, depth)
        == Some(ForwardVerdict(style, lstate, es, p, env))
  {
    LoadScript(style, lstate, es, before);
    LoadedBoth(style, lstate, es, Loaded(style, lstate, es, before), p, env, depth);
  }

  // ----- new connections -----

  lemma {:induction false} NewIsNoReply(es: seq<Entry>, lstate: bool, d: Direction, fwd: bool, p: Packet, env: Env)
    requires p.state != Established
    ensures !IsReply(es, lstate, d, fwd, p, env)
  {
    if es != [] {
      NewIsNoReply(es[1..], lstate, d, fwd, p, env);
    }
  }

  /** A packet that opens a connection is decided by first match over the entries of its direction
      that are not for forwarded packets only, in either back end and with or without light state
      mode; the rules for replies never change it. */
  lemma NewConnections(style: Style, lstate: bool, es: seq<Entry>, before: Ruleset, d: Direction, p: Packet, env: Env,
                       depth: nat)
    requires AllPlain(es) && AllNamed(es, env) && depth > 0 && p.state == New
    ensures Filtered(Loaded(style, lstate, es, before), if d == Input then INPUT else OUTPUT, p, env, depth)
         == Some(OrDrop(First(es, d, false, p, env)))
  {
    ScriptLocal(style, lstate, es, before, d, p, env, depth);
    NewIsNoReply(es, lstate, if d == Input then Output else Input, false, p, env);
  }

  lemma {:induction false} ThroughRestore(es: seq<Entry>, out: Option<Verdict>, p: Packet, env: Env)
    requires AllPlain(es)
    ensures Through(Restore, es, out, p, env) == Some(Accepted)
        <==> First(es, Input, true, p, env) == Some(Accepted) && out == Some(Accepted)
  {
    if es != [] {
      assert Plain(es[0]);
      ThroughRestore(es[1..], out, p, env);
      if out.None? {
        ThroughNone(es[1..], p, env);
      }
    }
  }

  /** Packets that FORW_OUT always returns are never accepted. */
  lemma {:induction false} ThroughNone(es: seq<Entry>, p: Packet, env: Env)
    requires AllPlain(es)
    ensures Through(Restore, es, None, p, env) != Some(Accepted)
    ensures Through(Iptables, es, None, p, env) != Some(Accepted)
  {
    if es != [] {
      assert Plain(es[0]);
      ThroughNone(es[1..], p, env);
    }
  }

  /** Forwarding is a conjunction in the restore back end: a new packet is accepted exactly when the
      first matching input entry and the first matching output entry, local ones left aside, both
      accept it. */
  lemma ForwardingIsConjunction(lstate: bool, es: seq<Entry>, before: Ruleset, p: Packet, env: Env, depth: nat)
    requires AllPlain(es) && AllNamed(es, env) && depth > 0 && p.state == New
    ensures Filtered(Loaded(Restore, lstate, es, before), FORWARD, p, env, depth) == Some(Accepted)
       <==> First(es, Input, true, p, env) == Some(Accepted) && First(es, Output, true, p, env) == Some(Accepted)
  {
    ScriptForward(Restore, lstate, es, before, p, env, depth);
    NewIsNoReply(es, lstate, Output, true, p, env);
    NewIsNoReply(es, lstate, Input, true, p, env);
    ThroughRestore(es, First(es, Output, true, p, env), p, env);
  }

  lemma {:induction false} ThroughIptables(es: seq<Entry>, out: Option<Verdict>, p: Packet, env: Env)
    requires AllPlain(es)
    ensures Through(Iptables, es, out, p, env) == Some(Accepted)
        <==> First(es, Input, true, p, env).Some? && out == Some(Accepted)
  {
    if es != [] {
      ThroughIptables(es[1..], out, p, env);
      if out.None? {
        ThroughNone(es[1..], p, env);
      }
    }
  }

  /** In the iptables back end a new forwarded packet needs only some matching input entry, whatever
      that entry's verdict, and an accepting output entry. */
  lemma IptablesForwarding(lstate: bool, es: seq<Entry>, before: Ruleset, p: Packet, env: Env, depth: nat)
    requires AllPlain(es) && AllNamed(es, env) && depth > 0 && p.state == New
    ensures Filtered(Loaded(Iptables, lstate, es, before), FORWARD, p, env, depth) == Some(Accepted)
       <==> First(es, Input, true, p, env).Some? && First(es, Output, true, p, env) == Some(Accepted)
  {
    ScriptForward(Iptables, lstate, es, before, p, env, depth);
    NewIsNoReply(es, lstate, Output, true, p, env);
    NewIsNoReply(es, lstate, Input, true, p, env);
    ThroughIptables(es, First(es, Output, true, p, env), p, env);
  }

  /** So the two back ends agree on which new packets are forwarded exactly where no packet that an
      input entry turns away first is accepted by an output entry. */
  lemma BackendsAgree(lstate: bool, es: seq<Entry>, before: Ruleset, p: Packet, env: Env, depth: nat)
    requires AllPlain(es) && AllNamed(es, env) && depth > 0 && p.state == New
    ensures (Filtered(Loaded(Iptables, lstate, es, before), FORWARD, p, env, depth) == Some(Accepted)
             <==> Filtered(Loaded(Restore, lstate, es, before), FORWARD, p, env, depth) == Some(Accepted))
       <==> !(First(es, Input, true, p, env) in {Some(Dropped), Some(Rejected)}
              && First(es, Output, true, p, env) == Some(Accepted))
  {
    ForwardingIsConjunction(lstate, es, before, p, env, depth);
    IptablesForwarding(lstate, es, before, p, env, depth);
    var v := First(es, Input, true, p, env);
    assert v.Some? ==> v.value == Accepted || v.value == Dropped || v.value == Rejected;
  }

  // ----- replies -----

  /** The entry that decides for the packet. */
  function Deciding(es: seq<Entry>, d: Direction, fwd: bool, p: Packet, env: Env): Option<Entry> {
    if es == [] then None
    else if Hits(es[0], d, fwd, p, env) then Some(es[0])
    else Deciding(es[1..], d, fwd, p, env)
  }

  /** An accepting rule for tcp or udp that is not one-way. */
  predicate LetsBack(e: Entry) {
    e.target == Some(Final(Accept)) && Stateful(e) && !e.oneway
  }

  predicate ReplyTo(q: Packet, p: Packet) {
    q == Mirror(p).(state := Established, syn := false)
  }

  lemma {:induction false} DecidingAnswers(es: seq<Entry>, d: Direction, fwd: bool, p: Packet, q: Packet, env: Env)
    requires AllPlain(es) && ReplyTo(q, p)
    requires Deciding(es, d, fwd, p, env).Some? && LetsBack(Deciding(es, d, fwd, p, env).value)
    ensures IsReply(es, false, d, fwd, q, env)
  {
    if Hits(es[0], d, fwd, p, env) {
      SameSays(es[0], p, q, env);
    } else {
      DecidingAnswers(es[1..], d, fwd, p, q, env);
    }
  }

  lemma SameSays(e: Entry, p: Packet, q: Packet, env: Env)
    requires ReplyTo(q, p)
    ensures Says(e, Mirror(q), env) <==> Says(e, p, env)
  {
  }

  /** Replies get back: if the entry that decides for a new packet lets replies back, the reply is
      accepted in the opposite direction. */
  lemma RepliesGetBack(style: Style, es: seq<Entry>, before: Ruleset, d: Direction, p: Packet, q: Packet, env: Env,
                       depth: nat)
    requires AllPlain(es) && AllNamed(es, env) && depth > 0 && p.state == New && ReplyTo(q, p)
    requires Deciding(es, d, false, p, env).Some? && LetsBack(Deciding(es, d, false, p, env).value)
    ensures Filtered(Loaded(style, false, es, before), if d == Input then OUTPUT else INPUT, q, env, depth)
        == Some(Accepted)
  {
    var o := if d == Input then Output else Input;
    DecidingAnswers(es, d, false, p, q, env);
    ScriptLocal(style, false, es, before, o, q, env, depth);
  }

  /** The same through the router: the reply passes FORWARD and FORW_OUT when the deciding input and
      output entries both let replies back. */
  lemma ForwardedRepliesGetBack(style: Style, es: seq<Entry>, before: Ruleset, p: Packet, q: Packet, env: Env,
                                depth: nat)
    requires AllPlain(es) && AllNamed(es, env) && depth > 0 && p.state == New && ReplyTo(q, p)
    requires Deciding(es, Input, true, p, env).Some? && LetsBack(Deciding(es, Input, true, p, env).value)
    requires Deciding(es, Output, true, p, env).Some? && LetsBack(Deciding(es, Output, true, p, env).value)
    ensures Filtered(Loaded(style, false, es, before), FORWARD, q, env, depth) == Some(Accepted)
  {
    DecidingAnswers(es, Input, true, p, q, env);
    DecidingAnswers(es, Output, true, p, q, env);
    ScriptForward(style, false, es, before, q, env, depth);
  }

  // ----- light state mode -----

  lemma {:induction false} ReplyHasFeature(es: seq<Entry>, d: Direction, fwd: bool, p: Packet, env: Env)
    requires AllPlain(es) && AllNamed(es, env) && env.protoNum("tcp") == TCP && env.protoNum("udp") == UDP
    requires IsReply(es, false, d, fwd, p, env)
    ensures LightAccepts(true, AllFeatures(es), p, env)
  {
    assert AllFeatures(es) == Features(es[0]) + AllFeatures(es[1..]);
    if Answers(es[0], false, d, fwd, p, env) {
      assert Plain(es[0]);
      assert ProtoNum(es[0]) == p.proto;
    } else {
      ReplyHasFeature(es[1..], d, fwd, p, env);
    }
  }

  /** Light state mode is a relaxation: it changes nothing for new connections, and every packet that
      the reply rules of the filter accept in a chain is accepted there by the generic rules. */
  lemma LightStateRelaxes(style: Style, es: seq<Entry>, before: Ruleset, d: Direction, p: Packet, env: Env, depth: nat)
    requires AllPlain(es) && AllNamed(es, env) && depth > 0 && env.protoNum("tcp") == TCP && env.protoNum("udp") == UDP
    ensures p.state == New ==>
      LocalVerdict(true, es, d, p, env) == LocalVerdict(false, es, d, p, env)
      && ForwardVerdict(style, true, es, p, env) == ForwardVerdict(style, false, es, p, env)
    ensures LocalVerdict(false, es, d, p, env) == Accepted ==>
      Filtered(Loaded(style, true, es, before), if d == Input then INPUT else OUTPUT, p, env, depth) == Some(Accepted)
    ensures ForwardVerdict(style, false, es, p, env) == Accepted ==>
      Filtered(Loaded(style, true, es, before), FORWARD, p, env, depth) == Some(Accepted)
  {
    var o := if d == Input then Output else Input;
    ScriptLocal(style, true, es, before, d, p, env, depth);
    ScriptForward(style, true, es, before, p, env, depth);
    NoReplyRules(es, o, false, p, env);
    NoReplyRules(es, Input, true, p, env);
    NoReplyRules(es, Output, true, p, env);
    if p.state == New {
      NewIsNoReply(es, false, o, false, p, env);
      NewIsNoReply(es, false, Input, true, p, env);
      NewIsNoReply(es, false, Output, true, p, env);
    }
    if IsReply(es, false, o, false, p, env) {
      ReplyHasFeature(es, o, false, p, env);
    }
    if IsReply(es, false, Input, true, p, env) {
      ReplyHasFeature(es, Input, true, p, env);
    }
    if IsReply(es, false, Output, true, p, env) {
      ReplyHasFeature(es, Output, true, p, env);
    }
  }

  /** Which entries set the feature bits: a reject rule sets that of tcp, whatever its protocol. */
  lemma {:induction false} WhichFeatures(es: seq<Entry>)
    ensures A_TCP in AllFeatures(es) <==> exists e | e in es :: ProtoNum(e) == TCP || e.target == Some(Final(Reject))
    ensures A_UDP in AllFeatures(es) <==> exists e | e in es :: ProtoNum(e) == UDP
  {
    if es != [] {
      WhichFeatures(es[1..]);
      assert es == [es[0]] + es[1..];
      assert AllFeatures(es) == Features(es[0]) + AllFeatures(es[1..]);
      assert A_TCP in Features(es[0]) <==> ProtoNum(es[0]) == TCP || es[0].target == Some(Final(Reject));
      assert A_UDP in Features(es[0]) <==> ProtoNum(es[0]) == UDP;
    }
  }

  /** The packets that light state mode lets through in addition: those of established connections,
      udp if some entry is about udp, tcp that does not open a connection if some entry is about tcp or
      rejects anything. */
  ghost predicate LetThrough(es: seq<Entry>, p: Packet) {
    p.state == Established
    && ((p.proto == TCP && !p.syn && exists e | e in es :: ProtoNum(e) == TCP || e.target == Some(Final(Reject)))
        || (p.proto == UDP && exists e | e in es :: ProtoNum(e) == UDP))
  }

  lemma LightAcceptsThese(es: seq<Entry>, p: Packet, env: Env)
    requires env.protoNum("tcp") == TCP && env.protoNum("udp") == UDP
    ensures LightAccepts(true, AllFeatures(es), p, env) <==> LetThrough(es, p)
  {
    WhichFeatures(es);
  }

  /** Exactly what light state mode adds: a packet that is not accepted without it is accepted with it
      if and only if it is one of those, and the verdict on every other packet is the same. */
  lemma LightStateAdds(style: Style, es: seq<Entry>, d: Direction, p: Packet, env: Env)
    requires AllPlain(es) && AllNamed(es, env) && env.protoNum("tcp") == TCP && env.protoNum("udp") == UDP
    ensures LetThrough(es, p)
        ==> LocalVerdict(true, es, d, p, env) == Accepted && ForwardVerdict(style, true, es, p, env) == Accepted
    ensures !LetThrough(es, p) ==>
      LocalVerdict(true, es, d, p, env) == LocalVerdict(false, es, d, p, env)
      && ForwardVerdict(style, true, es, p, env) == ForwardVerdict(style, false, es, p, env)
  {
    var o := if d == Input then Output else Input;
    LightAcceptsThese(es, p, env);
    NoReplyRules(es, o, false, p, env);
    NoReplyRules(es, Input, true, p, env);
    NoReplyRules(es, Output, true, p, env);
    if !LetThrough(es, p) {
      RepliesAreLetThrough(es, o, false, p, env);
      RepliesAreLetThrough(es, Input, true, p, env);
      RepliesAreLetThrough(es, Output, true, p, env);
    }
  }

  lemma RepliesAreLetThrough(es: seq<Entry>, d: Direction, fwd: bool, p: Packet, env: Env)
    requires AllPlain(es) && AllNamed(es, env) && env.protoNum("tcp") == TCP && env.protoNum("udp") == UDP
    ensures IsReply(es, false, d, fwd, p, env) ==> LetThrough(es, p)
  {
    if IsReply(es, false, d, fwd, p, env) {
      ReplyHasFeature(es, d, fwd, p, env);
      LightAcceptsThese(es, p, env);
    }
  }

  /** One rule that rejects udp, and none about tcp: an established tcp connection is dropped without
      light state mode and accepted with it. */
  lemma RejectOpensTcp(e: Entry, before: Ruleset, style: Style, d: Direction, p: Packet, env: Env, depth: nat)
    requires Plain(e) && WellNamed(e, env) && e.target == Some(Final(Reject)) && ProtoNum(e) == UDP
    requires ProtoBit !in e.negated
    requires env.protoNum("tcp") == TCP && env.protoNum("udp") == UDP && depth > 0
    requires p.proto == TCP && p.state == Established && !p.syn
    ensures var base := if d == Input then INPUT else OUTPUT;
            && AllPlain([e])
            && Filtered(Loaded(style, false, [e], before), base, p, env, depth) == Some(Dropped)
            && Filtered(Loaded(style, true, [e], before), base, p, env, depth) == Some(Accepted)
  {
    var es := [e];
    assert es[1..] == [] && e in es;
    ScriptLocal(style, false, es, before, d, p, env, depth);
    ScriptLocal(style, true, es, before, d, p, env, depth);
    LightStateAdds(style, es, d, p, env);
    assert LetThrough(es, p);
    assert !Hits(e, d, false, p, env);
    var o := if d == Input then Output else Input;
    assert !Answers(e, false, o, false, p, env) && !IsReply(es[1..], false, o, false, p, env);
    assert First(es[1..], d, false, p, env) == None;
  }

  lemma {:induction false} NoReplyRules(es: seq<Entry>, d: Direction, fwd: bool, p: Packet, env: Env)
    ensures !IsReply(es, true, d, fwd, p, env)
  {
    if es != [] {
      NoReplyRules(es[1..], d, fwd, p, env);
    }
  }
}
