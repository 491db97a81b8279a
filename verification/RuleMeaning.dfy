/** The printed rules say what the entry says: reading a rule's text gives the conjunction of the
    entry's conditions, and the reply rule is its exact mirror image. */
module RuleMeaning {
  import opened FilterSpec
  import opened FilterEntry
  import opened IptablesRules
  import opened Netfilter

  // ----- what an entry says about a packet -----

  predicate OnIface(e: Entry, p: Packet, env: Env) {
    e.iface.Some? && e.direction.Some? &&
    var i := if e.direction == Some(Input) then p.inIface else p.outIface;
    i.Some? && env.iface(e.iface.value, i.value)
  }

  /** A packet satisfies an entry: each condition given holds, or fails if it is negated. */
  predicate Says(e: Entry, p: Packet, env: Env) {
    && (e.iface.Some? ==> (e.iface.value == "*" || OnIface(e, p, env)) != (DirectionBit in e.negated))
    && (e.proto.Some? ==> (e.proto.value.num == p.proto) != (ProtoBit in e.negated))
    && (e.src.Some? ==> env.addr(e.src.value, p.src) != (SourceBit in e.negated))
    && (e.dst.Some? ==> env.addr(e.dst.value, p.dst) != (DestBit in e.negated))
    && (e.sport.Some? ==> env.ports(e.sport.value, p.sport) != (SportBit in e.negated))
    && (e.dport.Some? ==> env.ports(e.dport.value, p.dport) != (DportBit in e.negated))
    && (e.icmp.Some? ==> env.icmp(e.icmp.value, p.icmp) != (IcmpBit in e.negated))
  }

  /** The negations the back ends print: not those of the protocol and of the interface "*". */
  predicate Printable(e: Entry) {
    && !(e.proto.Some? && ProtoBit in e.negated)
    && !(e.iface == Some("*") && DirectionBit in e.negated)
  }

  /** The protocol's name and number belong together. */
  predicate WellNamed(e: Entry, env: Env) {
    e.proto.Some? ==> env.protoNum(e.proto.value.name) == e.proto.value.num
  }

  /** The state condition of a forward rule. */
  predicate StateOk(e: Entry, p: Packet) {
    Stateful(e) ==> p.state == New || p.state == Established
  }

  /** A reply to the packet: interfaces, addresses and ports change sides. */
  function Mirror(p: Packet): Packet {
    p.(inIface := p.outIface, outIface := p.inIface, src := p.dst, dst := p.src, sport := p.dport, dport := p.sport)
  }

  // ----- the matches a text reads as -----

  function IfaceMatches(e: Entry, input: bool): seq<Match> {
    if e.iface.Some? && e.iface.value != "*" then
      [Match(DirectionBit in e.negated, if input then InIs(e.iface.value) else OutIs(e.iface.value))]
    else []
  }

  function ProtoMatches(e: Entry, reverse: bool): seq<Match> {
    if e.proto.None? then []
    else
      [Match(false, ProtoIs(e.proto.value.name))]
      + (if reverse && e.proto.value.num == TCP then [Match(true, IsSyn)] else [])
      + (if !Stateful(e) then [] else [Match(false, StateIn(if reverse then {Established} else {New, Established}))])
  }

  function AddrMatches(e: Entry, a: Option<Addr>, k: Kind, src: bool): seq<Match> {
    if a.None? then [] else [Match(k in e.negated, if src then SrcIs(a.value) else DstIs(a.value))]
  }

  function PortMatches(e: Entry, p: Option<Ports>, k: Kind, src: bool): seq<Match> {
    if p.None? || !Stateful(e) then [] else [Match(k in e.negated, if src then SportIs(p.value) else DportIs(p.value))]
  }

  function IcmpMatches(e: Entry): seq<Match> {
    if e.icmp.Some? && ProtoNum(e) == ICMP then [Match(IcmpBit in e.negated, IcmpIs(e.icmp.value))] else []
  }

  function ForwardMatches(e: Entry): seq<Match> {
    IfaceMatches(e, e.direction == Some(Input))
    + (ProtoMatches(e, false)
    + (AddrMatches(e, e.src, SourceBit, true)
    + (AddrMatches(e, e.dst, DestBit, false)
    + (PortMatches(e, e.sport, SportBit, true)
    + (PortMatches(e, e.dport, DportBit, false)
    + IcmpMatches(e))))))
  }

  function ReverseMatches(e: Entry): seq<Match> {
    IfaceMatches(e, e.direction != Some(Input))
    + (ProtoMatches(e, true)
    + (AddrMatches(e, e.src, SourceBit, false)
    + (AddrMatches(e, e.dst, DestBit, true)
    + (PortMatches(e, e.sport, SportBit, false)
    + PortMatches(e, e.dport, DportBit, true)))))
  }

  // ----- reading, piece by piece -----

  function Before(ms: seq<Match>, o: Option<seq<Match>>): Option<seq<Match>> {
    match o case None => None case Some(ns) => Some(ms + ns)
  }

  lemma BeforeNone(o: Option<seq<Match>>)
    ensures Before([], o) == o
  {
    if o.Some? { assert [] + o.value == o.value; }
  }

  lemma BeforeTwice(ms: seq<Match>, ns: seq<Match>, o: Option<seq<Match>>)
    ensures Before(ms, Before(ns, o)) == Before(ms + ns, o)
  {
    if o.Some? { assert ms + (ns + o.value) == ms + ns + o.value; }
  }

  /** An option with its argument. */
  lemma ReadOption(opt: Token, arg: Token, rest: Text, bang: bool, t: Test)
    requires opt != Bang && opt != MatchOpt && opt != JumpOpt && opt != SynOpt && rest != []
    requires ReadTest([opt, arg]) == Some(t)
    ensures Read([opt, arg] + rest, bang) == Before([Match(bang, t)], Read(rest, false))
  {
    var ts := [opt, arg] + rest;
    assert ts[0] == opt && ts[1] == arg && ts[2..] == rest;
    assert ReadTest(ts) == Some(t);
  }

  lemma ReadBang(ts: Text)
    requires ts != []
    ensures Read([Bang] + ts, false) == Read(ts, true)
  {
    assert ([Bang] + ts)[1..] == ts;
  }

  /** The same, with the sign the entry gives to its kind. */
  lemma ReadSigned(e: Entry, k: Kind, opt: Token, arg: Token, rest: Text, t: Test)
    requires opt != Bang && opt != MatchOpt && opt != JumpOpt && opt != SynOpt && rest != []
    requires ReadTest([opt, arg]) == Some(t)
    ensures Read(Sign(e, k) + [opt, arg] + rest, false) == Before([Match(k in e.negated, t)], Read(rest, false))
  {
    var word := [opt, arg] + rest;
    ReadOption(opt, arg, rest, k in e.negated, t);
    SignedText(e, k, [opt, arg], rest);
    if k in e.negated {
      ReadBang(word);
    }
  }

  lemma SignedText(e: Entry, k: Kind, word: Text, rest: Text)
    ensures Sign(e, k) + word + rest == (if k in e.negated then [Bang] + (word + rest) else word + rest)
  {
    SeqAssoc(Sign(e, k), word, rest);
    assert [] + (word + rest) == word + rest;
  }

  lemma ReadIface(e: Entry, input: bool, rest: Text)
    requires rest != []
    ensures Read(IfaceText(e, if input then InIface else OutIface) + rest, false)
        == Before(IfaceMatches(e, input), Read(rest, false))
  {
    if e.iface.Some? && e.iface.value != "*" {
      ReadSigned(e, DirectionBit, if input then InIface else OutIface, Word(e.iface.value), rest,
                 if input then InIs(e.iface.value) else OutIs(e.iface.value));
    } else {
      assert [] + rest == rest;
      BeforeNone(Read(rest, false));
    }
  }

  lemma ReadAddr(e: Entry, a: Option<Addr>, k: Kind, src: bool, rest: Text)
    requires rest != []
    ensures Read(AddrText(e, a, k, if src then SrcOpt else DstOpt) + rest, false)
        == Before(AddrMatches(e, a, k, src), Read(rest, false))
  {
    if a.Some? {
      ReadSigned(e, k, if src then SrcOpt else DstOpt, AddrWord(a.value), rest,
                 if src then SrcIs(a.value) else DstIs(a.value));
    } else {
      assert [] + rest == rest;
      BeforeNone(Read(rest, false));
    }
  }

  lemma ReadPorts(e: Entry, p: Option<Ports>, k: Kind, src: bool, rest: Text)
    requires rest != []
    ensures Read(PortText(e, p, k, if src then SportOpt else DportOpt) + rest, false)
        == Before(PortMatches(e, p, k, src), Read(rest, false))
  {
    if p.Some? && Stateful(e) {
      ReadSigned(e, k, if src then SportOpt else DportOpt, PortsWord(p.value), rest,
                 if src then SportIs(p.value) else DportIs(p.value));
    } else {
      assert [] + rest == rest;
      BeforeNone(Read(rest, false));
    }
  }

  lemma ReadIcmp(e: Entry, rest: Text)
    requires rest != []
    ensures Read(IcmpText(e) + rest, false) == Before(IcmpMatches(e), Read(rest, false))
  {
    if e.icmp.Some? && ProtoNum(e) == ICMP {
      ReadSigned(e, IcmpBit, IcmpOpt, Word(e.icmp.value), rest, IcmpIs(e.icmp.value));
    } else {
      assert [] + rest == rest;
      BeforeNone(Read(rest, false));
    }
  }

  lemma ReadStates(s: set<CtState>, rest: Text)
    requires rest != []
    ensures Read(StatesText(s) + rest, false) == Before([Match(false, StateIn(s))], Read(rest, false))
  {
    var ts := StatesText(s) + rest;
    assert ts[0] == MatchOpt && ts[1] == Word("conntrack") && ts[2..] == [StateOpt, StatesWord(s)] + rest;
    ReadOption(StateOpt, StatesWord(s), rest, false, StateIn(s));
  }

  lemma ReadNotSyn(rest: Text)
    requires rest != []
    ensures Read([Bang, SynOpt] + rest, false) == Before([Match(true, IsSyn)], Read(rest, false))
  {
    var ts := [SynOpt] + rest;
    assert [Bang, SynOpt] + rest == [Bang] + ts;
    ReadBang(ts);
    assert ts[0] == SynOpt && ts[1..] == rest;
  }

  lemma ProtoTextParts(h: Text, a: Text, b: Text, rest: Text)
    ensures h + a + b + rest == h + (a + (b + rest))
  {
  }

  lemma ReadProto(e: Entry, reverse: bool, rest: Text)
    requires rest != []
    ensures Read(ProtoText(e, reverse) + rest, false) == Before(ProtoMatches(e, reverse), Read(rest, false))
  {
    if e.proto.None? {
      assert [] + rest == rest;
      BeforeNone(Read(rest, false));
    } else {
      var syn := reverse && e.proto.value.num == TCP;
      var a := if syn then [Bang, SynOpt] else [];
      var b := if !Stateful(e) then [] else StatesText(if reverse then {Established} else {New, Established});
      var ma := if syn then [Match(true, IsSyn)] else [];
      var mb := if !Stateful(e) then []
          else [Match(false, StateIn(if reverse then {Established} else {New, Established}))];
      var head := [ProtoOpt, Word(e.proto.value.name)];
      var r := Read(rest, false);
      ProtoTextParts(head, a, b, rest);
      assert Read(b + rest, false) == Before(mb, r) by {
        if Stateful(e) {
          ReadStates(if reverse then {Established} else {New, Established}, rest);
        } else {
          assert [] + rest == rest;
          BeforeNone(r);
        }
      }
      assert Read(a + (b + rest), false) == Before(ma, Before(mb, r)) by {
        if syn {
          ReadNotSyn(b + rest);
        } else {
          assert [] + (b + rest) == b + rest;
          BeforeNone(Before(mb, r));
        }
      }
      ReadOption(ProtoOpt, Word(e.proto.value.name), a + (b + rest), false, ProtoIs(e.proto.value.name));
      BeforeTwice(ma, mb, r);
      BeforeTwice([Match(false, ProtoIs(e.proto.value.name))], ma + mb, r);
      assert [Match(false, ProtoIs(e.proto.value.name))] + (ma + mb) == ProtoMatches(e, reverse);
    }
  }

  // ----- whole texts -----

  lemma ReadEnd()
    ensures Read([JumpOpt], false) == Some([])
  {
  }

  lemma RightNested(a: Text, b: Text, c: Text, d: Text, e: Text, f: Text, g: Text)
    ensures a + b + c + d + e + f + g == a + (b + (c + (d + (e + (f + g)))))
  {
  }

  lemma LastTwo(x: Text, y: Text, z: Text)
    ensures x + y + z == x + (y + z)
  {
  }

  lemma ReadForward(e: Entry)
    ensures Read(ForwardText(e), false) == Some(ForwardMatches(e))
  {
    var opt := if e.direction == Some(Input) then InIface else OutIface;
    var t6 := IcmpText(e) + [JumpOpt];
    var t5 := PortText(e, e.dport, DportBit, DportOpt) + t6;
    var t4 := PortText(e, e.sport, SportBit, SportOpt) + t5;
    var t3 := AddrText(e, e.dst, DestBit, DstOpt) + t4;
    var t2 := AddrText(e, e.src, SourceBit, SrcOpt) + t3;
    var t1 := ProtoText(e, false) + t2;
    RightNested(IfaceText(e, opt), ProtoText(e, false), AddrText(e, e.src, SourceBit, SrcOpt),
                AddrText(e, e.dst, DestBit, DstOpt),
                PortText(e, e.sport, SportBit, SportOpt), PortText(e, e.dport, DportBit, DportOpt), t6);
    assert ForwardText(e) == IfaceText(e, opt) + t1 by {
      var x := IfaceText(e, opt) + ProtoText(e, false) + AddrText(e, e.src, SourceBit, SrcOpt)
          + AddrText(e, e.dst, DestBit, DstOpt)
        + PortText(e, e.sport, SportBit, SportOpt) + PortText(e, e.dport, DportBit, DportOpt);
      LastTwo(x, IcmpText(e), [JumpOpt]);
    }
    ReadEnd();
    ReadIcmp(e, [JumpOpt]);
    assert IcmpMatches(e) + [] == IcmpMatches(e);
    ReadPorts(e, e.dport, DportBit, false, t6);
    ReadPorts(e, e.sport, SportBit, true, t5);
    ReadAddr(e, e.dst, DestBit, false, t4);
    ReadAddr(e, e.src, SourceBit, true, t3);
    ReadProto(e, false, t2);
    ReadIface(e, e.direction == Some(Input), t1);
  }

  lemma ReadReverse(e: Entry)
    ensures Read(ReverseText(e), false) == Some(ReverseMatches(e))
  {
    var opt := if e.direction == Some(Input) then OutIface else InIface;
    var t5 := PortText(e, e.dport, DportBit, SportOpt) + [JumpOpt];
    var t4 := PortText(e, e.sport, SportBit, DportOpt) + t5;
    var t3 := AddrText(e, e.dst, DestBit, SrcOpt) + t4;
    var t2 := AddrText(e, e.src, SourceBit, DstOpt) + t3;
    var t1 := ProtoText(e, true) + t2;
    RightNested(IfaceText(e, opt), ProtoText(e, true), AddrText(e, e.src, SourceBit, DstOpt),
                AddrText(e, e.dst, DestBit, SrcOpt),
                PortText(e, e.sport, SportBit, DportOpt), PortText(e, e.dport, DportBit, SportOpt), [JumpOpt]);
    ReadEnd();
    ReadPorts(e, e.dport, DportBit, true, [JumpOpt]);
    assert PortMatches(e, e.dport, DportBit, true) + [] == PortMatches(e, e.dport, DportBit, true);
    ReadPorts(e, e.sport, SportBit, false, t5);
    ReadAddr(e, e.dst, DestBit, true, t4);
    ReadAddr(e, e.src, SourceBit, false, t3);
    ReadProto(e, true, t2);
    ReadIface(e, e.direction != Some(Input), t1);
  }

  lemma {:induction false} MatchBoth(ms: seq<Match>, ns: seq<Match>, p: Packet, env: Env)
    ensures MatchAll(ms + ns, p, env) <==> MatchAll(ms, p, env) && MatchAll(ns, p, env)
    decreases |ms|
  {
    if ms == [] {
      assert ms + ns == ns;
    } else {
      assert (ms + ns)[0] == ms[0] && (ms + ns)[1..] == ms[1..] + ns;
      MatchBoth(ms[1..], ns, p, env);
    }
  }

  lemma MatchOne(m: Match, p: Packet, env: Env)
    ensures MatchAll([m], p, env) <==> Passes(m.test, p, env) != m.neg
  {
    assert [m][1..] == [];
  }

  lemma IfaceMeans(e: Entry, p: Packet, env: Env)
    requires e.direction.Some? && Printable(e)
    ensures MatchAll(IfaceMatches(e, e.direction == Some(Input)), p, env)
       <==> (e.iface.Some? ==> (e.iface.value == "*" || OnIface(e, p, env)) != (DirectionBit in e.negated))
    ensures MatchAll(IfaceMatches(e, e.direction != Some(Input)), p, env)
       <==> (e.iface.Some? ==> (e.iface.value == "*" || OnIface(e, Mirror(p), env)) != (DirectionBit in e.negated))
  {
    if e.iface.Some? && e.iface.value != "*" {
      MatchOne(IfaceMatches(e, true)[0], p, env);
      MatchOne(IfaceMatches(e, false)[0], p, env);
    }
  }

  lemma ProtoMeans(e: Entry, reverse: bool, p: Packet, env: Env)
    requires Printable(e) && WellNamed(e, env)
    ensures MatchAll(ProtoMatches(e, reverse), p, env)
       <==> (e.proto.Some? ==> e.proto.value.num == p.proto)
            && (reverse && ProtoNum(e) == TCP && e.proto.Some? ==> !p.syn)
            && (Stateful(e) ==> p.state == Established || (!reverse && p.state == New))
  {
    if e.proto.Some? {
      var a := [Match(false, ProtoIs(e.proto.value.name))];
      var b := if reverse && e.proto.value.num == TCP then [Match(true, IsSyn)] else [];
      var c := if !Stateful(e) then []
          else [Match(false, StateIn(if reverse then {Established} else {New, Established}))];
      assert ProtoMatches(e, reverse) == a + b + c;
      MatchBoth(a + b, c, p, env);
      MatchBoth(a, b, p, env);
      MatchOne(a[0], p, env);
      if b != [] { MatchOne(b[0], p, env); }
      if c != [] { MatchOne(c[0], p, env); }
    }
  }

  lemma AddrMeans(e: Entry, a: Option<Addr>, k: Kind, src: bool, p: Packet, env: Env)
    ensures MatchAll(AddrMatches(e, a, k, src), p, env)
       <==> (a.Some? ==> env.addr(a.value, if src then p.src else p.dst) != (k in e.negated))
  {
    if a.Some? { MatchOne(AddrMatches(e, a, k, src)[0], p, env); }
  }

  lemma PortMeans(e: Entry, s: Option<Ports>, k: Kind, src: bool, p: Packet, env: Env)
    requires s.Some? ==> Stateful(e)
    ensures MatchAll(PortMatches(e, s, k, src), p, env)
       <==> (s.Some? ==> env.ports(s.value, if src then p.sport else p.dport) != (k in e.negated))
  {
    if s.Some? { MatchOne(PortMatches(e, s, k, src)[0], p, env); }
  }

  lemma IcmpMeans(e: Entry, p: Packet, env: Env)
    requires e.icmp.Some? ==> ProtoNum(e) == ICMP
    ensures MatchAll(IcmpMatches(e), p, env)
        <==> (e.icmp.Some? ==> env.icmp(e.icmp.value, p.icmp) != (IcmpBit in e.negated))
  {
    if e.icmp.Some? { MatchOne(IcmpMatches(e)[0], p, env); }
  }

  /** The rule for packets in the entry's direction matches what the entry says, if the connection
      state allows it.  That `checkmatch` passed the entry means no port or type is left out. */
  lemma ForwardMeans(e: Entry, p: Packet, env: Env)
    requires e.direction.Some? && Complete(e) && Printable(e) && WellNamed(e, env)
    ensures MatchAll(ForwardMatches(e), p, env) <==> Says(e, p, env) && StateOk(e, p)
  {
    var m6 := IcmpMatches(e);
    var m5 := PortMatches(e, e.dport, DportBit, false) + m6;
    var m4 := PortMatches(e, e.sport, SportBit, true) + m5;
    var m3 := AddrMatches(e, e.dst, DestBit, false) + m4;
    var m2 := AddrMatches(e, e.src, SourceBit, true) + m3;
    var m1 := ProtoMatches(e, false) + m2;
    MatchBoth(IfaceMatches(e, e.direction == Some(Input)), m1, p, env);
    MatchBoth(ProtoMatches(e, false), m2, p, env);
    MatchBoth(AddrMatches(e, e.src, SourceBit, true), m3, p, env);
    MatchBoth(AddrMatches(e, e.dst, DestBit, false), m4, p, env);
    MatchBoth(PortMatches(e, e.sport, SportBit, true), m5, p, env);
    MatchBoth(PortMatches(e, e.dport, DportBit, false), m6, p, env);
    IfaceMeans(e, p, env);
    ProtoMeans(e, false, p, env);
    AddrMeans(e, e.src, SourceBit, true, p, env);
    AddrMeans(e, e.dst, DestBit, false, p, env);
    PortMeans(e, e.sport, SportBit, true, p, env);
    PortMeans(e, e.dport, DportBit, false, p, env);
    IcmpMeans(e, p, env);
  }

  /** The reply rule matches a packet exactly when the entry says the mirrored packet and, for tcp and
      udp, the connection is established and, for tcp, the packet does not open one.  (The type of an
      icmp message is left out of reply rules.) */
  lemma ReverseMeans(e: Entry, p: Packet, env: Env)
    requires e.direction.Some? && Complete(e) && Printable(e) && WellNamed(e, env) && (Stateful(e) || e.icmp.None?)
    ensures MatchAll(ReverseMatches(e), p, env)
       <==> Says(e, Mirror(p), env) && (Stateful(e) ==> p.state == Established) && (ProtoNum(e) == TCP ==> !p.syn)
  {
    var m5 := PortMatches(e, e.dport, DportBit, true);
    var m4 := PortMatches(e, e.sport, SportBit, false) + m5;
    var m3 := AddrMatches(e, e.dst, DestBit, true) + m4;
    var m2 := AddrMatches(e, e.src, SourceBit, false) + m3;
    var m1 := ProtoMatches(e, true) + m2;
    MatchBoth(IfaceMatches(e, e.direction != Some(Input)), m1, p, env);
    MatchBoth(ProtoMatches(e, true), m2, p, env);
    MatchBoth(AddrMatches(e, e.src, SourceBit, false), m3, p, env);
    MatchBoth(AddrMatches(e, e.dst, DestBit, true), m4, p, env);
    MatchBoth(PortMatches(e, e.sport, SportBit, false), m5, p, env);
    IfaceMeans(e, p, env);
    ProtoMeans(e, true, p, env);
    AddrMeans(e, e.src, SourceBit, false, p, env);
    AddrMeans(e, e.dst, DestBit, true, p, env);
    PortMeans(e, e.sport, SportBit, false, p, env);
    PortMeans(e, e.dport, DportBit, true, p, env);
  }

  /** Where the condition on printing fails, the rule is as wrong as can be: no packet satisfies
      both the entry and the rule printed for it. */
  lemma UnprintableNeverAgrees(e: Entry, p: Packet, env: Env)
    requires e.direction.Some? && Complete(e) && !Printable(e) && WellNamed(e, env)
    ensures !(MatchAll(ForwardMatches(e), p, env) && Says(e, p, env))
  {
  }
}
