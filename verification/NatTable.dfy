/** What the nat table of the iptables back end's script does to a packet. */
module NatTable {
  import opened FilterSpec
  import opened FilterEntry
  import opened Readings
  import opened FilterSyntax
  import opened CompiledRules
  import opened IptablesRules
  import opened Netfilter
  import opened RuleMeaning
  import opened SourceVerdicts
  import opened EntryChecks

  // ----- the rules of the nat table -----

  datatype Translation = Masqueraded | Redirected

  datatype NatLine = NatLine(matches: seq<Match>, translation: Translation)

  /** The line a command adds to a chain of the nat table. */
  function LinesOf(c: Command, chain: Chain): seq<NatLine> {
    if !c.NatAppend? || c.chain != chain then []
    else
      match (Read(c.rule, false), c.target)
      case (Some(ms), MasqueradeWord) => [NatLine(ms, Masqueraded)]
      case (Some(ms), RedirectWord) => [NatLine(ms, Redirected)]
      case _ => []
  }

  function NatLines(cs: seq<Command>, chain: Chain): seq<NatLine> {
    if cs == [] then [] else LinesOf(cs[0], chain) + NatLines(cs[1..], chain)
  }

  /** The translation of the first line that matches. */
  function Translated(ls: seq<NatLine>, p: Packet, env: Env): Option<Translation> {
    if ls == [] then None
    else if MatchAll(ls[0].matches, p, env) then Some(ls[0].translation)
    else Translated(ls[1..], p, env)
  }

  lemma {:induction false} NatLinesAppend(cs: seq<Command>, ds: seq<Command>, chain: Chain)
    ensures NatLines(cs + ds, chain) == NatLines(cs, chain) + NatLines(ds, chain)
    decreases |cs|
  {
    if cs == [] {
      assert cs + ds == ds;
    } else {
      assert (cs + ds)[0] == cs[0] && (cs + ds)[1..] == cs[1..] + ds;
      NatLinesAppend(cs[1..], ds, chain);
      SeqAssoc(LinesOf(cs[0], chain), NatLines(cs[1..], chain), NatLines(ds, chain));
    }
  }

  lemma NatLinesOne(c: Command, chain: Chain)
    ensures NatLines([c], chain) == LinesOf(c, chain)
  {
    assert [c][1..] == [];
  }

  lemma {:induction false} NoNat(cs: seq<Command>, chain: Chain)
    requires forall c | c in cs :: !c.NatAppend?
    ensures NatLines(cs, chain) == []
    decreases |cs|
  {
    if cs != [] {
      assert cs[0] in cs;
      NoNat(cs[1..], chain);
    }
  }

  // ----- reading its texts -----

  /** The matches of a nat rule: those of the forward rule without the connection state. */
  function NatMatches(e: Entry): seq<Match> {
    IfaceMatches(e, e.direction == Some(Input))
    + ((if e.proto.None? then [] else [Match(false, ProtoIs(e.proto.value.name))])
    + (AddrMatches(e, e.src, SourceBit, true)
    + (AddrMatches(e, e.dst, DestBit, false)
    + (PortMatches(e, e.sport, SportBit, true)
    + (PortMatches(e, e.dport, DportBit, false)
    + IcmpMatches(e))))))
  }

  lemma ReadNatProto(e: Entry, rest: Text)
    requires rest != []
    ensures Read(NatProtoText(e) + rest, false)
         == Before(if e.proto.None? then [] else [Match(false, ProtoIs(e.proto.value.name))], Read(rest, false))
  {
    if e.proto.None? {
      assert [] + rest == rest;
      BeforeNone(Read(rest, false));
    } else {
      ReadOption(ProtoOpt, Word(e.proto.value.name), rest, false, ProtoIs(e.proto.value.name));
    }
  }

  lemma ReadNat(e: Entry)
    ensures Read(NatText(e), false) == Some(NatMatches(e))
  {
    var opt := if e.direction == Some(Input) then InIface else OutIface;
    var t6 := IcmpText(e) + [JumpOpt];
    var t5 := PortText(e, e.dport, DportBit, DportOpt) + t6;
    var t4 := PortText(e, e.sport, SportBit, SportOpt) + t5;
    var t3 := AddrText(e, e.dst, DestBit, DstOpt) + t4;
    var t2 := AddrText(e, e.src, SourceBit, SrcOpt) + t3;
    var t1 := NatProtoText(e) + t2;
    RightNested(IfaceText(e, opt), NatProtoText(e), AddrText(e, e.src, SourceBit, SrcOpt),
                AddrText(e, e.dst, DestBit, DstOpt),
                PortText(e, e.sport, SportBit, SportOpt), PortText(e, e.dport, DportBit, DportOpt), t6);
    assert NatText(e) == IfaceText(e, opt) + t1 by {
      var x := IfaceText(e, opt) + NatProtoText(e) + AddrText(e, e.src, SourceBit, SrcOpt)
               + AddrText(e, e.dst, DestBit, DstOpt)
               + PortText(e, e.sport, SportBit, SportOpt) + PortText(e, e.dport, DportBit, DportOpt);
      LastTwo(x, IcmpText(e), [JumpOpt]);
    }
    ReadEnd();
    ReadIcmp(e, [JumpOpt]);
    assert IcmpMatches(e) + [] == IcmpMatches(e);
    ReadPorts(e, e.dport, DportBit, false, t6);
    ReadPorts(e, e.sport, SportBit, true, t5);
    ReadAddr(e, e.dst, DestBit, false, t4);
    ReadAddr(e, e.src, SourceBit, true, t3);
    ReadNatProto(e, t2);
    ReadIface(e, e.direction == Some(Input), t1);
  }

  /** A nat rule matches the packets the entry describes, whatever the connection state. */
  lemma NatMeans(e: Entry, p: Packet, env: Env)
    requires e.direction.Some? && Complete(e) && Printable(e) && WellNamed(e, env)
    ensures MatchAll(NatMatches(e), p, env) <==> Says(e, p, env)
  {
    var m6 := IcmpMatches(e);
    var m5 := PortMatches(e, e.dport, DportBit, false) + m6;
    var m4 := PortMatches(e, e.sport, SportBit, true) + m5;
    var m3 := AddrMatches(e, e.dst, DestBit, false) + m4;
    var m2 := AddrMatches(e, e.src, SourceBit, true) + m3;
    var proto := if e.proto.None? then [] else [Match(false, ProtoIs(e.proto.value.name))];
    MatchBoth(IfaceMatches(e, e.direction == Some(Input)), proto + m2, p, env);
    MatchBoth(proto, m2, p, env);
    MatchBoth(AddrMatches(e, e.src, SourceBit, true), m3, p, env);
    MatchBoth(AddrMatches(e, e.dst, DestBit, false), m4, p, env);
    MatchBoth(PortMatches(e, e.sport, SportBit, true), m5, p, env);
    MatchBoth(PortMatches(e, e.dport, DportBit, false), m6, p, env);
    IfaceMeans(e, p, env);
    if e.proto.Some? {
      MatchOne(proto[0], p, env);
    }
    AddrMeans(e, e.src, SourceBit, true, p, env);
    AddrMeans(e, e.dst, DestBit, false, p, env);
    PortMeans(e, e.sport, SportBit, true, p, env);
    PortMeans(e, e.dport, DportBit, false, p, env);
    IcmpMeans(e, p, env);
  }

  // ----- what the rules do -----

  /** The nat rules of the source: masquerading is for packets that leave, redirecting for those that come in. */
  function RewritesOn(a: Alternative): Option<Direction> {
    match TargetIn(a)
    case Some(Masq) => Some(Output)
    case Some(Redirect) => Some(Input)
    case _ => None
  }

  function TranslationOn(d: Direction): Translation { if d == Output then Masqueraded else Redirected }

  /** The chain of the nat table that packets of a direction pass. */
  function NatChain(d: Direction): Chain { Chain(None, if d == Input then PREROUTING else POSTROUTING) }

  /** The alternative rewrites the packet on its way in or out. */
  predicate Rewrites(a: Alternative, d: Direction, p: Packet, env: Env) {
    RewritesOn(a) == Some(d) && AlternativeHolds(a, p, env)
  }

  /** The commands of one entry for the nat table. */
  lemma EntryNatLines(style: Style, lstate: bool, e: Entry, chain: Chain)
    ensures NatLines(EntryCommands(style, lstate, e), chain) == NatLines(NatCommands(style, e), chain)
  {
    var rest := LocalCommands(lstate, e) + ForwardCommands(style, lstate, e);
    NoNat(LogCommands(e), chain);
    NoNat(rest, chain);
    NatLinesAppend(LogCommands(e) + NatCommands(style, e), rest, chain);
    NatLinesAppend(LogCommands(e), NatCommands(style, e), chain);
    var n := NatLines(NatCommands(style, e), chain);
    assert [] + n + [] == n;
  }

  /** The commits and headings around the rule in the restore back end add nothing. */
  lemma EitherStyle(style: Style, e: Entry, chain: Chain)
    ensures NatLines(NatCommands(style, e), chain) == NatLines(NatCommands(Iptables, e), chain)
  {
    var cs := NatCommands(style, e);
    if IsNat(e) && style == Restore {
      assert cs == cs[..2] + ([cs[2]] + cs[3..]) && [cs[2]] == NatCommands(Iptables, e);
      NoNat(cs[..2], chain);
      NoNat(cs[3..], chain);
      NatLinesAppend(cs[..2], [cs[2]] + cs[3..], chain);
      NatLinesAppend([cs[2]], cs[3..], chain);
      assert [] + (NatLines([cs[2]], chain) + []) == NatLines([cs[2]], chain);
    }
  }

  lemma NatLineOf(style: Style, e: Entry, d: Direction)
    requires e.groupname.None? && !Unsupported(false, e)
    ensures NatLines(NatCommands(style, e), NatChain(d))
         == if IsNat(e) && e.direction == Some(d) then [NatLine(NatMatches(e), TranslationOn(d))] else []
  {
    EitherStyle(style, e, NatChain(d));
    if IsNat(e) {
      ReadNat(e);
      NatLinesOne(NatCommands(Iptables, e)[0], NatChain(d));
      if e.direction.value == d {
        assert e.direction == Some(d);
      }
    }
  }

  /** An alternative whose entry the back end takes. */
  ghost predicate Taken(a: Alternative, fl: Flags, env: Env) {
    && EntryOf(EMPTY, a, fl).Some? && !Unsupported(false, EntryOf(EMPTY, a, fl).value)
    && (forall l | l in a :: PrintableLiteral(l)) && WellNamed(EntryOf(EMPTY, a, fl).value, env)
  }

  lemma TakenEntry(a: Alternative, fl: Flags, env: Env)
    requires Taken(a, fl, env)
    ensures var e := EntryOf(EMPTY, a, fl).value;
            && e.groupname.None? && Printable(e) && (IsNat(e) <==> RewritesOn(a).Some?)
            && (IsNat(e) ==> e.direction == RewritesOn(a))
  {
    assert Whole(EMPTY) && Sensible(EMPTY);
    FoldedEntry(a, fl);
    FoldPrintable(EMPTY, a);
    var d := EntryOf(EMPTY, a, fl).value.direction;
    assert d == Some(Input) || d == Some(Output) by {
      if d.value.Input? {
        assert d == Some(Input);
      } else {
        assert d == Some(Output);
      }
    }
  }

  lemma OneTranslated(l: NatLine, p: Packet, env: Env)
    ensures Translated([l], p, env) == if MatchAll(l.matches, p, env) then Some(l.translation) else None
  {
    assert [l][1..] == [];
  }

  lemma EntryTranslates(a: Alternative, fl: Flags, style: Style, lstate: bool, d: Direction, p: Packet, env: Env)
    requires Taken(a, fl, env)
    ensures Translated(NatLines(EntryCommands(style, lstate, EntryOf(EMPTY, a, fl).value), NatChain(d)), p, env)
         == if Rewrites(a, d, p, env) then Some(TranslationOn(d)) else None
  {
    var e := EntryOf(EMPTY, a, fl).value;
    TakenEntry(a, fl, env);
    EntryNatLines(style, lstate, e, NatChain(d));
    NatLineOf(style, e, d);
    EntryClaims(a, fl, p, env);
    if IsNat(e) {
      NatMeans(e, p, env);
      OneTranslated(NatLine(NatMatches(e), TranslationOn(d)), p, env);
    }
  }

  lemma {:induction false} TranslatedAppend(ls: seq<NatLine>, ms: seq<NatLine>, p: Packet, env: Env)
    ensures Translated(ls + ms, p, env) == OrElse(Translated(ls, p, env), Translated(ms, p, env))
    decreases |ls|
  {
    if ls == [] {
      assert ls + ms == ms;
    } else {
      assert (ls + ms)[0] == ls[0] && (ls + ms)[1..] == ls[1..] + ms;
      TranslatedAppend(ls[1..], ms, p, env);
    }
  }

  lemma CommandsCons(a: Alternative, xs: seq<Alternative>, fl: Flags, style: Style, lstate: bool)
    requires EntryOf(EMPTY, a, fl).Some? && Entries(EMPTY, xs, fl).Some?
    ensures Entries(EMPTY, [a] + xs, fl).Some?
    ensures AllCommands(style, lstate, Entries(EMPTY, [a] + xs, fl).value)
         == EntryCommands(style, lstate, EntryOf(EMPTY, a, fl).value)
            + AllCommands(style, lstate, Entries(EMPTY, xs, fl).value)
  {
    var e, es := EntryOf(EMPTY, a, fl).value, Entries(EMPTY, xs, fl).value;
    assert ([a] + xs)[0] == a && ([a] + xs)[1..] == xs;
    assert ([e] + es)[0] == e && ([e] + es)[1..] == es;
  }

  /** Packets are masqueraded as they leave exactly when an alternative that says `masq` describes them,
      and redirected as they come in exactly when one that says `redirect` does. */
  lemma {:induction false} SourceTranslates(xs: seq<Alternative>, fl: Flags, style: Style, lstate: bool, d: Direction,
                                            p: Packet,
                                            env: Env)
    requires forall a | a in xs :: Taken(a, fl, env)
    ensures Entries(EMPTY, xs, fl).Some?
    ensures Translated(NatLines(AllCommands(style, lstate, Entries(EMPTY, xs, fl).value), NatChain(d)), p, env)
         == if exists a | a in xs :: Rewrites(a, d, p, env) then Some(TranslationOn(d)) else None
    decreases |xs|
  {
    if xs != [] {
      var x, rest := xs[0], xs[1..];
      assert xs == [x] + rest && Taken(x, fl, env);
      SourceTranslates(rest, fl, style, lstate, d, p, env);
      CommandsCons(x, rest, fl, style, lstate);
      EntryTranslates(x, fl, style, lstate, d, p, env);
      var a := EntryCommands(style, lstate, EntryOf(EMPTY, x, fl).value);
      var b := AllCommands(style, lstate, Entries(EMPTY, rest, fl).value);
      NatLinesAppend(a, b, NatChain(d));
      TranslatedAppend(NatLines(a, NatChain(d)), NatLines(b, NatChain(d)), p, env);
    }
  }

  // ----- and the filter table -----

  /** The table whose heading the restore back end is under after the commands, if it was `under` before
      them (true for the nat table); None if a rule stands under the other table's heading or a table
      begins before the last one is committed. */
  function Heading(cs: seq<Command>, under: Option<bool>): Option<Option<bool>>
    decreases |cs|
  {
    if cs == [] then Some(under)
    else
      match cs[0]
      case Commit => if under.Some? then Heading(cs[1..], None) else None
      case Table(t) => if under.None? then Heading(cs[1..], Some(t)) else None
      case NatAppend(_, _, _) => if under == Some(true) then Heading(cs[1..], under) else None
      case _ => if under == Some(false) then Heading(cs[1..], under) else None
  }

  lemma {:induction false} HeadingAppend(cs: seq<Command>, ds: seq<Command>, under: Option<bool>)
    ensures Heading(cs + ds, under)
         == if Heading(cs, under).None? then None else Heading(ds, Heading(cs, under).value)
    decreases |cs|
  {
    if cs == [] {
      assert cs + ds == ds;
    } else {
      assert (cs + ds)[0] == cs[0] && (cs + ds)[1..] == cs[1..] + ds;
      match cs[0]
      case Commit => HeadingAppend(cs[1..], ds, None);
      case Table(t) => HeadingAppend(cs[1..], ds, Some(t));
      case _ => HeadingAppend(cs[1..], ds, under);
    }
  }

  lemma {:induction false} FilterHeading(cs: seq<Command>)
    requires forall c | c in cs :: c.Append? || c.Insert?
    ensures Heading(cs, Some(false)) == Some(Some(false))
    decreases |cs|
  {
    if cs != [] {
      assert cs[0] in cs;
      FilterHeading(cs[1..]);
    }
  }

  lemma HeadingOne(c: Command, under: Option<bool>)
    ensures Heading([c], under)
         == match c
            case Commit => if under.Some? then Some(None) else None
            case Table(t) => if under.None? then Some(Some(t)) else None
            case NatAppend(_, _, _) => if under == Some(true) then Some(under) else None
            case _ => if under == Some(false) then Some(under) else None
  {
    assert [c][1..] == [];
  }

  lemma NatHeading(e: Entry)
    ensures Heading(NatCommands(Restore, e), Some(false)) == Some(Some(false))
  {
    var cs := NatCommands(Restore, e);
    if IsNat(e) {
      assert cs == [Commit] + ([Table(true)] + ([cs[2]] + ([Commit] + [Table(false)])));
      HeadingOne(Commit, Some(false));
      HeadingOne(Table(true), None);
      HeadingOne(cs[2], Some(true));
      HeadingOne(Commit, Some(true));
      HeadingOne(Table(false), None);
      HeadingAppend([Commit], [Table(true)] + ([cs[2]] + ([Commit] + [Table(false)])), Some(false));
      HeadingAppend([Table(true)], [cs[2]] + ([Commit] + [Table(false)]), None);
      HeadingAppend([cs[2]], [Commit] + [Table(false)], Some(true));
      HeadingAppend([Commit], [Table(false)], Some(true));
    }
  }

  /** In the restore back end every rule of an entry stands in its table, which is the filter table again
      behind the entry. */
  lemma EntryHeading(lstate: bool, e: Entry)
    ensures Heading(EntryCommands(Restore, lstate, e), Some(false)) == Some(Some(false))
  {
    var l, n, f, w := LogCommands(e), NatCommands(Restore, e), LocalCommands(lstate, e),
        ForwardCommands(Restore, lstate, e);
    HeadingAppend(l + n, f + w, Some(false));
    HeadingAppend(l, n, Some(false));
    FilterHeading(l);
    FilterHeading(f + w);
    NatHeading(e);
  }

  lemma {:induction false} AllHeading(lstate: bool, es: seq<Entry>)
    ensures Heading(AllCommands(Restore, lstate, es), Some(false)) == Some(Some(false))
    decreases |es|
  {
    if es != [] {
      EntryHeading(lstate, es[0]);
      AllHeading(lstate, es[1..]);
      HeadingAppend(EntryCommands(Restore, lstate, es[0]), AllCommands(Restore, lstate, es[1..]), Some(false));
    }
  }

  /** The texts of a rule do not depend on its target. */
  lemma SameParts(e: Entry, t: Option<EntryTarget>, k: Kind, opt: Token, opt': Token, reverse: bool, a: Option<Addr>,
                  p: Option<Ports>)
    ensures var d := e.(target := t);
            && IfaceText(d, opt) == IfaceText(e, opt) && ProtoText(d, reverse) == ProtoText(e, reverse)
            && AddrText(d, a, k, opt') == AddrText(e, a, k, opt') && PortText(d, p, k, opt') == PortText(e, p, k, opt')
            && IcmpText(d) == IcmpText(e)
  {
    assert Sign(e.(target := t), k) == Sign(e, k) && Sign(e.(target := t), DirectionBit) == Sign(e, DirectionBit);
    assert Sign(e.(target := t), IcmpBit) == Sign(e, IcmpBit);
  }

  lemma SameTexts(e: Entry, t: Option<EntryTarget>)
    ensures ForwardText(e.(target := t)) == ForwardText(e) && ReverseText(e.(target := t)) == ReverseText(e)
  {
    var opt := if e.direction == Some(Input) then InIface else OutIface;
    var opt_r := if e.direction == Some(Input) then OutIface else InIface;
    SameParts(e, t, SourceBit, opt, SrcOpt, false, e.src, None);
    SameParts(e, t, DestBit, opt, DstOpt, false, e.dst, None);
    SameParts(e, t, SportBit, opt, SportOpt, false, None, e.sport);
    SameParts(e, t, DportBit, opt, DportOpt, false, None, e.dport);
    SameParts(e, t, SourceBit, opt_r, DstOpt, true, e.src, None);
    SameParts(e, t, DestBit, opt_r, SrcOpt, true, e.dst, None);
    SameParts(e, t, SportBit, opt_r, DportOpt, true, None, e.sport);
    SameParts(e, t, DportBit, opt_r, SportOpt, true, None, e.dport);
  }

  lemma SameChains(e: Entry, t: Option<EntryTarget>)
    ensures var d := e.(target := t);
            && RuleBase(d) == RuleBase(e) && ReverseBase(d) == ReverseBase(e) && ForwardBase(d) == ForwardBase(e)
            && ForwardReverseBase(d) == ForwardReverseBase(e) && IsLocal(d) == IsLocal(e)
                && IsForward(d) == IsForward(e)
            && Stateful(d) == Stateful(e)
  {
  }

  lemma SameLog(e: Entry, t: Option<EntryTarget>)
    ensures LogCommands(e.(target := t)) == LogCommands(e)
  {
    SameTexts(e, t);
    SameChains(e, t);
  }

  lemma SameLocal(lstate: bool, e: Entry)
    requires IsNat(e)
    ensures LocalCommands(lstate, e.(target := Some(Final(Accept)))) == LocalCommands(lstate, e)
  {
    SameTexts(e, Some(Final(Accept)));
    SameChains(e, Some(Final(Accept)));
  }

  lemma SameForward(style: Style, lstate: bool, e: Entry)
    requires IsNat(e)
    ensures ForwardCommands(style, lstate, e.(target := Some(Final(Accept)))) == ForwardCommands(style, lstate, e)
  {
    SameTexts(e, Some(Final(Accept)));
    SameChains(e, Some(Final(Accept)));
  }

  /** In the filter table a rule that rewrites addresses is a rule that accepts. */
  lemma RewritesAccepts(style: Style, lstate: bool, e: Entry)
    requires IsNat(e)
    ensures var d := e.(target := Some(Final(Accept)));
            EntryCommands(style, lstate, e)
            == LogCommands(d) + NatCommands(style, e) + (LocalCommands(lstate, d) + ForwardCommands(style, lstate, d))
  {
    SameLog(e, Some(Final(Accept)));
    SameLocal(lstate, e);
    SameForward(style, lstate, e);
  }
}
