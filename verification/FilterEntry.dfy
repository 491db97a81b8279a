/** `struct filterent` and what one specifier does to it: the part of the rule generator that does
    not look at the graph. */
module FilterEntry {
  import opened FilterSpec

  /** The kinds of specifier that have a bit in `whats_set` and `whats_negated`. */
  datatype Kind =
    | DirectionBit | TargetBit | SourceBit | DestBit | SportBit | DportBit
    | IcmpBit | ProtoBit | LogBit | RoutingBit | OnewayBit | SubgroupBit

  datatype EntryTarget = Final(target: Target) | ToSubgroup

  datatype Entry = Entry(
    direction: Option<Direction>,
    iface: Option<string>,
    groupname: Option<string>,
    target: Option<EntryTarget>,
    subgroup: Option<string>,
    whatsSet: set<Kind>,
    negated: set<Kind>,
    src: Option<Addr>,
    dst: Option<Addr>,
    rtype: Option<RoutingType>,
    proto: Option<Proto>,
    logmsg: Option<string>,
    oneway: bool,
    sport: Option<Ports>,
    dport: Option<Ports>,
    icmp: Option<string>)

  const EMPTY := Entry(None, None, None, None, None, {}, {}, None, None, None, None, None, false, None, None, None)

  /** A leaf of the filter tree together with its sign. */
  datatype Literal = Literal(spec: Spec, negate: bool)

  datatype Flags = Flags(local: bool, route: bool)

  function KindOf(s: Spec): Kind {
    match s
    case DirectionSpec(_, _) => DirectionBit
    case TargetSpec(_) => TargetBit
    case SourceSpec(_) => SourceBit
    case DestSpec(_) => DestBit
    case SportSpec(_) => SportBit
    case DportSpec(_) => DportBit
    case IcmpSpec(_) => IcmpBit
    case ProtoSpec(_) => ProtoBit
    case LogSpec(_) => LogBit
    case RoutingSpec(_) => RoutingBit
    case OnewaySpec => OnewayBit
  }

  predicate IsRange(p: Option<Ports>) {
    p.Some? && p.value.max.Some?
  }

  /** The guard of each case: the specifier has been given before.  The guard for a destination
      port looks at the source port's range. */
  predicate Refuses(e: Entry, s: Spec) {
    match s
    case DirectionSpec(_, _) => DirectionBit in e.whatsSet || e.iface.Some?
    case TargetSpec(_) => TargetBit in e.whatsSet
    case SourceSpec(_) => e.src.Some?
    case DestSpec(_) => e.dst.Some?
    case SportSpec(_) => e.sport.Some?
    case DportSpec(_) => IsRange(e.sport)
    case IcmpSpec(_) => e.icmp.Some?
    case ProtoSpec(_) => e.proto.Some?
    case LogSpec(_) => false
    case RoutingSpec(_) => e.rtype.Some?
    case OnewaySpec => false
  }

  function Assign(e: Entry, s: Spec): Entry {
    match s
    case DirectionSpec(d, i) => e.(whatsSet := e.whatsSet + {DirectionBit}, direction := Some(d), iface := Some(i))
    case TargetSpec(t) => e.(whatsSet := e.whatsSet + {TargetBit}, target := Some(Final(t)))
    case SourceSpec(a) => e.(src := Some(a))
    case DestSpec(a) => e.(dst := Some(a))
    case SportSpec(p) => e.(sport := Some(p))
    case DportSpec(p) => e.(dport := Some(p))
    case IcmpSpec(i) => e.(icmp := Some(i))
    case ProtoSpec(p) => e.(proto := Some(p))
    case LogSpec(text) => e.(whatsSet := e.whatsSet + {LogBit}, logmsg := text)
    case RoutingSpec(r) => e.(rtype := Some(r))
    case OnewaySpec => e.(oneway := true)
  }

  function Mark(e: Entry, k: Kind, negate: bool): Entry {
    if negate then e.(negated := e.negated + {k}) else e
  }

  /** One leaf: None when the original reports a repeated specifier. */
  function ApplyLiteral(e: Entry, l: Literal): Option<Entry> {
    if Refuses(e, l.spec) then None else Some(Mark(Assign(e, l.spec), KindOf(l.spec), l.negate))
  }

  /** All leaves of a path in turn. */
  function Fold(e: Entry, ls: seq<Literal>): Option<Entry>
    decreases |ls|
  {
    if ls == [] then Some(e)
    else
      match ApplyLiteral(e, ls[0])
      case None => None
      case Some(e') => Fold(e', ls[1..])
  }

  /** `applydefaults`. */
  function Defaults(e: Entry, fl: Flags): Entry {
    if e.rtype.Some? then e
    else if fl.local then e.(rtype := Some(LocalOnly))
    else if fl.route then e.(rtype := Some(RoutedOnly))
    else e
  }

  function ProtoNum(e: Entry): int {
    if e.proto.Some? then e.proto.value.num else 0
  }

  /** `checkmatch` finds nothing to complain about. */
  predicate Complete(e: Entry) {
    && (e.subgroup.None? ==> e.target.Some?)
    && (e.groupname.None? ==> e.direction.Some? && e.iface.Some?)
    && (e.sport.Some? || e.dport.Some? ==> ProtoNum(e) == TCP || ProtoNum(e) == UDP)
    && (e.icmp.Some? ==> ProtoNum(e) == ICMP)
    && !(e.rtype == Some(LocalOnly) && e.target == Some(Final(Masq)))
  }

  /** The entry handed to the rule callback at the end of a path, if the path is sound. */
  function Finish(e: Entry, fl: Flags): Option<Entry> {
    if Complete(Defaults(e, fl)) then Some(Defaults(e, fl)) else None
  }

  // ----- subgroups -----

  predicate RefusesGroup(e: Entry) {
    SubgroupBit in e.whatsSet || e.subgroup.Some?
  }

  function AssignGroup(e: Entry, name: string): Entry {
    e.(whatsSet := e.whatsSet + {SubgroupBit}, target := Some(ToSubgroup), subgroup := Some(name))
  }

  /** The entry a group's body starts from: only the direction is inherited. */
  function GroupEntry(e: Entry, name: string): Entry {
    EMPTY.(groupname := Some(name), direction := e.direction)
  }

  /** The chains a rule built from the entry is appended to or jumps to. */
  function Names(e: Entry): set<string> {
    (if e.groupname.Some? then {e.groupname.value} else {}) + (if e.subgroup.Some? then {e.subgroup.value} else {})
  }
}
