/** The vocabulary shared by every stage of the compiler: the specifiers of the filter
    language and the data they carry.  Text (addresses, ports, names) stays uninterpreted. */
module FilterSpec {

  datatype Option<+T> = None | Some(value: T)

  datatype Direction = Input | Output

  datatype Target = Accept | Drop | Reject | Masq | Redirect

  /** `oneway` reaches the filter tree as a routing type, not as a flag of its own. */
  datatype RoutingType = LocalOnly | RoutedOnly | OneWayType

  datatype Addr = Addr(addr: string, mask: Option<string>)

  datatype Ports = Ports(min: string, max: Option<string>)

  datatype Proto = Proto(num: int, name: string)

  const TCP := 6
  const UDP := 17
  const ICMP := 1

  /** What one leaf of the filter tree says. */
  datatype Spec =
    | DirectionSpec(direction: Direction, iface: string)
    | TargetSpec(target: Target)
    | SourceSpec(source: Addr)
    | DestSpec(dest: Addr)
    | SportSpec(sport: Ports)
    | DportSpec(dport: Ports)
    | IcmpSpec(icmp: string)
    | ProtoSpec(proto: Proto)
    | LogSpec(text: Option<string>)
    | RoutingSpec(rtype: RoutingType)
    | OnewaySpec

  lemma SeqAssoc<T>(a: seq<T>, b: seq<T>, c: seq<T>)
    ensures (a + b) + c == a + (b + c)
  {
  }
}
