/** The syntax trees of the filter language, in the shapes the grammar gives them: every list is
    left-nested and may be empty. */
module FilterSyntax {
  import opened FilterSpec

  datatype Args<+T> = NoArgs | SnocArg(front: Args<T>, arg: T)

  datatype HostArg = HostArg(host: string, mask: Option<string>)

  datatype PortArg = PortArg(min: string, max: Option<string>)

  datatype TargetName = AcceptName | RejectName | DropName | MasqName | ProxyName | RedirectName

  datatype OptionName = LocalOption | ForwardOption | OnewayOption | LogOption(message: Option<string>)

  datatype Specifier =
    | Compound(list: Subrules)
    | DirectionArgs(direction: Direction, ifaces: Args<string>)
    | TargetArg(target: TargetName)
    | HostArgs(source: bool, hosts: Args<HostArg>)
    | PortArgs(source: bool, ports: Args<PortArg>)
    | ProtocolArgs(protocols: Args<string>)
    | IcmpArgs(types: Args<string>)
    | OptionArg(option: OptionName)
    | Chaingroup(name: Option<string>, list: Subrules)

  datatype Negated = Negated(negated: bool, spec: Specifier)

  datatype Specifiers = NoSpecifiers | SnocSpecifier(front: Specifiers, last: Negated)

  /** A list of alternatives has at least one member, which may be empty. */
  datatype Subrules = OneSubrule(specs: Specifiers) | SnocSubrule(front: Subrules, specs: Specifiers)

  datatype RuleList = NoRules | SnocRule(front: RuleList, rule: Specifiers)
}
