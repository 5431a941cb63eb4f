/** `cli::parse` of src/cli.rs: turns the parsed command line into one of
    the operations. Command-line syntax (clap) is not modelled: the input is
    the map of already-typed values clap produces, one optional field per
    argument. The source panics on a bad IP version, a missing required
    argument and an unknown operation; here those are errors. */
module Cli {
  import opened Wrappers

  datatype Args = Args(operation: Option<string>, interfaceName: Option<string>, ipStart: Option<string>,
                       ipVersion: Option<int>, bindPort: Option<int>, servicePort: Option<int>,
                       verbose: bool, host: Option<string>, port: Option<int>, key: Option<nat>)

  datatype CliOperation =
    | ListInterfaces(verbose: bool, printV4: bool, printV6: bool)
    | ListIps(verbose: bool, printV4: bool, printV6: bool, name: string, startingOctets: Option<string>)
    | Listen(printV4: bool, printV6: bool, name: string, startingOctets: Option<string>, bindPort: int)
    | Claim(printV4: bool, printV6: bool, host: string, port: int, name: string,
            startingOctets: Option<string>, bindPort: int, key: nat)
    | Publish(printV4: bool, printV6: bool, host: string, port: int, name: string,
              startingOctets: Option<string>, bindPort: int, servicePort: int, key: nat)

  datatype CliError = BadIpVersion | MissingOperation | MissingArgument(arg: string) | UnknownOperation

  /** The IP-version flags: 4 or 6 selects that version alone, no value
      selects both, anything else is rejected. */
  function IpVersionFlags(v: Option<int>): (r: Result<(bool, bool), CliError>)
    ensures v == Some(4) <==> r == Ok((true, false))
    ensures v == Some(6) <==> r == Ok((false, true))
    ensures v.None? <==> r == Ok((true, true))
    ensures r.Err? <==> v.Some? && v.value != 4 && v.value != 6
    ensures r.Err? ==> r.error == BadIpVersion
  {
    match v
    case None => Ok((true, true))
    case Some(4) => Ok((true, false))
    case Some(6) => Ok((false, true))
    case Some(_) => Err(BadIpVersion)
  }

  /** The first of the arguments `claim` insists on that is absent, in the
      order it checks them; `None` when all are given. */
  function ClaimMissing(args: Args): (r: Option<string>)
    ensures r.None? <==>
              args.host.Some? && args.port.Some? && args.interfaceName.Some? && args.bindPort.Some? && args.key.Some?
    ensures args.host.None? ==> r == Some("host")
  {
    if args.host.None? then Some("host")
    else if args.port.None? then Some("port")
    else if args.interfaceName.None? then Some("interface_name")
    else if args.bindPort.None? then Some("bind_port")
    else if args.key.None? then Some("key")
    else None
  }

  /** The same for `publish`, which also needs the service port; it is
      checked after the bind port and before the key. */
  function PublishMissing(args: Args): (r: Option<string>)
    ensures r.None? <==> ClaimMissing(args).None? && args.servicePort.Some?
    ensures ClaimMissing(args).Some? && ClaimMissing(args) != Some("key") ==> r == ClaimMissing(args)
    ensures (args.host.Some? && args.port.Some? && args.interfaceName.Some? && args.bindPort.Some? &&
             args.servicePort.None?) ==> r == Some("service_port")
  {
    if args.host.None? then Some("host")
    else if args.port.None? then Some("port")
    else if args.interfaceName.None? then Some("interface_name")
    else if args.bindPort.None? then Some("bind_port")
    else if args.servicePort.None? then Some("service_port")
    else if args.key.None? then Some("key")
    else None
  }

  /** `parse`. */
  function Parse(args: Args): (r: Result<CliOperation, CliError>)
    ensures IpVersionFlags(args.ipVersion).Err? ==> r == Err(BadIpVersion)
    ensures args.operation.None? && IpVersionFlags(args.ipVersion).Ok? ==> r == Err(MissingOperation)
    ensures r.Ok? ==> args.operation.Some? && KnownOperation(args.operation.value) &&
                      (r.value.printV4, r.value.printV6) == IpVersionFlags(args.ipVersion).value
  {
    match IpVersionFlags(args.ipVersion)
    case Err(e) => Err(e)
    case Ok((v4, v6)) =>
      match args.operation
      case None => Err(MissingOperation)
      case Some(op) =>
        if op == "list_interfaces" then
          Ok(ListInterfaces(args.verbose, v4, v6))
        else if op == "list_ips" then
          if args.interfaceName.None? then Err(MissingArgument("interface_name"))
          else Ok(ListIps(args.verbose, v4, v6, args.interfaceName.value, args.ipStart))
        else if op == "listen" then
          if args.interfaceName.None? then Err(MissingArgument("interface_name"))
          else if args.bindPort.None? then Err(MissingArgument("bind_port"))
          else Ok(Listen(v4, v6, args.interfaceName.value, args.ipStart, args.bindPort.value))
        else if op == "claim" then
          match ClaimMissing(args)
          case Some(a) => Err(MissingArgument(a))
          case None =>
            Ok(Claim(v4, v6, args.host.value, args.port.value, args.interfaceName.value, args.ipStart,
                     args.bindPort.value, args.key.value))
        else if op == "publish" then
          match PublishMissing(args)
          case Some(a) => Err(MissingArgument(a))
          case None =>
            Ok(Publish(v4, v6, args.host.value, args.port.value, args.interfaceName.value, args.ipStart,
                       args.bindPort.value, args.servicePort.value, args.key.value))
        else Err(UnknownOperation)
  }

  predicate KnownOperation(op: string)
  {
    op in {"list_interfaces", "list_ips", "listen", "claim", "publish"}
  }

  /** A bad IP version is rejected before anything else is looked at, and
      an operation name outside the five is an error. */
  lemma ParseErrors(args: Args)
    ensures IpVersionFlags(args.ipVersion).Err? ==> Parse(args) == Err(BadIpVersion)
    ensures (IpVersionFlags(args.ipVersion).Ok? && args.operation.Some? && !KnownOperation(args.operation.value))
            ==> Parse(args) == Err(UnknownOperation)
  {
  }

  /** `list_interfaces` copies the verbose flag and the version flags. */
  lemma ParseListInterfaces(args: Args)
    requires args.operation == Some("list_interfaces")
    ensures var f := IpVersionFlags(args.ipVersion);
            f.Ok? ==> Parse(args) == Ok(ListInterfaces(args.verbose, f.value.0, f.value.1))
  {
  }

  /** `claim` succeeds exactly when host, port, interface name, bind port
      and key are all given, and then carries them over unchanged. */
  lemma ParseClaim(args: Args)
    requires args.operation == Some("claim") && IpVersionFlags(args.ipVersion).Ok?
    ensures Parse(args).Ok? <==>
              args.host.Some? && args.port.Some? && args.interfaceName.Some? && args.bindPort.Some? && args.key.Some?
    ensures Parse(args).Ok? ==>
              var f := IpVersionFlags(args.ipVersion).value;
              Parse(args).value == Claim(f.0, f.1, args.host.value, args.port.value, args.interfaceName.value,
                                         args.ipStart, args.bindPort.value, args.key.value)
    ensures Parse(args).Err? ==> Parse(args).error.MissingArgument?
  {
  }

  /** `publish` needs the same arguments as `claim` plus the service port. */
  lemma ParsePublish(args: Args)
    requires args.operation == Some("publish") && IpVersionFlags(args.ipVersion).Ok?
    ensures Parse(args).Ok? <==>
              args.host.Some? && args.port.Some? && args.interfaceName.Some? && args.bindPort.Some? &&
              args.key.Some? && args.servicePort.Some?
    ensures Parse(args).Ok? ==>
              var f := IpVersionFlags(args.ipVersion).value;
              Parse(args).value == Publish(f.0, f.1, args.host.value, args.port.value, args.interfaceName.value,
                                           args.ipStart, args.bindPort.value, args.servicePort.value, args.key.value)
    ensures Parse(args).Err? ==> PublishMissing(args).Some? && Parse(args) == Err(MissingArgument(PublishMissing(args).value))
    ensures args.host.None? ==> Parse(args) == Err(MissingArgument("host"))
  {
  }
}
