/** `VppPapiProvider`: the object the tests use to drive the engine. It keeps
    the current hook and the transport, and every call it makes is logged as
    the sequence of events the hook and the transport see. */
module Provider {
  import opened Wrappers
  import opened PapiTypes
  import opened CallTrace
  import CliText
  import ArgBuilders

  class VppPapiProvider {
    const name: string
    const shmPrefix: string
    /** The transport, loaded from the engine's API descriptions. */
    const papi: Papi
    var hook: Hook
    /** Everything the hooks and the transport have seen, oldest first. */
    var log: seq<Event>

    constructor (name: string, shmPrefix: string, papi: Papi)
      ensures this.name == name && this.shmPrefix == shmPrefix && this.papi == papi
      ensures hook == Hook("vpp-papi-provider") && log == []
    {
      this.name := name;
      this.shmPrefix := shmPrefix;
      this.papi := papi;
      hook := Hook("vpp-papi-provider");
      log := [];
    }

    /** Replaces the hook; every later call reports to `hook`. */
    method RegisterHook(hook: Hook)
      modifies this`hook
      ensures this.hook == hook && log == old(log)
    {
      this.hook := hook;
    }

    /** Calls `fn` with `args` between the api hooks and checks the reply's
        retval against `expected`. */
    method Api(fn: ApiFn, args: Args, expected: int := 0) returns (r: Result<Reply, Error>)
      modifies this`log
      ensures r == ApiOutcome(fn, args, expected)
      ensures log == old(log) + ApiEvents(hook, fn, args, expected)
    {
      log := log + [BeforeApi(hook, fn.name, args)];
      log := log + [Call(fn.name, args)];
      var reply := fn.callee(args);
      if reply.retval.Some? && reply.retval.value != expected {
        log := log + [Fail(expected, reply)];
        return Failure(CallFailed(expected, reply));
      }
      log := log + [AfterApi(hook, fn.name, args)];
      return Success(reply);
    }

    /** Runs one CLI command between the cli hooks and returns its output
        without the NUL padding, or nothing when the reply has no payload. */
    method Cli(cmd: string) returns (out: Option<string>)
      modifies this`log
      ensures out == CliText.CliOutput(papi.cliInband(|cmd| + 1, cmd + "\n"))
      ensures log == old(log) + CliEvents(hook, cmd)
    {
      log := log + [BeforeCli(hook, cmd)];
      var cli := cmd;
      cli := cli + "\n";
      log := log + [CliInband(|cli|, cli)];
      var r := papi.cliInband(|cli|, cli);
      log := log + [AfterCli(hook, cli)];
      if r.reply.Some? {
        out := Some(CliText.StripTrailingNul(r.reply.value));
      } else {
        out := None;
      }
    }

    /** Runs one CLI command and returns the command and its output as one
        text. */
    method Ppcli(cmd: string) returns (text: string)
      modifies this`log
      ensures text == CliText.PpcliText(cmd, CliText.CliOutput(papi.cliInband(|cmd| + 1, cmd + "\n")))
      ensures log == old(log) + CliEvents(hook, cmd)
    {
      var out := Cli(cmd);
      text := cmd + "\n" + CliText.PyStr(out);
    }

    method SwInterfaceDump(filter: Option<Value> := None) returns (r: Result<Reply, Error>)
      modifies this`log
      ensures r == ApiOutcome(papi.Fn("sw_interface_dump"), ArgBuilders.SwInterfaceDumpArgs(filter))
      ensures log == old(log) + ApiEvents(hook, papi.Fn("sw_interface_dump"), ArgBuilders.SwInterfaceDumpArgs(filter))
    {
      var args := ArgBuilders.SwInterfaceDumpArgs(filter);
      r := Api(papi.Fn("sw_interface_dump"), args);
    }

    method SwInterfaceAddDelAddress(p: ArgBuilders.AddDelAddressParams) returns (r: Result<Reply, Error>)
      modifies this`log
      ensures r == ApiOutcome(papi.Fn("sw_interface_add_del_address"), ArgBuilders.SwInterfaceAddDelAddressArgs(p))
      ensures log == old(log) + ApiEvents(hook, papi.Fn("sw_interface_add_del_address"),
                                          ArgBuilders.SwInterfaceAddDelAddressArgs(p))
    {
      r := Api(papi.Fn("sw_interface_add_del_address"), ArgBuilders.SwInterfaceAddDelAddressArgs(p));
    }

    /** Calls the engine's `sw_interface_set_mpls_enable`. */
    method SwInterfaceEnableDisableMpls(p: ArgBuilders.MplsEnableParams) returns (r: Result<Reply, Error>)
      modifies this`log
      ensures r == ApiOutcome(papi.Fn("sw_interface_set_mpls_enable"), ArgBuilders.SwInterfaceEnableDisableMplsArgs(p))
      ensures log == old(log) + ApiEvents(hook, papi.Fn("sw_interface_set_mpls_enable"),
                                          ArgBuilders.SwInterfaceEnableDisableMplsArgs(p))
    {
      r := Api(papi.Fn("sw_interface_set_mpls_enable"), ArgBuilders.SwInterfaceEnableDisableMplsArgs(p));
    }

    method BridgeDomainAddDel(p: ArgBuilders.BridgeDomainParams) returns (r: Result<Reply, Error>)
      modifies this`log
      ensures r == ApiOutcome(papi.Fn("bridge_domain_add_del"), ArgBuilders.BridgeDomainAddDelArgs(p))
      ensures log == old(log) + ApiEvents(hook, papi.Fn("bridge_domain_add_del"), ArgBuilders.BridgeDomainAddDelArgs(p))
    {
      r := Api(papi.Fn("bridge_domain_add_del"), ArgBuilders.BridgeDomainAddDelArgs(p));
    }

    /** A MAC that `int(_, 16)` rejects raises before any hook runs. */
    method L2fibAddDel(p: ArgBuilders.L2fibParams) returns (r: Result<Reply, Error>)
      modifies this`log
      ensures ArgBuilders.L2fibAddDelArgs(p).Failure? ==>
                r == Failure(ArgBuilders.L2fibAddDelArgs(p).error) && log == old(log)
      ensures ArgBuilders.L2fibAddDelArgs(p).Success? ==>
                && r == ApiOutcome(papi.Fn("l2fib_add_del"), ArgBuilders.L2fibAddDelArgs(p).value)
                && log == old(log) + ApiEvents(hook, papi.Fn("l2fib_add_del"), ArgBuilders.L2fibAddDelArgs(p).value)
    {
      var args := ArgBuilders.L2fibAddDelArgs(p);
      if args.Failure? {
        return Failure(args.error);
      }
      r := Api(papi.Fn("l2fib_add_del"), args.value);
    }

    method VxlanAddDelTunnel(p: ArgBuilders.VxlanParams) returns (r: Result<Reply, Error>)
      modifies this`log
      ensures r == ApiOutcome(papi.Fn("vxlan_add_del_tunnel"), ArgBuilders.VxlanAddDelTunnelArgs(p))
      ensures log == old(log) + ApiEvents(hook, papi.Fn("vxlan_add_del_tunnel"), ArgBuilders.VxlanAddDelTunnelArgs(p))
    {
      r := Api(papi.Fn("vxlan_add_del_tunnel"), ArgBuilders.VxlanAddDelTunnelArgs(p));
    }

    method IpAddDelRoute(p: ArgBuilders.RouteParams) returns (r: Result<Reply, Error>)
      modifies this`log
      ensures r == ApiOutcome(papi.Fn("ip_add_del_route"), ArgBuilders.IpAddDelRouteArgs(p))
      ensures log == old(log) + ApiEvents(hook, papi.Fn("ip_add_del_route"), ArgBuilders.IpAddDelRouteArgs(p))
    {
      r := Api(papi.Fn("ip_add_del_route"), ArgBuilders.IpAddDelRouteArgs(p));
    }
  }
}
