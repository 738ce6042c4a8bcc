/** The requests and responses a privileged traffic host understands. */
module HostProtocol {
  import opened Common

  const PROTOCOL_VERSION: u16 := 1

  datatype Capability = Tun | Ipv6 | RouteTransaction | DnsTransaction | SocketProtection | CrashRecovery

  datatype IpNetwork = IpNetwork(address: IpAddr, prefixLength: u8)

  datatype StartParameters = StartParameters(
    mtu: u16, ipv4: Option<IpNetwork>, ipv6: Option<IpNetwork>, dns: seq<IpAddr>)

  datatype Command = Hello | Status | Start(configuration: StartParameters) | Stop | Recover

  datatype Request = Request(
    version: u16, requestId: u64, profileGeneration: u64, capabilities: set<Capability>, command: Command)

  datatype HostState = Recovering | Stopped | Starting | Running | Stopping | Failed

  datatype ErrorCode =
    | Unauthorized | UnsupportedVersion | UnsupportedCapability | InvalidConfiguration
    | GenerationConflict | Busy | Platform | RecoveryRequired

  datatype Success = HelloDone | StatusIs(state: HostState) | Started | StoppedDone | Recovered

  type CommandResult = Result<Success, ErrorCode>

  datatype Response = Response(
    version: u16, requestId: u64, profileGeneration: u64, capabilities: set<Capability>,
    response: CommandResult)

  predicate NetworkFits(network: Option<IpNetwork>) {
    network.None?
    || network.value.prefixLength <= (if network.value.address.V4? then 32 else 128)
  }

  predicate ValidConfiguration(c: StartParameters) {
    && 576 <= c.mtu <= 9000
    && (c.ipv4.Some? || c.ipv6.Some?)
    && 0 < |c.dns| <= 16
    && NetworkFits(c.ipv4) && NetworkFits(c.ipv6)
  }
}
