/**
 * Building a connection, driving it, and what every run keeps
 * (core/killswitch/src/linux_connection.rs, apps/linux-client/src/lib.rs).
 */
module ConnectionRuns {
  import opened Results
  import opened Hosts
  import opened Transports
  import opened Tunnels
  import opened Adapters
  import opened Controllers
  import opened Connections
  import P = Prefixes
  import N = Nftables

  datatype BuildError = EndpointMustBeIpAddress | FirewallRefused | Unusable(cause: TransportError)

  /** `endpointAddress` is the endpoint's host when it parses as an address. */
  datatype Settings = Settings(
    interface: string,
    profile: Profile,
    endpointAddress: Option<P.IpAddr>,
    resolvers: seq<P.IpAddr>,
    mark: nat,
    timeout: nat,
    alwaysOn: bool)

  /** The settings the connection can be built from. */
  predicate Usable(s: Settings) {
    && s.endpointAddress.Some? && s.timeout != 0
    && ValidResolvers(s.resolvers) && LinkName(s.interface) && ValidProfile(s.profile)
  }

  /** Validates the settings, arms blocking and only then hands out a connection. */
  method WithRunners(s: Settings, host: Host) returns (r: Result<LinuxConnection, BuildError>)
    requires Unresolved(host.state.overrides, s.interface)
    modifies host
    ensures r.Ok? <==> Usable(s) && host.outcomes(|old(host.trace)|)
    ensures r.Ok? ==>
      && fresh(r.value) && fresh(r.value.controller) && fresh(r.value.dns)
      && fresh(r.value.controller.adapter) && fresh(r.value.controller.adapter.backend)
      && r.value.dns.host == host && r.value.Valid() && r.value.Restored()
      && r.value.controller.killSwitch == KillSwitch(s.alwaysOn, BlockNonTunnel)
      && !r.value.controller.transportMayBeActive
      && r.value.interface == s.interface && r.value.controller.adapter.profile == s.profile
      && r.value.controller.adapter.backend.mark == s.mark
      && r.value.controller.adapter.backend.foreign == Foreign(old(host.state.links), old(host.state.rules))
      && r.value.controller.filter == N.NftablesConfig(s.endpointAddress.value, s.profile.endpoint.port)
      && r.value.resolvers == s.resolvers
      && r.value.transport == TransportConfig(WireGuard, s.profile.endpoint, s.timeout)
      && Issued(old(host.trace), host.trace, [ApplyPolicy(BlockNonTunnel)])
    ensures host.state.(applied := old(host.state.applied)) == old(host.state)
    ensures r.Err? ==> host.state == old(host.state)
    ensures r == Err(EndpointMustBeIpAddress) <==> s.endpointAddress.None?
    ensures s.endpointAddress.Some? && !Usable(s) ==> r == Err(Unusable(InvalidConfig)) && unchanged(host)
    ensures Usable(s) && r.Err? ==> r == Err(FirewallRefused)
  {
    if s.endpointAddress.None? { return Err(EndpointMustBeIpAddress); }
    var transport := TransportConfig(WireGuard, s.profile.endpoint, s.timeout);
    if !transport.Valid() { return Err(Unusable(InvalidConfig)); }
    if !ValidResolvers(s.resolvers) { return Err(Unusable(InvalidConfig)); }
    if !LinkName(s.interface) { return Err(Unusable(InvalidConfig)); }
    if !ValidProfile(s.profile) { return Err(Unusable(InvalidConfig)); }
    var killSwitch := KillSwitch.New(s.alwaysOn).Enable();
    var filter := N.NftablesConfig(s.endpointAddress.value, s.profile.endpoint.port);
    var rules := N.Render(filter, killSwitch.policy);
    if rules.Err? { return Err(FirewallRefused); }
    ghost var start := |host.trace|;
    var ok := host.Run(ApplyPolicy(killSwitch.policy));
    if !ok { return Err(FirewallRefused); }
    CommandsMore(old(host.trace), host.trace[start]);
    var backend := new LinuxBackend(host, s.mark);
    var adapter := new WireGuardAdapter(s.interface, s.profile, backend);
    var dns := new DnsBackend(host);
    var controller := new ConnectionController.Adopt(killSwitch, adapter, filter);
    var c := new LinuxConnection.Adopt(controller, dns, s.resolvers, s.interface, transport, start);
    r := Ok(c);
  }

  datatype Call = ConnectCall | DisconnectCall | DisableCall

  /**
   * Every run: whatever is called, in whatever order, and whichever commands
   * fail, the log keeps the connection's promises, unfiltered traffic means the
   * host is restored, an always-on connection is never unfiltered, and a dead
   * connection refuses every call and stays dead and filtered.
   */
  method Run(c: LinuxConnection, calls: seq<Call>) returns (rs: seq<Outcome<ConnectionError>>)
    requires c.Valid()
    modifies c.controller, c.dns, c.controller.adapter, c.controller.adapter.backend, c.controller.adapter.backend.host
    ensures c.Valid()
    ensures SafeLog(c.dns.host.trace, c.start, c.interface, c.controller.adapter.backend.foreign)
    ensures c.controller.killSwitch.policy == c.dns.host.state.Policy()
    ensures c.dns.host.state.Policy().Disabled? ==> c.Restored()
    ensures c.dns.host.state.Policy().TunnelOnly? ==>
            c.controller.adapter.connected && c.dns.host.state.Policy().interface == c.interface
    ensures old(c.controller.killSwitch.alwaysOn) ==> !c.dns.host.state.Policy().Disabled?
    ensures !Unresolved(c.dns.host.state.overrides, c.interface) ==>
            c.dns.activeInterface == Some(c.interface) && c.controller.adapter.connected
    ensures old(c.controller.Stuck()) ==> c.controller.Stuck() && !c.dns.host.state.Policy().Disabled?
    ensures old(c.Halted()) ==> c.Halted() && !c.dns.host.state.Policy().Disabled?
    ensures |rs| == |calls|
    ensures old(c.Dead()) ==>
      c.Dead() && !c.dns.host.state.Policy().Disabled? && forall k :: 0 <= k < |calls| ==> rs[k].Fail?
    ensures N.Enforced(c.controller.filter, c.dns.host.state)
  {
    rs := [];
    for i := 0 to |calls|
      invariant c.Valid() && |rs| == i
      invariant old(c.Dead()) ==> c.Dead() && forall k :: 0 <= k < i ==> rs[k].Fail?
      invariant c.controller.killSwitch.alwaysOn == old(c.controller.killSwitch.alwaysOn)
      invariant old(c.controller.Stuck()) ==> c.controller.Stuck()
      invariant old(c.Halted()) ==> c.Halted()
    {
      var r := Step(c, calls[i]);
      rs := rs + [r];
    }
    c.DisabledIsRestored();
    Renders(c);
    N.EffectiveIsEnforced(c.controller.filter, c.dns.host.state);
  }

  /** One call. */
  method Step(c: LinuxConnection, call: Call) returns (r: Outcome<ConnectionError>)
    requires c.Valid()
    modifies c.controller, c.dns, c.controller.adapter, c.controller.adapter.backend, c.controller.adapter.backend.host
    ensures c.Valid() && c.controller.killSwitch.alwaysOn == old(c.controller.killSwitch.alwaysOn)
    ensures old(c.controller.Stuck()) ==> c.controller.Stuck()
    ensures old(c.Halted()) ==> c.Halted()
    ensures old(c.Dead()) ==> r.Fail? && c.Dead()
  {
    match call {
      case ConnectCall =>
        var session := c.Connect();
        r := if session.Err? then Fail(session.error) else Pass;
      case DisconnectCall => r := c.Disconnect();
      case DisableCall => r := c.Disable();
    }
  }

  /** Whatever policy is effective, the firewall can render it. */
  lemma Renders(c: LinuxConnection)
    requires c.Valid()
    ensures N.Render(c.controller.filter, c.dns.host.state.Policy()).Ok?
  {
    N.LinkNameRenders(c.controller.filter, c.interface);
  }

  /**
   * Every tunnel command of a safe log was issued while packets could leave only
   * by loopback or to the endpoint.
   */
  lemma TunnelCommandsRunBlocked(e: Event, interface: string, foreign: Foreign, config: N.NftablesConfig,
                                 r: N.Ruleset, p: N.Packet)
    requires SafeEvent(e, interface, foreign) && e.command.Tunnel() && N.TABLE !in r
    ensures N.Accepts(N.ApplyAll(config, r, e.before.applied), p) <==> N.Essential(config, p)
  {
    assert e.before.Policy() == BlockNonTunnel;
    N.EffectiveIsEnforced(config, e.before);
    assert N.Accepts(N.ApplyAll(config, r, e.before.applied), p) <==> N.Allows(config, e.before.Policy(), p);
  }

  /**
   * Connects, waits, tears down. Success means the host is restored, and
   * unfiltered unless always-on. A connect that fails because the tunnel cannot
   * be brought up ends with filtering on, even without always-on and after a
   * clean rollback; when nothing goes wrong that is the only way to fail.
   */
  method RunUntilShutdown(c: LinuxConnection, alwaysOn: bool) returns (r: Outcome<ConnectionError>)
    requires c.Valid()
    modifies c.controller, c.dns, c.controller.adapter, c.controller.adapter.backend, c.controller.adapter.backend.host
    ensures c.Valid()
    ensures c.dns.host.state.Policy().Disabled? ==> c.Restored()
    ensures old(c.controller.killSwitch.alwaysOn) ==> !c.dns.host.state.Policy().Disabled?
    ensures r.Pass? ==> c.Restored()
    ensures r.Pass? ==> c.dns.host.state.Policy() == if alwaysOn then BlockNonTunnel else Disabled
    ensures alwaysOn && !old(c.dns.host.state.Policy().Disabled?) ==> !c.dns.host.state.Policy().Disabled?
    ensures !alwaysOn && !old(c.controller.killSwitch.alwaysOn) && !c.controller.transportMayBeActive ==>
      LiftedLast(c.dns.host)
    ensures r.Fail? && r != Fail(FirewallFailed) && !Opened(old(c.dns.host.trace), c.dns.host.trace, c.interface) ==>
      c.controller.transportMayBeActive && !c.dns.host.state.Policy().Disabled?
    ensures
      && r.Fail? && r != Fail(FirewallFailed) && !old(c.controller.adapter.connected)
      && !c.controller.adapter.Connectable()
      ==> c.Dead() && !c.dns.host.state.Policy().Disabled?
    ensures c.dns.host.FineFrom(|old(c.dns.host.trace)|) && alwaysOn == old(c.controller.killSwitch.alwaysOn) ==>
      && (r.Pass? <==> old(!c.controller.adapter.connected && c.controller.adapter.Clean())
                       && c.controller.adapter.Connectable())
      && (r.Fail? ==> !c.dns.host.state.Policy().Disabled?)
  {
    var connected := c.Connect();
    if connected.Err? {
      if !alwaysOn {
        var _ := c.Disable();
      }
      c.DisabledIsRestored();
      return Fail(connected.error);
    }
    r := ShutDown(c, alwaysOn);
  }

  /** The last thing that happened was lifting the filtering, which the firewall may have refused. */
  ghost predicate LiftedLast(host: Host)
    reads host
  {
    && host.trace != [] && host.trace[|host.trace| - 1].command == ApplyPolicy(Disabled)
    && (host.trace[|host.trace| - 1].done ==> host.state.Policy().Disabled?)
  }

  /** The end of it, once connected. */
  method ShutDown(c: LinuxConnection, alwaysOn: bool) returns (r: Outcome<ConnectionError>)
    requires c.Valid() && c.controller.adapter.connected
    modifies c.controller, c.dns, c.controller.adapter, c.controller.adapter.backend, c.controller.adapter.backend.host
    ensures c.Valid() && old(c.dns.host.trace) <= c.dns.host.trace
    ensures c.controller.killSwitch.alwaysOn == old(c.controller.killSwitch.alwaysOn)
    ensures c.dns.host.state.Policy().Disabled? ==> c.Restored()
    ensures old(c.controller.killSwitch.alwaysOn) ==> !c.dns.host.state.Policy().Disabled?
    ensures r.Pass? ==> c.Restored() && c.dns.host.state.Policy() == if alwaysOn then BlockNonTunnel else Disabled
    ensures !alwaysOn && !old(c.controller.killSwitch.alwaysOn) && !c.controller.transportMayBeActive ==>
      LiftedLast(c.dns.host)
    ensures (alwaysOn || r.Fail?) && !old(c.dns.host.state.Policy().Disabled?) ==> !c.dns.host.state.Policy().Disabled?
    ensures
      && c.dns.host.FineFrom(|old(c.dns.host.trace)|) && old(c.dns.activeInterface).Some?
      && alwaysOn == old(c.controller.killSwitch.alwaysOn)
      ==> r.Pass?
  {
    r := c.Disconnect();
    c.DisabledIsRestored();
    if r.Fail? { return; }
    if !alwaysOn {
      r := c.Disable();
      c.DisabledIsRestored();
    }
  }
}
