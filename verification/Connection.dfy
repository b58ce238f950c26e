/**
 * The managed Linux connection: tunnel, firewall and resolvers
 * (core/killswitch/src/linux_connection.rs, core/transport/src/linux.rs).
 */
module Connections {
  import opened Results
  import opened Hosts
  import opened Transports
  import opened Tunnels
  import opened Controllers
  import P = Prefixes
  import N = Nftables

  /** No resolver override on this link. */
  ghost predicate Unresolved(overrides: set<Override>, link: string) {
    forall o :: o in overrides ==> o.link != link
  }

  /** All lookups go to these resolvers over this link. */
  ghost predicate Resolved(overrides: set<Override>, link: string, resolvers: seq<P.IpAddr>) {
    && Override(link, Servers(resolvers)) in overrides
    && Override(link, RoutingDomain) in overrides && Override(link, DefaultRoute) in overrides
  }

  /** The commands and checks that set them, once the deadline was checked. */
  function InstallScript(link: string, resolvers: seq<P.IpAddr>): seq<Command> {
    [ResolverSet(link, Servers(resolvers)), Deadline, ResolverSet(link, RoutingDomain),
     Deadline, ResolverSet(link, DefaultRoute)]
  }

  /** The overrides on every other link. */
  ghost function Elsewhere(overrides: set<Override>, link: string): set<Override> {
    set o | o in overrides && o.link != link
  }

  ghost predicate ResolverEvent(e: Event, policy: TrafficPolicy, link: string) {
    && (e.command == ResolverRevert(link) || e.command.Deadline? || (e.command.ResolverSet? && e.command.link == link))
    && e.before.Policy() == policy
  }

  /** The log grew by resolver commands for one link only, under one policy. */
  ghost predicate Resolving(was: seq<Event>, log: seq<Event>, policy: TrafficPolicy, link: string) {
    was <= log && forall k :: |was| <= k < |log| ==> ResolverEvent(log[k], policy, link)
  }

  class DnsBackend {
    const host: Host
    var activeInterface: Option<string>

    constructor (host: Host)
      ensures this.host == host && activeInterface == None
    {
      this.host := host;
      activeInterface := None;
    }

    /** How far the log has come. */
    ghost function Now(): nat
      reads host
    {
      |host.trace|
    }

    method Command(c: Command) returns (r: Outcome<TransportError>)
      modifies host
      ensures r.Pass? == (host.outcomes(old(Now())) && Possible(old(host.state), c))
      ensures r.Fail? ==> r.error == Network
      ensures host.state == if r.Pass? then Effect(old(host.state), c) else old(host.state)
      ensures host.trace == old(host.trace) + [Event(c, old(host.state), r.Pass?)]
      ensures Issued(old(host.trace), host.trace, [c])
    {
      var ok := host.Run(c);
      CommandsMore(old(host.trace), Event(c, old(host.state), ok));
      r := if ok then Pass else Fail(Network);
    }

    method Check() returns (r: Outcome<TransportError>)
      modifies host
      ensures r.Pass? == host.outcomes(old(Now()))
      ensures host.state == old(host.state)
      ensures host.trace == old(host.trace) + [Event(Deadline, old(host.state), r.Pass?)]
      ensures Issued(old(host.trace), host.trace, [Deadline])
    {
      var ok := host.Check();
      CommandsMore(old(host.trace), Event(Deadline, old(host.state), ok));
      r := if ok then Pass else Fail(Cancelled);
    }

    /** A deadline check and then one setting. */
    method CheckedSet(link: string, setting: ResolverSetting) returns (r: Outcome<TransportError>)
      modifies host
      ensures host.state == old(host.state).(overrides := host.state.overrides)
      ensures Elsewhere(host.state.overrides, link) == Elsewhere(old(host.state.overrides), link)
      ensures Resolving(old(host.trace), host.trace, host.state.Policy(), link)
      ensures r.Pass? ==> host.state.overrides == old(host.state.overrides) + {Override(link, setting)}
      ensures r.Pass? == host.Fine(old(Now()), old(Now()) + 2)
      ensures r.Pass? ==> Issued(old(host.trace), host.trace, [Deadline, ResolverSet(link, setting)])
      ensures r.Fail? ==> old(Now()) < Now() && !host.outcomes(Now() - 1)
    {
      r := Check();
      if r.Fail? { return; }
      ghost var log := host.trace;
      r := Command(ResolverSet(link, setting));
      IssuedMore(old(host.trace), log, host.trace, [Deadline], [ResolverSet(link, setting)]);
    }

    /** The three settings, stopping at the first failure. */
    method Install(link: string, resolvers: seq<P.IpAddr>) returns (r: Outcome<TransportError>)
      modifies host
      ensures host.state == old(host.state).(overrides := host.state.overrides)
      ensures Elsewhere(host.state.overrides, link) == Elsewhere(old(host.state.overrides), link)
      ensures Resolving(old(host.trace), host.trace, host.state.Policy(), link)
      ensures r.Pass? ==> Resolved(host.state.overrides, link, resolvers)
      ensures r.Pass? ==> Issued(old(host.trace), host.trace, InstallScript(link, resolvers))
      ensures r.Fail? ==> old(Now()) < Now() && !host.outcomes(Now() - 1)
      ensures host.Fine(old(Now()), old(Now()) + 5) ==> r.Pass?
    {
      r := Command(ResolverSet(link, Servers(resolvers)));
      if r.Fail? { return; }
      ghost var log := host.trace;
      r := CheckedSet(link, RoutingDomain);
      if r.Fail? { return; }
      IssuedMore(old(host.trace), log, host.trace, [ResolverSet(link, Servers(resolvers))],
                 [Deadline, ResolverSet(link, RoutingDomain)]);
      ghost var more := host.trace;
      r := CheckedSet(link, DefaultRoute);
      if r.Fail? { return; }
      IssuedMore(old(host.trace), more, host.trace,
                 [ResolverSet(link, Servers(resolvers))] + [Deadline, ResolverSet(link, RoutingDomain)],
                 [Deadline, ResolverSet(link, DefaultRoute)]);
    }

    /**
     * Installs the resolvers. Ownership is taken on success and also when the
     * cleanup after a failure fails, so what is not owned is not there.
     */
    method Configure(link: string, resolvers: seq<P.IpAddr>) returns (r: Outcome<TransportError>)
      requires activeInterface.None? ==> Unresolved(host.state.overrides, link)
      modifies this, host
      ensures host.state == old(host.state).(overrides := host.state.overrides)
      ensures Elsewhere(host.state.overrides, link) == Elsewhere(old(host.state.overrides), link)
      ensures Resolving(old(host.trace), host.trace, host.state.Policy(), link)
      ensures old(activeInterface).Some? ==> r == Fail(AlreadyConnected) && unchanged(this) && unchanged(host)
      ensures old(activeInterface).None? ==> activeInterface == None || activeInterface == Some(link)
      ensures activeInterface.None? ==> Unresolved(host.state.overrides, link)
      ensures r.Pass? ==>
        activeInterface == Some(link) && Resolved(host.state.overrides, link, resolvers)
      ensures r.Pass? ==> Issued(old(host.trace), host.trace, [Deadline] + InstallScript(link, resolvers))
      ensures
        && host.OneFault(old(Now())) && r.Fail?
        && old(activeInterface).None? && LinkName(link) && ValidResolvers(resolvers)
        ==> activeInterface.None? && host.FineFrom(Now()) && old(host.trace) <= host.trace
      ensures
        && host.Fine(old(Now()), old(Now()) + 6)
        && old(activeInterface).None? && LinkName(link) && ValidResolvers(resolvers)
        ==> r.Pass?
    {
      if activeInterface.Some? { return Fail(AlreadyConnected); }
      if !LinkName(link) { return Fail(InvalidConfig); }
      if !ValidResolvers(resolvers) { return Fail(InvalidConfig); }
      r := Check();
      if host.OneFault(old(Now())) && r.Fail? { host.AfterFault(old(Now()), old(Now())); }
      if r.Fail? { return; }
      ghost var log := host.trace;
      r := Install(link, resolvers);
      if r.Fail? {
        if host.OneFault(old(Now())) { host.AfterFault(old(Now()), Now() - 1); }
        var cleanup := Command(ResolverRevert(link));
        if cleanup.Fail? {
          activeInterface := Some(link);
          return Fail(Network);
        }
        return;
      }
      IssuedMore(old(host.trace), log, host.trace, [Deadline], InstallScript(link, resolvers));
      activeInterface := Some(link);
    }

    /** Reverts an owned link; a failure keeps the ownership for a retry. */
    method Revert(link: string) returns (r: Outcome<TransportError>)
      modifies this, host
      ensures host.state == old(host.state).(overrides := host.state.overrides)
      ensures Elsewhere(host.state.overrides, link) == Elsewhere(old(host.state.overrides), link)
      ensures old(activeInterface) != Some(link) ==> r == Fail(NotConnected) && unchanged(this) && unchanged(host)
      ensures old(activeInterface) == Some(link) ==>
        host.trace == old(host.trace) + [Event(ResolverRevert(link), old(host.state), r.Pass?)]
      ensures r.Pass? == (old(activeInterface) == Some(link) && host.outcomes(old(Now())))
      ensures old(activeInterface) == Some(link) && r.Fail? ==> r.error == Network
      ensures r.Pass? ==> activeInterface == None && Unresolved(host.state.overrides, link)
      ensures r.Fail? ==> unchanged(this) && host.state == old(host.state)
    {
      if activeInterface != Some(link) { return Fail(NotConnected); }
      :- Command(ResolverRevert(link));
      activeInterface := None;
      r := Pass;
    }
  }

  /**
   * A log entry that keeps the connection's promises: the controller's, and
   * that the link is deleted and filtering lifted only when no resolver
   * override is left on it, which is set only while the tunnel is open.
   */
  ghost predicate SafeEvent(e: Event, interface: string, foreign: Foreign) {
    if e.command.ResolverSet? then e.command.link == interface && e.before.Policy() == TunnelOnly(interface)
    else if e.command.ResolverRevert? then e.command.link == interface && !e.before.Policy().Disabled?
    else
      && ControlledEvent(e, interface, foreign)
      && (e.command == LinkDelete(interface) || e.command == ApplyPolicy(Disabled) ==>
            Unresolved(e.before.overrides, interface))
  }

  /** Every entry from `start` on keeps the promises. */
  ghost predicate SafeLog(log: seq<Event>, start: nat, interface: string, foreign: Foreign) {
    start <= |log| && forall k :: start <= k < |log| ==> SafeEvent(log[k], interface, foreign)
  }

  /** The controller keeps the connection's promises when the link has no overrides. */
  lemma ControlledIsSafe(was: seq<Event>, log: seq<Event>, start: nat, overrides: set<Override>,
                         interface: string, foreign: Foreign)
    requires SafeLog(was, start, interface, foreign)
    requires Controlled(was, log, overrides, interface, foreign)
    requires Unresolved(overrides, interface)
             || forall k :: |was| <= k < |log| ==> log[k].command == ApplyPolicy(BlockNonTunnel)
    ensures SafeLog(log, start, interface, foreign)
  {
  }

  /** So do the resolver commands issued while the tunnel is open. */
  lemma ResolvingIsSafe(was: seq<Event>, log: seq<Event>, start: nat, interface: string, foreign: Foreign)
    requires SafeLog(was, start, interface, foreign)
    requires Resolving(was, log, TunnelOnly(interface), interface)
    ensures SafeLog(log, start, interface, foreign)
  {
  }

  class LinuxConnection {
    const controller: ConnectionController
    const dns: DnsBackend
    const resolvers: seq<P.IpAddr>
    const interface: string
    const transport: TransportConfig

    ghost const start: nat
    ghost const foreignOverrides: set<Override>

    constructor Adopt(controller: ConnectionController, dns: DnsBackend, resolvers: seq<P.IpAddr>,
                      interface: string, transport: TransportConfig, ghost start: nat)
      requires controller.Valid() && !controller.adapter.connected && controller.adapter.interface == interface
      requires LinkName(interface) && ValidResolvers(resolvers)
      requires ValidProfile(controller.adapter.profile) && controller.adapter.Fits(transport)
      requires dns.host == controller.adapter.backend.host && dns.activeInterface.None?
      requires Unresolved(dns.host.state.overrides, interface)
      requires SafeLog(dns.host.trace, start, interface, controller.adapter.backend.foreign)
      ensures this.controller == controller && this.dns == dns && this.interface == interface
      ensures this.resolvers == resolvers && this.transport == transport
      ensures foreignOverrides == dns.host.state.overrides
      ensures Valid()
    {
      this.controller := controller;
      this.dns := dns;
      this.resolvers := resolvers;
      this.interface := interface;
      this.transport := transport;
      this.start := start;
      foreignOverrides := dns.host.state.overrides;
      assert Elsewhere(dns.host.state.overrides, interface) == dns.host.state.overrides;
    }

    ghost predicate Valid()
      reads this, controller, dns, controller.adapter, controller.adapter.backend, controller.adapter.backend.host
    {
      && controller.Valid()
      && dns.host == controller.adapter.backend.host
      && interface == controller.adapter.interface && LinkName(interface) && ValidResolvers(resolvers)
      && ValidProfile(controller.adapter.profile) && controller.adapter.Fits(transport)
      && SafeLog(dns.host.trace, start, interface, controller.adapter.backend.foreign)
      && Elsewhere(dns.host.state.overrides, interface) == foreignOverrides
      && (dns.activeInterface.None? ==> Unresolved(dns.host.state.overrides, interface))
      && (dns.activeInterface.Some? ==> dns.activeInterface == Some(interface) && controller.adapter.connected)
    }

    /** How far the log has come. */
    ghost function Now(): nat
      reads dns.host
    {
      |dns.host.trace|
    }

    /** The host is as it was before this connection, apart from the traffic policy. */
    ghost predicate Restored()
      reads this, controller, dns, dns.host, controller.adapter, controller.adapter.backend
    {
      && dns.host.state.links == controller.adapter.backend.foreign.links
      && dns.host.state.rules == controller.adapter.backend.foreign.rules
      && dns.host.state.overrides == foreignOverrides
    }

    /** When traffic is unfiltered, nothing this connection created is left. */
    lemma DisabledIsRestored()
      requires Valid()
      ensures dns.host.state.Policy().Disabled? ==> Restored()
      ensures !controller.transportMayBeActive ==> Restored()
      ensures controller.killSwitch.alwaysOn ==> !dns.host.state.Policy().Disabled?
    {
    }

    /** So is it whenever nothing of the tunnel is left. */
    lemma CleanIsRestored()
      requires Valid() && controller.adapter.Clean()
      ensures Restored()
    {
      controller.adapter.CleanMeansForeignOnly();
      assert Elsewhere(dns.host.state.overrides, interface) == dns.host.state.overrides;
    }

    /** The resolvers are reverted but the tunnel is still up: no call changes either any more. */
    ghost predicate Halted()
      reads this, dns, controller, controller.adapter
    {
      controller.adapter.connected && dns.activeInterface.None?
    }

    /** No call succeeds any more, and filtering stays on: stranded, or halted half way through a teardown. */
    ghost predicate Dead()
      reads this, dns, controller, controller.adapter, controller.adapter.backend
    {
      Halted() || controller.Stranded()
    }

    /** Blocks, connects, then installs the resolvers; undoes the tunnel if they cannot be. */
    method Connect() returns (r: Result<string, ConnectionError>)
      requires Valid()
      modifies controller, dns, controller.adapter, controller.adapter.backend, controller.adapter.backend.host
      ensures Valid()
      ensures controller.killSwitch.alwaysOn == old(controller.killSwitch.alwaysOn)
      ensures r.Ok? ==>
        && dns.activeInterface == Some(interface)
        && controller.killSwitch.policy == TunnelOnly(interface)
        && Resolved(dns.host.state.overrides, interface, resolvers)
      ensures old(controller.adapter.connected) ==> r.Err?
      ensures old(controller.Stuck()) ==> r.Err? && controller.Stuck()
      ensures old(Halted()) ==> r.Err? && Halted()
      ensures old(Dead()) ==> r.Err? && Dead()
      ensures old(dns.host.trace) <= dns.host.trace
      ensures dns.host.FineFrom(old(Now())) && r.Err? ==>
        && r != Err(FirewallFailed) && controller.transportMayBeActive
        && (old(controller.adapter.Clean()) ==> controller.adapter.Clean())
      ensures r.Err? ==> !r.error.KillSwitchFailed?
      ensures Opened(old(dns.host.trace), dns.host.trace, interface) ||
              r == Err(FirewallFailed) || (r.Err? && controller.transportMayBeActive)
      ensures r.Ok? ==>
        && controller.adapter.Connectable() && controller.adapter.connected
        && Issued(old(dns.host.trace), dns.host.trace,
                  controller.Script() + ([Deadline] + InstallScript(interface, resolvers)))
      ensures
        && dns.host.Fine(old(Now()), old(Now()) + 11 + SetUpOps(controller.adapter.profile))
        && old(!controller.adapter.connected && controller.adapter.Clean()) && controller.adapter.Connectable()
        ==> r.Ok?
      ensures
        && dns.host.OneFault(old(Now())) && r.Err?
        && old(!controller.adapter.connected && controller.adapter.Clean()) && controller.adapter.Connectable()
        ==> controller.adapter.Clean() && Restored() && !Dead()
      ensures
        && r.Err? && r != Err(FirewallFailed) && !old(controller.adapter.connected)
        && !controller.adapter.Connectable()
        ==> controller.Stranded()
      ensures
        && dns.host.Fine(old(Now()), old(Now()) + 2) && Interrupted(dns.host, old(Now()) + 2)
        && old(controller.adapter.Clean()) && interface !in controller.adapter.backend.foreign.links
        ==> r.Err? && controller.Stuck()
      ensures !old(dns.host.state.Policy().Disabled?) ==> !dns.host.state.Policy().Disabled?
    {
      var session := OpenUp();
      if session.Err? { return session; }
      ghost var log := dns.host.trace;
      var resolved := Resolve();
      if resolved.Fail? { return Err(resolved.error); }
      IssuedMore(old(dns.host.trace), log, dns.host.trace, controller.Script(),
                 [Deadline] + InstallScript(interface, resolvers));
      r := session;
    }

    /** The controller's part: blocks, brings the tunnel up and opens it. */
    method OpenUp() returns (r: Result<string, ConnectionError>)
      requires Valid()
      modifies controller, controller.adapter, controller.adapter.backend, controller.adapter.backend.host
      ensures Valid() && controller.killSwitch.alwaysOn == old(controller.killSwitch.alwaysOn)
      ensures r.Ok? ==>
        && !old(controller.adapter.connected) && controller.adapter.Connectable() && !old(controller.Stuck())
        && controller.killSwitch.policy == TunnelOnly(interface) && r.value == interface
        && Opened(old(dns.host.trace), dns.host.trace, interface)
        && Issued(old(dns.host.trace), dns.host.trace, controller.Script())
      ensures old(controller.Stuck()) ==> r.Err? && controller.Stuck()
      ensures old(Halted()) ==> r.Err? && Halted()
      ensures old(Dead()) ==> r.Err? && Dead()
      ensures old(dns.host.trace) <= dns.host.trace
      ensures dns.host.FineFrom(old(Now())) && r.Err? ==>
        && r != Err(FirewallFailed) && controller.transportMayBeActive
        && (old(controller.adapter.Clean()) ==> controller.adapter.Clean())
      ensures r.Err? ==> !r.error.KillSwitchFailed?
      ensures r.Err? ==> r == Err(FirewallFailed) || controller.transportMayBeActive
      ensures
        && dns.host.Fine(old(Now()), old(Now()) + 5 + SetUpOps(controller.adapter.profile))
        && old(!controller.adapter.connected && controller.adapter.Clean()) && controller.adapter.Connectable()
        ==> r.Ok?
      ensures
        && dns.host.OneFault(old(Now())) && r.Err?
        && old(!controller.adapter.connected && controller.adapter.Clean()) && controller.adapter.Connectable()
        ==> controller.adapter.Clean() && Restored() && !Dead()
      ensures
        && r.Err? && r != Err(FirewallFailed) && !old(controller.adapter.connected)
        && !controller.adapter.Connectable()
        ==> controller.Stranded()
      ensures
        && dns.host.Fine(old(Now()), old(Now()) + 2) && Interrupted(dns.host, old(Now()) + 2)
        && old(controller.adapter.Clean()) && interface !in controller.adapter.backend.foreign.links
        ==> r.Err? && controller.Stuck()
      ensures !old(dns.host.state.Policy().Disabled?) ==> !dns.host.state.Policy().Disabled?
    {
      ghost var log := dns.host.trace;
      N.LinkNameRenders(controller.filter, interface);
      r := controller.Connect(transport);
      ControlledIsSafe(log, dns.host.trace, start, dns.host.state.overrides, interface,
                       controller.adapter.backend.foreign);
      if controller.adapter.Clean() { CleanIsRestored(); }
    }

    /** Sets the resolvers of a tunnel that is open, or gives the tunnel up. */
    method Resolve() returns (r: Outcome<ConnectionError>)
      requires Valid() && controller.killSwitch.policy == TunnelOnly(interface)
      modifies controller, dns, controller.adapter, controller.adapter.backend, controller.adapter.backend.host
      ensures Valid() && old(dns.host.trace) <= dns.host.trace
      ensures controller.killSwitch.alwaysOn == old(controller.killSwitch.alwaysOn)
      ensures !dns.host.state.Policy().Disabled?
      ensures r.Pass? ==>
        && dns.activeInterface == Some(interface) && controller.adapter.connected
        && controller.killSwitch.policy == TunnelOnly(interface)
        && Resolved(dns.host.state.overrides, interface, resolvers)
        && Issued(old(dns.host.trace), dns.host.trace, [Deadline] + InstallScript(interface, resolvers))
      ensures r.Fail? ==> r.error.TransportFailed?
      ensures dns.host.OneFault(old(Now())) && old(dns.activeInterface).None? && r.Fail? ==>
        && controller.adapter.Clean() && !controller.transportMayBeActive && Restored()
        && controller.killSwitch.policy == BlockNonTunnel
      ensures dns.host.Fine(old(Now()), old(Now()) + 6) && old(dns.activeInterface).None? ==> r.Pass?
    {
      ghost var foreign, log := controller.adapter.backend.foreign, dns.host.trace;
      var configured := dns.Configure(interface, resolvers);
      ResolvingIsSafe(log, dns.host.trace, start, interface, foreign);
      if configured.Fail? {
        var error := GiveUp(configured.error);
        return Fail(error);
      }
      r := Pass;
    }

    /** Reverts resolvers that are still owned and, if that succeeds, takes the tunnel down again. */
    method GiveUp(error: TransportError) returns (e: ConnectionError)
      requires Valid() && controller.killSwitch.policy == TunnelOnly(interface)
      modifies controller, dns, controller.adapter, controller.adapter.backend, controller.adapter.backend.host
      ensures Valid() && e.TransportFailed? && old(dns.host.trace) <= dns.host.trace
      ensures controller.killSwitch.alwaysOn == old(controller.killSwitch.alwaysOn)
      ensures !dns.host.state.Policy().Disabled?
      ensures dns.host.FineFrom(old(Now())) ==>
        && controller.adapter.Clean() && !controller.transportMayBeActive && Restored()
        && controller.killSwitch.policy == BlockNonTunnel && e == TransportFailed(error)
      ensures
        var reverted := old(Now()) + if old(dns.activeInterface).Some? then 1 else 0;
        dns.host.Fine(old(Now()), reverted) ==>
        reverted < Now() && dns.host.trace[reverted].command == ApplyPolicy(BlockNonTunnel)
    {
      ghost var foreign, log := controller.adapter.backend.foreign, dns.host.trace;
      if dns.activeInterface.Some? {
        var cleanup := dns.Revert(interface);
        ResolvingIsSafe(log, dns.host.trace, start, interface, foreign);
        if cleanup.Fail? { return TransportFailed(Network); }
      }
      e := TakeDown(error);
    }

    /** Takes down a tunnel whose resolvers are not set. */
    method TakeDown(error: TransportError) returns (e: ConnectionError)
      requires Valid() && controller.killSwitch.policy == TunnelOnly(interface) && dns.activeInterface.None?
      modifies controller, controller.adapter, controller.adapter.backend, controller.adapter.backend.host
      ensures Valid() && e.TransportFailed? && old(dns.host.trace) <= dns.host.trace
      ensures controller.killSwitch.alwaysOn == old(controller.killSwitch.alwaysOn)
      ensures !dns.host.state.Policy().Disabled?
      ensures dns.host.FineFrom(old(Now())) ==>
        && controller.adapter.Clean() && !controller.transportMayBeActive && Restored()
        && controller.killSwitch.policy == BlockNonTunnel && e == TransportFailed(error)
      ensures old(Now()) < Now() && dns.host.trace[old(Now())].command == ApplyPolicy(BlockNonTunnel)
    {
      ghost var log := dns.host.trace;
      var down := controller.Disconnect();
      ControlledIsSafe(log, dns.host.trace, start, dns.host.state.overrides, interface,
                       controller.adapter.backend.foreign);
      DisabledIsRestored();
      e := TransportFailed(if down.Pass? then error else Network);
    }

    /** Resolvers first, then the tunnel. */
    method Disconnect() returns (r: Outcome<ConnectionError>)
      requires Valid()
      modifies controller, dns, controller.adapter, controller.adapter.backend, controller.adapter.backend.host
      ensures Valid()
      ensures controller.killSwitch.alwaysOn == old(controller.killSwitch.alwaysOn)
      ensures r.Pass? ==>
        Restored() && !controller.transportMayBeActive && controller.killSwitch.policy == BlockNonTunnel
      ensures !old(dns.host.state.Policy().Disabled?) ==> !dns.host.state.Policy().Disabled?
      ensures old(controller.Stuck()) ==> r.Fail? && controller.Stuck()
      ensures old(dns.activeInterface).None? ==> r == Fail(TransportFailed(NotConnected)) && unchanged(dns.host)
      ensures old(Halted()) ==> r.Fail? && Halted()
      ensures old(Dead()) ==> r.Fail? && Dead()
      ensures old(dns.host.trace) <= dns.host.trace
      ensures r == Fail(TransportFailed(NotConnected)) <==> old(dns.activeInterface).None?
      ensures r.Fail? ==> controller.adapter.connected == old(controller.adapter.connected)
      ensures dns.host.FineFrom(old(Now())) && old(dns.activeInterface).Some? ==> r.Pass?
      ensures old(dns.activeInterface).Some? && dns.host.outcomes(old(Now())) && !dns.host.outcomes(old(Now()) + 1) ==>
        r.Fail? && Halted()
      ensures r.Fail? && old(dns.activeInterface).Some? && dns.activeInterface.None? ==> Halted()
    {
      var reverted := dns.Revert(interface);
      if reverted.Fail? { return Fail(TransportFailed(reverted.error)); }
      ghost var log := dns.host.trace;
      r := controller.Disconnect();
      ControlledIsSafe(log, dns.host.trace, start, dns.host.state.overrides, interface,
                       controller.adapter.backend.foreign);
      DisabledIsRestored();
    }

    method Disable() returns (r: Outcome<ConnectionError>)
      requires Valid()
      modifies controller, controller.adapter.backend.host
      ensures Valid()
      ensures controller.killSwitch.alwaysOn == old(controller.killSwitch.alwaysOn)
      ensures r.Pass? ==> Restored() && dns.host.state.Policy() == Disabled
      ensures r.Fail? ==> dns.host.state.Policy() == old(dns.host.state.Policy())
      ensures old(controller.Stuck()) ==> r.Fail? && controller.Stuck()
      ensures old(Halted()) ==> r.Fail? && Halted()
      ensures old(Dead()) ==> r.Fail? && Dead()
      ensures old(dns.host.trace) <= dns.host.trace
      ensures controller.transportMayBeActive == old(controller.transportMayBeActive)
      ensures !old(controller.transportMayBeActive) && !controller.killSwitch.alwaysOn ==>
        dns.host.trace ==
        old(dns.host.trace) + [Event(ApplyPolicy(Disabled), old(dns.host.state), r.Pass?)]
      ensures r.Pass? <==>
        !old(controller.transportMayBeActive) && !controller.killSwitch.alwaysOn && dns.host.outcomes(old(Now()))
    {
      ghost var log := dns.host.trace;
      r := controller.Disable();
      ControlledIsSafe(log, dns.host.trace, start, dns.host.state.overrides, interface,
                       controller.adapter.backend.foreign);
      DisabledIsRestored();
    }
  }
}
