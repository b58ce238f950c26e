/**
 * When a connection can still be torn down and its filtering lifted, and how it
 * comes to the states where it cannot (core/killswitch/src/lib.rs,
 * core/killswitch/src/linux_connection.rs).
 */
module DeadEnds {
  import opened Hosts
  import opened Transports
  import opened Tunnels
  import opened Adapters
  import opened Connections
  import opened ConnectionRuns

  /**
   * From now on nothing goes wrong. Then, and only then if the connection is not
   * dead, it can be torn down: by disconnecting, or by connecting first where a
   * failed attempt left the transport marked active. Without always-on that also
   * lifts the filtering.
   */
  method Lift(c: LinuxConnection) returns (done: bool)
    requires c.Valid() && c.dns.host.FineFrom(|c.dns.host.trace|)
    modifies c.controller, c.dns, c.controller.adapter, c.controller.adapter.backend, c.controller.adapter.backend.host
    ensures c.Valid() && c.controller.killSwitch.alwaysOn == old(c.controller.killSwitch.alwaysOn)
    ensures done <==> !old(c.Dead())
    ensures done ==>
      && c.Restored() && !c.controller.transportMayBeActive
      && (c.dns.host.state.Policy().Disabled? <==> !c.controller.killSwitch.alwaysOn)
    ensures !done ==> c.Dead() && !c.dns.host.state.Policy().Disabled?
  {
    done := TearDownFinally(c);
    if done && !c.controller.killSwitch.alwaysOn {
      var lifted := c.Disable();
    }
    c.DisabledIsRestored();
  }

  /** The teardown part of it. */
  method TearDownFinally(c: LinuxConnection) returns (done: bool)
    requires c.Valid() && c.dns.host.FineFrom(|c.dns.host.trace|)
    modifies c.controller, c.dns, c.controller.adapter, c.controller.adapter.backend, c.controller.adapter.backend.host
    ensures c.Valid() && c.controller.killSwitch.alwaysOn == old(c.controller.killSwitch.alwaysOn)
    ensures old(c.dns.host.trace) <= c.dns.host.trace
    ensures done <==> !old(c.Dead())
    ensures done ==> !c.controller.transportMayBeActive
    ensures !done ==> c.Dead()
  {
    if !c.controller.transportMayBeActive { return true; }
    if !c.controller.adapter.connected {
      var session := c.Connect();
      if session.Err? { return false; }
    }
    var down := c.Disconnect();
    done := down.Pass?;
  }

  // --- Runs into each dead end ----------------------------------------------

  /** What the host must hold for the tunnel to come up beside it. */
  ghost predicate Free(s: Settings, state: HostState) {
    s.interface !in state.links && forall r :: r in RulePlan(s.profile.allowed, s.mark) ==> r !in state.rules
  }

  /** Being free is exactly what bringing the tunnel up needs: a validated plan repeats nothing. */
  lemma FreeIsConnectable(s: Settings, state: HostState)
    requires ValidProfile(s.profile)
    ensures Free(s, state) <==>
      s.interface !in state.links && Installable(RulePlan(s.profile.allowed, s.mark), state.rules)
  {
    ValidPlan(s.profile, s.mark);
  }

  /**
   * Nothing fails, but the link or a planned rule was there before: one attempt
   * to connect, and filtering can never be lifted although the host is restored.
   */
  method EnterStranded(s: Settings, state: HostState) returns (c: LinuxConnection)
    requires Usable(s) && Unresolved(state.overrides, s.interface) && !Free(s, state)
    ensures c.Valid() && c.Dead() && !c.controller.Stuck() && !c.Halted()
    ensures c.Restored() && !c.dns.host.state.Policy().Disabled?
  {
    var host := new Host(state, n => true);
    var built := WithRunners(s, host);
    c := built.value;
    FreeIsConnectable(s, state);
    var session := c.Connect();
    c.controller.adapter.CleanMeansForeignOnly();
    assert Elsewhere(c.dns.host.state.overrides, c.interface) == c.dns.host.state.overrides;
  }

  /** The deadline passes once the link exists, and the link cannot be deleted: it is left behind for good. */
  method EnterStuck(s: Settings, state: HostState) returns (c: LinuxConnection)
    requires Usable(s) && Unresolved(state.overrides, s.interface) && s.interface !in state.links
    ensures c.Valid() && c.Dead() && c.controller.Stuck()
    ensures !c.Restored() && !c.dns.host.state.Policy().Disabled?
  {
    var host := new Host(state, n => n != 5 && n != 6);
    var built := WithRunners(s, host);
    c := built.value;
    var session := c.Connect();
    c.controller.adapter.CleanMeansForeignOnly();
  }

  /** Connected, and then the resolvers are reverted but blocking cannot be restored: the tunnel stays for good. */
  method EnterHalted(s: Settings, state: HostState) returns (c: LinuxConnection)
    requires Usable(s) && Unresolved(state.overrides, s.interface) && Free(s, state)
    ensures c.Valid() && c.Dead() && c.Halted()
    ensures !c.Restored() && !c.dns.host.state.Policy().Disabled?
  {
    var connected := 12 + SetUpOps(s.profile);
    var host := new Host(state, n => n != connected + 1);
    var built := WithRunners(s, host);
    c := built.value;
    FreeIsConnectable(s, state);
    var session := c.Connect();
    var down := c.Disconnect();
  }
}
