/**
 * The kill-switch state machine and the controller that keeps it ahead of the
 * transport (core/killswitch/src/lib.rs).
 */
module Controllers {
  import opened Results
  import opened Hosts
  import opened Transports
  import opened Tunnels
  import opened Adapters
  import N = Nftables

  datatype KillSwitchError = AlwaysOn | NotEnabled | InvalidInterface | TransportActive

  datatype ConnectionError =
    | FirewallFailed
    | KillSwitchFailed(reason: KillSwitchError)
    | TransportFailed(cause: TransportError)

  /** The state machine is a value: the controller tries a copy before adopting it. */
  datatype KillSwitch = KillSwitch(alwaysOn: bool, policy: TrafficPolicy) {

    static function New(alwaysOn: bool): (k: KillSwitch) {
      KillSwitch(alwaysOn, if alwaysOn then BlockNonTunnel else Disabled)
    }

    function Enable(): KillSwitch {
      this.(policy := BlockNonTunnel)
    }

    function Disable(): (r: Result<KillSwitch, KillSwitchError>) {
      if alwaysOn then Err(AlwaysOn) else Ok(this.(policy := Disabled))
    }

    function TunnelEstablished(interface: string): (r: Result<KillSwitch, KillSwitchError>) {
      if policy.Disabled? then Err(NotEnabled)
      else if !FilterName(interface) then Err(InvalidInterface)
      else Ok(this.(policy := TunnelOnly(interface)))
    }

    function TunnelLost(): KillSwitch {
      if policy.Disabled? then this else this.(policy := BlockNonTunnel)
    }
  }

  /**
   * A log entry that keeps the controller's promises: tunnel commands run only
   * while everything outside the tunnel is blocked, what was there before is
   * never deleted, filtering is lifted only when nothing of the tunnel is left,
   * and the tunnel is opened only on a link that exists.
   */
  ghost predicate ControlledEvent(e: Event, interface: string, foreign: Foreign) {
    && !e.command.ResolverSet? && !e.command.ResolverRevert?
    && (e.command.Tunnel() ==> e.before.Policy() == BlockNonTunnel)
    && (e.command.LinkDelete? ==> e.command.link !in foreign.links)
    && (e.command.RuleDelete? ==> e.command.rule !in foreign.rules)
    && (e.command == ApplyPolicy(Disabled) ==> e.before.links == foreign.links && e.before.rules == foreign.rules)
    && (e.command.ApplyPolicy? && e.command.policy.TunnelOnly? ==>
          e.command.policy.interface == interface && interface in e.before.links)
  }

  /** The log grew by such entries only, under one set of resolver overrides. */
  ghost predicate Controlled(was: seq<Event>, log: seq<Event>, overrides: set<Override>,
                             interface: string, foreign: Foreign)
  {
    was <= log && forall k :: |was| <= k < |log| ==>
      ControlledEvent(log[k], interface, foreign) && log[k].before.overrides == overrides
  }

  /** The tunnel was to be opened since. */
  ghost predicate Opened(was: seq<Event>, log: seq<Event>, interface: string) {
    exists k :: |was| <= k < |log| && log[k].command == ApplyPolicy(TunnelOnly(interface))
  }

  lemma ControlledMore(was: seq<Event>, log: seq<Event>, more: seq<Event>, overrides: set<Override>,
                       interface: string, foreign: Foreign)
    requires Controlled(was, log, overrides, interface, foreign)
    requires Controlled(log, more, overrides, interface, foreign)
    ensures Controlled(was, more, overrides, interface, foreign)
  {
  }

  /** Commands of the transport, under blocking rules or none at all, keep the promises. */
  lemma GrewIsControlled(was: seq<Event>, log: seq<Event>, more: seq<Event>, state: HostState,
                         interface: string, foreign: Foreign)
    requires Controlled(was, log, state.overrides, interface, foreign)
    requires Grew(log, more, state.Policy(), state.overrides, foreign)
    requires more == log || state.Policy() == BlockNonTunnel
    ensures Controlled(was, more, state.overrides, interface, foreign)
  {
  }

  class ConnectionController {
    var killSwitch: KillSwitch
    const adapter: WireGuardAdapter
    const filter: N.NftablesConfig
    var transportMayBeActive: bool

    /**
     * Between calls the recorded policy is the effective one, the tunnel is
     * open only while connected, an always-on switch never lifts filtering, and
     * a controller that believes the transport inactive is right.
     */
    ghost predicate Valid()
      reads this, adapter, adapter.backend, adapter.backend.host
    {
      && adapter.Valid()
      && killSwitch.policy == adapter.backend.host.state.Policy()
      && (killSwitch.policy.TunnelOnly? ==> adapter.connected && killSwitch.policy.interface == adapter.interface)
      && (killSwitch.alwaysOn ==> !killSwitch.policy.Disabled?)
      && (killSwitch.policy.Disabled? ==> !transportMayBeActive)
      && (!transportMayBeActive ==> adapter.Clean())
    }

    /** How far the log has come. */
    ghost function Now(): nat
      reads adapter.backend.host
    {
      |adapter.backend.host.trace|
    }

    /** A failed rollback left something behind that no later call removes. */
    ghost predicate Stuck()
      reads this, adapter, adapter.backend
    {
      !adapter.connected && !adapter.Clean()
    }

    /**
     * The transport may be active but is not connected, and can never be again:
     * something was left behind, or its link or a rule of its was there before.
     */
    ghost predicate Stranded()
      reads this, adapter, adapter.backend
    {
      !adapter.connected && transportMayBeActive && !(adapter.Clean() && adapter.Connectable())
    }

    /** Every command and check of a successful connect, in order. */
    ghost function Script(): (cs: seq<Command>)
      ensures |cs| == 5 + SetUpOps(adapter.profile)
    {
      [ApplyPolicy(BlockNonTunnel)] + (adapter.Script() + [ApplyPolicy(TunnelOnly(adapter.interface))])
    }

    /** The state after a successful `new`: the initial policy is already effective. */
    constructor Adopt(killSwitch: KillSwitch, adapter: WireGuardAdapter, filter: N.NftablesConfig)
      requires adapter.Valid() && adapter.Clean()
      requires killSwitch.policy == adapter.backend.host.state.Policy() && !killSwitch.policy.TunnelOnly?
      requires killSwitch.alwaysOn ==> !killSwitch.policy.Disabled?
      ensures this.killSwitch == killSwitch && this.adapter == adapter && this.filter == filter
      ensures !transportMayBeActive && Valid()
    {
      this.killSwitch := killSwitch;
      this.adapter := adapter;
      this.filter := filter;
      transportMayBeActive := false;
    }

    /** Renders a policy and applies it as one transaction; a failure changes nothing. */
    method Apply(policy: TrafficPolicy) returns (ok: bool)
      modifies adapter.backend.host
      ensures ok ==> adapter.backend.host.state == Effect(old(adapter.backend.host.state), ApplyPolicy(policy))
      ensures !ok ==> adapter.backend.host.state == old(adapter.backend.host.state)
      ensures ok == (N.Render(filter, policy).Ok? && adapter.backend.host.outcomes(old(Now())))
      ensures adapter.backend.host.added == old(adapter.backend.host.added)
      ensures adapter.backend.host.deleted == old(adapter.backend.host.deleted)
      ensures adapter.backend.host.trace == old(adapter.backend.host.trace) +
        if N.Render(filter, policy).Ok? then [Event(ApplyPolicy(policy), old(adapter.backend.host.state), ok)] else []
    {
      var rules := N.Render(filter, policy);
      if rules.Err? { return false; }
      ok := adapter.backend.host.Run(ApplyPolicy(policy));
    }

    /** Makes blocking effective before anything else may happen. */
    method Arm() returns (ok: bool)
      requires Valid()
      modifies this`killSwitch, this`transportMayBeActive, adapter.backend.host
      ensures Valid() && killSwitch.alwaysOn == old(killSwitch.alwaysOn)
      ensures ok == adapter.backend.host.outcomes(old(Now()))
      ensures ok ==> killSwitch.policy == BlockNonTunnel && transportMayBeActive
      ensures !ok ==> unchanged(this) && adapter.backend.host.state == old(adapter.backend.host.state)
      ensures adapter.backend.host.state.overrides == old(adapter.backend.host.state.overrides)
      ensures Now() == old(Now()) + 1
      ensures adapter.backend.host.trace[old(Now())].command == ApplyPolicy(BlockNonTunnel)
      ensures Issued(old(adapter.backend.host.trace), adapter.backend.host.trace, [ApplyPolicy(BlockNonTunnel)])
      ensures Controlled(old(adapter.backend.host.trace), adapter.backend.host.trace,
                         adapter.backend.host.state.overrides, adapter.interface, adapter.backend.foreign)
    {
      var blocking := killSwitch.Enable();
      ok := Apply(blocking.policy);
      CommandsMore(old(adapter.backend.host.trace), adapter.backend.host.trace[old(Now())]);
      if ok {
        killSwitch := blocking;
        transportMayBeActive := true;
      }
    }

    /**
     * Blocks, brings the tunnel up, then opens it. Any failure leaves blocking
     * in force.
     */
    method Connect(config: TransportConfig) returns (r: Result<string, ConnectionError>)
      requires Valid()
      modifies this, adapter, adapter.backend, adapter.backend.host
      ensures Valid()
      ensures killSwitch.alwaysOn == old(killSwitch.alwaysOn)
      ensures adapter.backend.host.state.overrides == old(adapter.backend.host.state.overrides)
      ensures Controlled(old(adapter.backend.host.trace), adapter.backend.host.trace,
                         adapter.backend.host.state.overrides, adapter.interface, adapter.backend.foreign)
      ensures r.Ok? ==>
        && !old(adapter.connected) && old(adapter.Clean()) && adapter.connected
        && r.value == adapter.interface && killSwitch.policy == TunnelOnly(adapter.interface)
        && Opened(old(adapter.backend.host.trace), adapter.backend.host.trace, adapter.interface)
      ensures r.Err? && r != Err(FirewallFailed) ==> killSwitch.policy == BlockNonTunnel
      ensures r.Err? ==> killSwitch.policy == BlockNonTunnel || killSwitch == old(killSwitch)
      ensures r.Err? && r.error.KillSwitchFailed? ==> !FilterName(adapter.interface)
      ensures old(Stuck()) ==> r.Err? && Stuck()
      ensures r.Err? && r.error.TransportFailed? ==> transportMayBeActive
      ensures r.Ok? ==>
        adapter.Connectable() && Issued(old(adapter.backend.host.trace), adapter.backend.host.trace, Script())
      ensures
        && adapter.backend.host.Fine(old(Now()), old(Now()) + 5 + SetUpOps(adapter.profile))
        && !old(adapter.connected) && adapter.Fits(config) && FilterName(adapter.interface)
        && old(adapter.Clean()) && adapter.Connectable()
        ==> r.Ok?
      ensures old(Stranded()) ==> r.Err? && Stranded()
      ensures adapter.backend.host.FineFrom(old(Now())) ==>
        r != Err(FirewallFailed) && (r.Err? && old(adapter.Clean()) ==> adapter.Clean())
      ensures
        && adapter.backend.host.OneFault(old(Now())) && FilterName(adapter.interface)
        && old(adapter.Clean()) && adapter.Connectable() && r.Err?
        ==> adapter.Clean()
      ensures r.Err? && r.error.TransportFailed? && !old(adapter.connected) && !adapter.Connectable() ==> Stranded()
      ensures
        && adapter.backend.host.Fine(old(Now()), old(Now()) + 2) && Interrupted(adapter.backend.host, old(Now()) + 2)
        && adapter.Fits(config) && old(adapter.Clean()) && adapter.interface !in adapter.backend.foreign.links
        ==> r.Err? && Stuck()
      ensures old(adapter.connected) ==> r.Err? && adapter.connected && forall k ::
                old(Now()) <= k < Now() ==>
                adapter.backend.host.trace[k].command == ApplyPolicy(BlockNonTunnel)
    {
      var ok := Arm();
      if !ok { return Err(FirewallFailed); }
      ghost var log := adapter.backend.host.trace;
      r := ConnectArmed(config);
      ControlledMore(old(adapter.backend.host.trace), log, adapter.backend.host.trace,
                     adapter.backend.host.state.overrides, adapter.interface, adapter.backend.foreign);
      if r.Ok? {
        IssuedMore(old(adapter.backend.host.trace), log, adapter.backend.host.trace, [ApplyPolicy(BlockNonTunnel)],
                   adapter.Script() + [ApplyPolicy(TunnelOnly(adapter.interface))]);
      }
    }

    /** The rest of connecting, once blocking is effective. */
    method ConnectArmed(config: TransportConfig) returns (r: Result<string, ConnectionError>)
      requires Valid() && killSwitch.policy == BlockNonTunnel && transportMayBeActive
      modifies this, adapter, adapter.backend, adapter.backend.host
      ensures Valid()
      ensures killSwitch.alwaysOn == old(killSwitch.alwaysOn)
      ensures adapter.backend.host.state.overrides == old(adapter.backend.host.state.overrides)
      ensures Controlled(old(adapter.backend.host.trace), adapter.backend.host.trace,
                         adapter.backend.host.state.overrides, adapter.interface, adapter.backend.foreign)
      ensures r.Ok? ==>
        && !old(adapter.connected) && old(adapter.Clean()) && adapter.connected
        && r.value == adapter.interface && killSwitch.policy == TunnelOnly(adapter.interface)
        && Opened(old(adapter.backend.host.trace), adapter.backend.host.trace, adapter.interface)
      ensures r.Err? ==> killSwitch.policy == BlockNonTunnel
      ensures r.Err? && r.error.KillSwitchFailed? ==> !FilterName(adapter.interface)
      ensures old(Stuck()) ==> r.Err? && Stuck()
      ensures r.Err? && r.error.TransportFailed? ==> transportMayBeActive
      ensures r.Ok? ==>
        && adapter.Connectable()
        && Issued(old(adapter.backend.host.trace), adapter.backend.host.trace,
                  adapter.Script() + [ApplyPolicy(TunnelOnly(adapter.interface))])
      ensures
        && adapter.backend.host.Fine(old(Now()), old(Now()) + 4 + SetUpOps(adapter.profile))
        && !old(adapter.connected) && adapter.Fits(config) && FilterName(adapter.interface)
        && old(adapter.Clean()) && adapter.Connectable()
        ==> r.Ok?
      ensures old(Stranded()) ==> r.Err? && Stranded()
      ensures adapter.backend.host.FineFrom(old(Now())) ==>
        r != Err(FirewallFailed) && (r.Err? && old(adapter.Clean()) ==> adapter.Clean())
      ensures
        && adapter.backend.host.OneFault(old(Now())) && FilterName(adapter.interface)
        && old(adapter.Clean()) && adapter.Connectable() && r.Err?
        ==> adapter.Clean()
      ensures r.Err? && r.error.TransportFailed? && !old(adapter.connected) && !adapter.Connectable() ==> Stranded()
      ensures
        && adapter.backend.host.outcomes(old(Now())) && Interrupted(adapter.backend.host, old(Now()) + 1)
        && adapter.Fits(config) && old(adapter.Clean()) && adapter.interface !in adapter.backend.foreign.links
        ==> r.Err? && Stuck()
      ensures old(adapter.connected) ==>
        r.Err? && adapter.connected && adapter.backend.host.trace == old(adapter.backend.host.trace)
    {
      var session := adapter.Connect(config);
      ghost var log := adapter.backend.host.trace;
      GrewIsControlled(old(adapter.backend.host.trace), old(adapter.backend.host.trace), log,
                       adapter.backend.host.state, adapter.interface, adapter.backend.foreign);
      if session.Err? { return Err(TransportFailed(session.error)); }
      var o := OpenTunnel(session.value);
      ControlledMore(old(adapter.backend.host.trace), log, adapter.backend.host.trace,
                     adapter.backend.host.state.overrides, adapter.interface, adapter.backend.foreign);
      if o.Pass? {
        IssuedMore(old(adapter.backend.host.trace), log, adapter.backend.host.trace,
                   adapter.Script(), [ApplyPolicy(TunnelOnly(adapter.interface))]);
      }
      r := if o.Fail? then Err(o.error) else Ok(session.value);
    }

    /** Opens the tunnel that just came up, or takes it down again. */
    method OpenTunnel(session: string) returns (r: Outcome<ConnectionError>)
      requires Valid() && adapter.connected && session == adapter.interface
      requires killSwitch.policy == BlockNonTunnel
      modifies this, adapter, adapter.backend, adapter.backend.host
      ensures Valid()
      ensures killSwitch.alwaysOn == old(killSwitch.alwaysOn)
      ensures adapter.backend.host.state.overrides == old(adapter.backend.host.state.overrides)
      ensures Controlled(old(adapter.backend.host.trace), adapter.backend.host.trace,
                         adapter.backend.host.state.overrides, adapter.interface, adapter.backend.foreign)
      ensures r.Pass? ==>
        && adapter.connected && killSwitch.policy == TunnelOnly(adapter.interface)
        && Now() == old(Now()) + 1
        && adapter.backend.host.trace[old(Now())].command == ApplyPolicy(TunnelOnly(adapter.interface))
        && Issued(old(adapter.backend.host.trace), adapter.backend.host.trace,
                  [ApplyPolicy(TunnelOnly(adapter.interface))])
      ensures r.Pass? == (FilterName(session) && adapter.backend.host.outcomes(old(Now())))
      ensures r.Fail? ==> !r.error.TransportFailed?
      ensures adapter.backend.host.FineFrom(old(Now())) && r.Fail? ==> r != Fail(FirewallFailed) && adapter.Clean()
      ensures adapter.backend.host.OneFault(old(Now())) && FilterName(session) && r.Fail? ==>
        adapter.Clean() && !transportMayBeActive
      ensures r.Fail? ==> killSwitch.policy == BlockNonTunnel && (r.error.KillSwitchFailed? ==> !FilterName(session))
    {
      var tunnel := killSwitch.TunnelEstablished(session);
      if tunnel.Err? {
        var _ := Release();
        return Fail(KillSwitchFailed(tunnel.error));
      }
      var ok := Apply(tunnel.value.policy);
      if !ok {
        if adapter.backend.host.OneFault(old(Now())) { adapter.backend.host.AfterFault(old(Now()), old(Now())); }
        var _ := Release();
        return Fail(FirewallFailed);
      }
      CommandsMore(old(adapter.backend.host.trace), adapter.backend.host.trace[old(Now())]);
      killSwitch := tunnel.value;
      r := Pass;
    }

    /** Takes the tunnel down under blocking; a failure leaves it marked active. */
    method Release() returns (d: Outcome<TransportError>)
      requires Valid() && !killSwitch.policy.TunnelOnly?
      modifies this`transportMayBeActive, adapter, adapter.backend, adapter.backend.host
      ensures Valid()
      ensures adapter.backend.host.state.overrides == old(adapter.backend.host.state.overrides)
      ensures Controlled(old(adapter.backend.host.trace), adapter.backend.host.trace,
                         adapter.backend.host.state.overrides, adapter.interface, adapter.backend.foreign)
      ensures d.Pass? ==> old(adapter.connected) && adapter.Clean() && !transportMayBeActive
      ensures d.Fail? ==>
        adapter.connected == old(adapter.connected) && transportMayBeActive == old(transportMayBeActive)
      ensures !old(adapter.connected) ==> d == Fail(NotConnected) && unchanged(adapter) && unchanged(adapter.backend)
      ensures old(adapter.connected) && d.Fail? ==> d.error == Network
      ensures adapter.backend.host.FineFrom(old(Now())) && old(adapter.connected) ==> d.Pass?
      ensures adapter.backend.host.added == old(adapter.backend.host.added)
      ensures adapter.backend.activeRules <= old(adapter.backend.activeRules)
      ensures old(adapter.connected) ==>
        adapter.backend.host.deleted ==
        Progress(old(adapter.backend.host.deleted), old(adapter.backend.activeRules), |adapter.backend.activeRules|,
                 adapter.interface, d.Pass?)
    {
      d := adapter.Disconnect();
      GrewIsControlled(old(adapter.backend.host.trace), old(adapter.backend.host.trace), adapter.backend.host.trace,
                       adapter.backend.host.state, adapter.interface, adapter.backend.foreign);
      if d.Pass? { transportMayBeActive := false; }
    }

    /** Restores blocking, if filtering is on at all. */
    method Block() returns (ok: bool)
      requires Valid()
      modifies this`killSwitch, adapter.backend.host
      ensures Valid() && killSwitch.alwaysOn == old(killSwitch.alwaysOn)
      ensures killSwitch == if ok then old(killSwitch).TunnelLost() else old(killSwitch)
      ensures ok == adapter.backend.host.outcomes(old(Now()))
      ensures Now() == old(Now()) + 1
      ensures adapter.backend.host.trace[old(Now())].command == ApplyPolicy(old(killSwitch).TunnelLost().policy)
      ensures adapter.backend.host.state.overrides == old(adapter.backend.host.state.overrides)
      ensures Controlled(old(adapter.backend.host.trace), adapter.backend.host.trace,
                         adapter.backend.host.state.overrides, adapter.interface, adapter.backend.foreign)
      ensures adapter.backend.host.added == old(adapter.backend.host.added)
      ensures adapter.backend.host.deleted == old(adapter.backend.host.deleted)
    {
      var blocking := killSwitch.TunnelLost();
      if blocking.policy.Disabled? { adapter.CleanMeansForeignOnly(); }
      ok := Apply(blocking.policy);
      if ok { killSwitch := blocking; }
    }

    /** Restores blocking before every teardown attempt. */
    method Disconnect() returns (r: Outcome<ConnectionError>)
      requires Valid()
      modifies this, adapter, adapter.backend, adapter.backend.host
      ensures Valid()
      ensures killSwitch.alwaysOn == old(killSwitch.alwaysOn)
      ensures adapter.backend.host.state.overrides == old(adapter.backend.host.state.overrides)
      ensures Controlled(old(adapter.backend.host.trace), adapter.backend.host.trace,
                         adapter.backend.host.state.overrides, adapter.interface, adapter.backend.foreign)
      ensures r.Pass? ==> old(adapter.connected) && adapter.Clean() && !transportMayBeActive
                          && killSwitch.policy == BlockNonTunnel
      ensures r.Fail? ==> adapter.connected == old(adapter.connected)
      ensures old(Stuck()) ==> r.Fail? && Stuck()
      ensures old(Stranded()) ==> r.Fail? && Stranded()
      ensures adapter.backend.host.FineFrom(old(Now())) && old(adapter.connected) ==> r.Pass?
      ensures !adapter.backend.host.outcomes(old(Now())) ==> r.Fail?
      ensures Now() > old(Now()) && (!old(killSwitch.policy.Disabled?) ==>
              adapter.backend.host.trace[old(Now())].command == ApplyPolicy(BlockNonTunnel))
      ensures old(adapter.connected) && r.Fail? ==> r.error == FirewallFailed || r.error == TransportFailed(Network)
      ensures adapter.backend.host.added == old(adapter.backend.host.added)
      ensures adapter.backend.activeRules <= old(adapter.backend.activeRules)
      ensures old(adapter.connected) ==>
        adapter.backend.host.deleted ==
        Progress(old(adapter.backend.host.deleted), old(adapter.backend.activeRules), |adapter.backend.activeRules|,
                 adapter.interface, r.Pass?)
      ensures !old(killSwitch.policy.Disabled?) ==> !killSwitch.policy.Disabled?
      ensures r.Fail? && r != Fail(FirewallFailed) && !old(killSwitch.policy.Disabled?) ==>
              killSwitch.policy == BlockNonTunnel
    {
      var ok := Block();
      if !ok { return Fail(FirewallFailed); }
      ghost var log := adapter.backend.host.trace;
      var d := Release();
      ControlledMore(old(adapter.backend.host.trace), log, adapter.backend.host.trace,
                     adapter.backend.host.state.overrides, adapter.interface, adapter.backend.foreign);
      r := if d.Fail? then Fail(TransportFailed(d.error)) else Pass;
    }

    /** Lifts filtering, only once teardown is known to be complete. */
    method Disable() returns (r: Outcome<ConnectionError>)
      requires Valid()
      modifies this, adapter.backend.host
      ensures Valid()
      ensures killSwitch.alwaysOn == old(killSwitch.alwaysOn)
      ensures transportMayBeActive == old(transportMayBeActive)
      ensures old(transportMayBeActive) ==> unchanged(adapter.backend.host)
      ensures adapter.backend.host.state.overrides == old(adapter.backend.host.state.overrides)
      ensures Controlled(old(adapter.backend.host.trace), adapter.backend.host.trace,
                         adapter.backend.host.state.overrides, adapter.interface, adapter.backend.foreign)
      ensures r.Pass? ==> adapter.Clean() && killSwitch.policy == Disabled
      ensures r.Fail? ==> killSwitch == old(killSwitch)
      ensures !old(transportMayBeActive) && !killSwitch.alwaysOn ==>
        adapter.backend.host.trace ==
        old(adapter.backend.host.trace) + [Event(ApplyPolicy(Disabled), old(adapter.backend.host.state), r.Pass?)]
      ensures old(transportMayBeActive) ==> r == Fail(KillSwitchFailed(TransportActive))
      ensures !old(transportMayBeActive) && killSwitch.alwaysOn ==> r == Fail(KillSwitchFailed(AlwaysOn))
      ensures r.Pass? <==>
        !old(transportMayBeActive) && !killSwitch.alwaysOn && adapter.backend.host.outcomes(old(Now()))
    {
      if transportMayBeActive { return Fail(KillSwitchFailed(TransportActive)); }
      if killSwitch.policy.TunnelOnly? { return Fail(KillSwitchFailed(NotEnabled)); }
      var disabled := killSwitch.Disable();
      if disabled.Err? { return Fail(KillSwitchFailed(disabled.error)); }
      adapter.CleanMeansForeignOnly();
      var ok := Apply(disabled.value.policy);
      if !ok { return Fail(FirewallFailed); }
      killSwitch := disabled.value;
      r := Pass;
    }
  }

  /**
   * Disconnecting again and again, with the firewall or the teardown failing in
   * between. Together the attempts delete the ledger's rules once each, last
   * installed first, and then the link; until then the tunnel stays owned.
   */
  method DisconnectAgain(c: ConnectionController, attempts: nat) returns (done: bool)
    requires c.Valid() && c.adapter.connected
    modifies c, c.adapter, c.adapter.backend, c.adapter.backend.host
    ensures c.Valid()
    ensures done ==> c.adapter.Clean() && !c.transportMayBeActive && c.killSwitch.policy == BlockNonTunnel
    ensures !done ==> c.adapter.connected
    ensures c.adapter.backend.host.added == old(c.adapter.backend.host.added)
    ensures c.adapter.backend.activeRules <= old(c.adapter.backend.activeRules)
    ensures c.adapter.backend.host.deleted ==
      Progress(old(c.adapter.backend.host.deleted), old(c.adapter.backend.activeRules), |c.adapter.backend.activeRules|,
               c.adapter.interface, done)
  {
    ghost var ledger, start := c.adapter.backend.activeRules, c.adapter.backend.host.deleted;
    assert ledger[|ledger|..] == [];
    done := false;
    for i := 0 to attempts
      invariant c.Valid()
      invariant done ==> c.adapter.Clean() && !c.transportMayBeActive && c.killSwitch.policy == BlockNonTunnel
      invariant !done ==> c.adapter.connected
      invariant c.adapter.backend.host.added == old(c.adapter.backend.host.added)
      invariant c.adapter.backend.activeRules <= ledger
      invariant c.adapter.backend.host.deleted ==
        Progress(start, ledger, |c.adapter.backend.activeRules|, c.adapter.interface, done)
    {
      if !done { done := DisconnectOnce(c, ledger, start); }
    }
  }

  /** One attempt of several, resuming where the last one stopped. */
  method DisconnectOnce(c: ConnectionController, ghost ledger: seq<PolicyRule>, ghost start: seq<Command>)
    returns (done: bool)
    requires c.Valid() && c.adapter.connected && c.adapter.backend.activeRules <= ledger
    requires c.adapter.backend.host.deleted ==
      Progress(start, ledger, |c.adapter.backend.activeRules|, c.adapter.interface, false)
    modifies c, c.adapter, c.adapter.backend, c.adapter.backend.host
    ensures c.Valid() && c.adapter.backend.activeRules <= ledger
    ensures done ==> c.adapter.Clean() && !c.transportMayBeActive && c.killSwitch.policy == BlockNonTunnel
    ensures !done ==> c.adapter.connected
    ensures c.adapter.backend.host.added == old(c.adapter.backend.host.added)
    ensures c.adapter.backend.host.deleted ==
      Progress(start, ledger, |c.adapter.backend.activeRules|, c.adapter.interface, done)
  {
    ghost var was := c.adapter.backend.activeRules;
    var r := c.Disconnect();
    done := r.Pass?;
    assert was == ledger[..|was|];
    ProgressResumes(start, ledger, |was|, |c.adapter.backend.activeRules|, c.adapter.interface, done);
  }
}
