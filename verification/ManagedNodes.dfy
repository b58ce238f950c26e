/** A node composed with its gateway: forwarding never outlives the interface (core/transport/src/linux.rs). */
module ManagedNodes {
  import opened Results
  import opened Prefixes
  import opened Transports
  import opened PeerTables
  import opened Nodes
  import G = Gateways

  /** Every command and check of turning forwarding on, in order. */
  function ForwardScript(interface: string, uplink: string, networks: seq<AllowedIp>): seq<Command> {
    [Inspect, Read(networks), Inspect, ForwardOn(interface, uplink, networks)]
  }

  class Gateway {
    const kernel: Kernel
    var active: bool

    constructor (kernel: Kernel)
      ensures this.kernel == kernel && !active
    {
      this.kernel := kernel;
      active := false;
    }

    /** How far the log has come. */
    ghost function Now(): nat
      reads kernel
    {
      |kernel.log|
    }

    /** Turns forwarding on for a valid policy, if the kernel already forwards every family used. */
    method Enable(interface: string, uplink: string, networks: seq<AllowedIp>) returns (r: Outcome<TransportError>)
      modifies this`active, kernel
      ensures kernel.state.links == old(kernel.state.links)
      ensures r.Pass? ==> active && kernel.state.forwarding == Some(interface)
      ensures r.Fail? ==> active == old(active) && kernel.state == old(kernel.state)
      ensures Ordered(old(kernel.log)) && interface in old(kernel.state.links) ==> Ordered(kernel.log)
      ensures old(kernel.log) <= kernel.log
      ensures r.Pass? ==> Issued(old(kernel.log), kernel.log, ForwardScript(interface, uplink, networks))
      ensures
        && r.Fail? && !old(active)
        && LinkName(interface) && LinkName(uplink) && interface != uplink && G.ValidPolicy(networks)
        ==> old(Now()) < Now() && !kernel.outcomes(Now() - 1)
      ensures r.Pass? <==>
        && kernel.Fine(old(Now()), old(Now()) + 4) && !old(active)
        && LinkName(interface) && LinkName(uplink) && interface != uplink && G.ValidPolicy(networks)
      ensures
        && !kernel.outcomes(old(Now())) && !old(active)
        && LinkName(interface) && LinkName(uplink) && interface != uplink && G.ValidPolicy(networks)
        ==> r.Fail? && Now() == old(Now()) + 1
    {
      if active { return Fail(AlreadyConnected); }
      if !LinkName(interface) || !LinkName(uplink) || interface == uplink { return Fail(InvalidConfig); }
      var valid := G.ValidatePolicy(networks);
      if !valid { return Fail(InvalidConfig); }
      r := SwitchOn(interface, uplink, networks);
      if r.Pass? { active := true; }
    }

    /** The checks of the environment and then the rules, as one transaction. */
    method SwitchOn(interface: string, uplink: string, networks: seq<AllowedIp>) returns (r: Outcome<TransportError>)
      modifies kernel
      ensures kernel.state == if r.Pass? then old(kernel.state).(forwarding := Some(interface)) else old(kernel.state)
      ensures Ordered(old(kernel.log)) && interface in old(kernel.state.links) ==> Ordered(kernel.log)
      ensures old(Now()) < Now() <= old(Now()) + 4 && old(kernel.log) <= kernel.log
      ensures if r.Pass? then Issued(old(kernel.log), kernel.log, ForwardScript(interface, uplink, networks))
              else !kernel.outcomes(Now() - 1)
      ensures r.Pass? ==> kernel.Fine(old(Now()), old(Now()) + 4)
      ensures !kernel.outcomes(old(Now())) ==> Now() == old(Now()) + 1
    {
      r := Guarded(Read(networks), InvalidConfig);
      if r.Fail? { return; }
      ghost var log := kernel.log;
      r := Guarded(ForwardOn(interface, uplink, networks), Network);
      if r.Pass? {
        IssuedMore(old(kernel.log), log, kernel.log, [Inspect, Read(networks)],
                   [Inspect, ForwardOn(interface, uplink, networks)]);
      }
    }

    /** A check and then a command about forwarding. */
    method Guarded(c: Command, error: TransportError) returns (r: Outcome<TransportError>)
      requires c.Read? || c.ForwardOn?
      modifies kernel
      ensures kernel.state == if r.Pass? then old(kernel.state).After(c) else old(kernel.state)
      ensures Ordered(old(kernel.log)) && (c.ForwardOn? ==> c.name in old(kernel.state.links)) ==> Ordered(kernel.log)
      ensures r.Pass? == kernel.Fine(old(Now()), old(Now()) + 2)
      ensures Now() == old(Now()) + if kernel.outcomes(old(Now())) then 2 else 1
      ensures if kernel.outcomes(old(Now())) then Issued(old(kernel.log), kernel.log, [Inspect, c])
              else Issued(old(kernel.log), kernel.log, [Inspect])
      ensures r.Fail? ==> !kernel.outcomes(Now() - 1)
    {
      var ok := kernel.Permits();
      if !ok { return Fail(Cancelled); }
      ghost var log := kernel.log;
      ok := kernel.Run(c);
      IssuedMore(old(kernel.log), log, kernel.log, [Inspect], [c]);
      r := if ok then Pass else Fail(error);
    }

    method Disable() returns (r: Outcome<TransportError>)
      modifies this`active, kernel
      ensures kernel.state.links == old(kernel.state.links)
      ensures r.Pass? ==> old(active) && !active && kernel.state.forwarding == None
      ensures r.Fail? ==> active == old(active) && kernel.state == old(kernel.state)
      ensures r == Fail(NotConnected) <==> !old(active)
      ensures r.Pass? <==> old(active) && kernel.outcomes(old(Now()))
      ensures old(kernel.log) <= kernel.log && Now() == old(Now()) + if old(active) then 1 else 0
      ensures Ordered(old(kernel.log)) ==> Ordered(kernel.log)
    {
      if !active { return Fail(NotConnected); }
      var ok := kernel.Run(ForwardOff);
      if !ok { return Fail(Network); }
      active := false;
      r := Pass;
    }
  }

  /** A check fails and so does the command after it. */
  predicate Refuses(kernel: Kernel, n: nat) {
    !kernel.outcomes(n) && !kernel.outcomes(n + 1)
  }

  class ManagedNode {
    const interface: string
    const uplink: string
    const node: WireGuardNode
    const gateway: Gateway
    const kernel: Kernel
    var active: bool
    ghost const foreign: map<string, Table>

    /** A node on a kernel that is not forwarding yet, beside whatever interfaces exist already. */
    constructor (interface: string, uplink: string, kernel: Kernel)
      requires LinkName(interface) && LinkName(uplink) && interface != uplink
      requires kernel.state.forwarding == None && kernel.log == []
      ensures Valid() && !active && this.kernel == kernel && this.interface == interface
      ensures fresh(node) && fresh(gateway)
      ensures foreign == kernel.state.links - {interface}
    {
      this.interface, this.uplink, this.kernel := interface, uplink, kernel;
      active := false;
      var n := new WireGuardNode(kernel);
      node := n;
      var g := new Gateway(kernel);
      gateway := g;
      foreign := kernel.state.links - {interface};
    }

    /**
     * Forwarding is on exactly while the gateway says so, only for this node's
     * own interface and only while that interface exists and is managed.
     */
    ghost predicate Valid()
      reads this, node, gateway, kernel
    {
      && node.kernel == kernel && gateway.kernel == kernel && node.Valid()
      && LinkName(interface) && LinkName(uplink) && interface != uplink
      && (gateway.active <==> kernel.state.forwarding.Some?)
      && (kernel.state.forwarding.Some? ==>
            active && node.activeInterface == kernel.state.forwarding == Some(interface))
      && (active ==> node.activeInterface == Some(interface))
      && (node.activeInterface.Some? ==> node.activeInterface == Some(interface))
      && kernel.state.links - {interface} == foreign
      && Ordered(kernel.log)
    }

    /** How far the log has come. */
    ghost function Now(): nat
      reads kernel
    {
      |kernel.log|
    }

    /**
     * The interface exists without forwarding: its deletion failed after
     * forwarding stopped or failed to start, or it was there before. No start and
     * no stop succeeds any more.
     */
    ghost predicate Wedged()
      reads this, gateway, kernel
    {
      interface in kernel.state.links && !gateway.active
    }

    /** Starts the interface before forwarding, and removes it if forwarding cannot start. */
    method Start(c: G.NodeConfig, networks: seq<AllowedIp>) returns (r: Outcome<TransportError>)
      requires Valid()
      modifies this, node, gateway, kernel
      ensures Valid()
      ensures r.Pass? ==>
        && !old(active) && active
        && kernel.state.forwarding == Some(interface) && G.ValidForNode(networks, c)
      ensures r.Fail? ==> active == old(active) && kernel.state.forwarding == old(kernel.state.forwarding)
      ensures old(active) ==> r == Fail(AlreadyConnected) && unchanged(this) && unchanged(node) && unchanged(gateway)
      ensures old(Wedged()) ==> r.Fail? && Wedged()
      ensures old(Wedged()) && old(node.activeInterface).Some? ==>
        r == Fail(AlreadyConnected) || (r == Fail(InvalidConfig) && !G.ValidForNode(networks, c))
      ensures old(kernel.log) <= kernel.log
      ensures r.Pass? ==>
        Issued(old(kernel.log), kernel.log, StartScript(interface, c) + ForwardScript(interface, uplink, networks))
      ensures kernel.OneFault(old(Now())) && r.Fail? && !old(Wedged()) ==> !Wedged()
      ensures
        && kernel.Fine(old(Now()), old(Now()) + StartOps(c) + 4)
        && interface !in old(kernel.state.links) && G.ValidForNode(networks, c)
        ==> r.Pass?
      ensures
        && kernel.Fine(old(Now()), old(Now()) + StartOps(c))
        && Refuses(kernel, old(Now()) + StartOps(c))
        && interface !in old(kernel.state.links) && G.ValidForNode(networks, c)
        ==> r.Fail? && Wedged() && !active && node.activeInterface.Some?
      ensures
        && kernel.outcomes(old(Now())) && LeavesLink(kernel, old(Now()) + 1)
        && interface !in old(kernel.state.links) && G.ValidForNode(networks, c)
        ==> r.Fail? && Wedged() && node.activeInterface.None?
    {
      if active { return Fail(AlreadyConnected); }
      var valid := G.ValidateForNode(networks, c);
      if !valid { return Fail(InvalidConfig); }
      r := StartValid(c, networks);
    }

    /** Starting with a configuration that matches the policy. */
    method StartValid(c: G.NodeConfig, networks: seq<AllowedIp>) returns (r: Outcome<TransportError>)
      requires Valid() && !active && G.ValidPolicy(networks) && G.ValidNode(c)
      modifies this, node, gateway, kernel
      ensures Valid()
      ensures r.Pass? ==> active && kernel.state.forwarding == Some(interface)
      ensures r.Fail? ==> !active && kernel.state.forwarding == None
      ensures old(Wedged()) ==> r.Fail? && Wedged()
      ensures old(node.activeInterface).Some? ==> r == Fail(AlreadyConnected)
      ensures old(kernel.log) <= kernel.log
      ensures r.Pass? ==>
        Issued(old(kernel.log), kernel.log, StartScript(interface, c) + ForwardScript(interface, uplink, networks))
      ensures kernel.OneFault(old(Now())) && r.Fail? && !old(Wedged()) ==> !Wedged()
      ensures
        && kernel.Fine(old(Now()), old(Now()) + StartOps(c) + 4)
        && interface !in old(kernel.state.links)
        ==> r.Pass?
      ensures
        && kernel.Fine(old(Now()), old(Now()) + StartOps(c)) && interface !in old(kernel.state.links)
        && Refuses(kernel, old(Now()) + StartOps(c))
        ==> r.Fail? && Wedged() && node.activeInterface.Some?
      ensures
        && kernel.outcomes(old(Now())) && LeavesLink(kernel, old(Now()) + 1) && interface !in old(kernel.state.links)
        ==> r.Fail? && Wedged() && node.activeInterface.None?
    {
      r := node.Start(interface, c);
      assert r.Pass? ==> Now() == old(Now()) + StartOps(c);
      if r.Fail? { return; }
      ghost var log := kernel.log;
      r := Forward(networks);
      if r.Pass? {
        IssuedMore(old(kernel.log), log, kernel.log, StartScript(interface, c),
                   ForwardScript(interface, uplink, networks));
      }
    }

    /** The second half of starting: forwarding, or the interface's removal. */
    method Forward(networks: seq<AllowedIp>) returns (r: Outcome<TransportError>)
      requires Valid() && !active && node.activeInterface.Some?
      modifies this, node, gateway, kernel
      ensures Valid()
      ensures r.Pass? ==> active && kernel.state.forwarding == Some(interface)
      ensures r.Fail? ==> !active && kernel.state.forwarding == None
      ensures old(kernel.log) <= kernel.log
      ensures r.Pass? ==> Issued(old(kernel.log), kernel.log, ForwardScript(interface, uplink, networks))
      ensures kernel.Fine(old(Now()), old(Now()) + 4) && G.ValidPolicy(networks) ==> r.Pass?
      ensures kernel.OneFault(old(Now())) && G.ValidPolicy(networks) && r.Fail? ==>
        node.activeInterface.None? && interface !in kernel.state.links
      ensures G.ValidPolicy(networks) && Refuses(kernel, old(Now())) ==>
        r.Fail? && Wedged() && node.activeInterface.Some?
    {
      r := gateway.Enable(interface, uplink, networks);
      if r.Fail? {
        if kernel.OneFault(old(Now())) && G.ValidPolicy(networks) { kernel.AfterFault(old(Now()), Now() - 1); }
        var stopped := node.Stop();
        return if stopped.Fail? then Fail(Network) else r;
      }
      active := true;
    }

    method AddPeer(p: Peer) returns (r: Outcome<TransportError>)
      requires Valid()
      modifies node, kernel
      ensures Valid() && node.activeInterface == old(node.activeInterface) && old(kernel.log) <= kernel.log
      ensures old(Wedged()) ==> Wedged()
      ensures !old(active) ==> r == Fail(NotConnected)
      ensures r.Fail? ==> node.ledger == old(node.ledger)
      ensures r.Pass? ==> active && node.ledger == Added(old(node.ledger), p.publicKey, p.allowed)
      ensures r.Pass? <==> old(active) && ValidPeer(p) && old(node.HasRoomFor(p)) && kernel.outcomes(old(Now()))
      ensures forall q :: q in old(node.assignedRoutes) ==>
        q in node.assignedRoutes && node.assignedRoutes[q] == old(node.assignedRoutes)[q]
    {
      if !active { return Fail(NotConnected); }
      r := node.AddPeer(p);
    }

    method RemovePeer(k: Key) returns (r: Outcome<TransportError>)
      requires Valid()
      modifies node, kernel
      ensures Valid() && node.activeInterface == old(node.activeInterface) && old(kernel.log) <= kernel.log
      ensures old(Wedged()) ==> Wedged()
      ensures !old(active) ==> r == Fail(NotConnected)
      ensures r.Fail? ==> node.ledger == old(node.ledger)
      ensures r.Pass? ==> active && k in old(node.ledger.Book()) && node.ledger == Removed(old(node.ledger), k)
      ensures r.Pass? <==> old(active) && k in old(node.peers) && kernel.outcomes(old(Now()))
    {
      if !active { return Fail(NotConnected); }
      r := node.RemovePeer(k);
    }

    /**
     * Stops forwarding before deleting the interface. Once forwarding stopped
     * and the deletion failed, the node is wedged and a later call is refused.
     */
    method Stop() returns (r: Outcome<TransportError>)
      requires Valid()
      modifies this, node, gateway, kernel
      ensures Valid()
      ensures r.Pass? ==>
        && !active && kernel.state.forwarding == None
        && kernel.state.links == old(kernel.state.links) - {interface}
      ensures r.Fail? ==> active == old(active) && kernel.state.links == old(kernel.state.links)
      ensures r == Fail(NotConnected) <==> !old(gateway.active)
      ensures !old(gateway.active) ==> unchanged(this) && unchanged(gateway) && kernel.state == old(kernel.state)
      ensures old(gateway.active) ==> if r.Pass? then !active else gateway.active || Wedged()
      ensures old(Wedged()) ==> r.Fail? && Wedged()
      ensures old(kernel.log) <= kernel.log
      ensures r.Pass? <==> old(gateway.active) && kernel.Fine(old(Now()), old(Now()) + 2)
      ensures old(gateway.active) && kernel.outcomes(old(Now())) && !kernel.outcomes(old(Now()) + 1) ==>
        Wedged() && active
    {
      if !active { return Fail(NotConnected); }
      r := gateway.Disable();
      if r.Fail? { return; }
      r := node.Stop();
      if r.Fail? { return; }
      active := false;
    }
  }

  /** Builds a managed node, refusing unsafe or identical interface names. */
  method Build(interface: string, uplink: string, kernel: Kernel) returns (r: Result<ManagedNode, TransportError>)
    requires kernel.state.forwarding == None && kernel.log == []
    ensures r.Ok? <==> LinkName(interface) && LinkName(uplink) && interface != uplink
    ensures r.Ok? ==>
      && fresh(r.value) && fresh(r.value.node) && fresh(r.value.gateway) && r.value.Valid() && !r.value.active
      && r.value.kernel == kernel && r.value.interface == interface
      && r.value.foreign == kernel.state.links - {interface}
    ensures r.Err? ==> r.error == InvalidConfig
  {
    if !LinkName(interface) || !LinkName(uplink) || interface == uplink { return Err(InvalidConfig); }
    var m := new ManagedNode(interface, uplink, kernel);
    r := Ok(m);
  }

  datatype Call =
    | CallStart(config: G.NodeConfig, networks: seq<AllowedIp>)
    | CallAdd(peer: Peer)
    | CallRemove(key: Key)
    | CallStop

  /**
   * Any calls in any order, any command failing: no interface is deleted while it
   * is forwarded from, forwarding starts only over an existing interface, and no
   * interface but the node's own ever changes.
   */
  method Run(interface: string, uplink: string, state: KernelState, outcomes: nat -> bool, calls: seq<Call>)
    returns (log: seq<Event>, after: KernelState, peers: nat)
    requires state.forwarding == None
    ensures Ordered(log)
    ensures after.links - {interface} == state.links - {interface}
    ensures after.forwarding.Some? ==> after.forwarding.value == interface && interface in after.links
    ensures peers <= MAXIMUM_PEERS
  {
    var kernel := new Kernel(state, outcomes);
    var built := Build(interface, uplink, kernel);
    if built.Err? { return [], state, 0; }
    var m := built.value;
    var rs := Continue(m, calls);
    log, after, peers := m.kernel.log, m.kernel.state, |m.node.peers|;
    LegalPeers(m.node.ledger);
  }

  /** One call; a wedged node stays wedged and refuses to start or stop. */
  method Step(m: ManagedNode, c: Call) returns (r: Outcome<TransportError>)
    requires m.Valid()
    modifies m, m.node, m.gateway, m.kernel
    ensures m.Valid()
    ensures old(m.Wedged()) ==> m.Wedged()
    ensures old(m.Wedged()) && c.CallStart? ==> r.Fail?
    ensures old(m.Wedged()) && c.CallStop? ==> r == Fail(NotConnected)
    ensures old(m.Wedged() && !m.active) ==> r.Fail? && !m.active
  {
    match c {
      case CallStart(config, networks) => r := m.Start(config, networks);
      case CallAdd(p) => r := m.AddPeer(p);
      case CallRemove(k) => r := m.RemovePeer(k);
      case CallStop => r := m.Stop();
    }
  }

  /**
   * Any further calls: a wedged node keeps its interface, and every start and
   * stop among them is refused; an inactive one refuses every call.
   */
  method Continue(m: ManagedNode, calls: seq<Call>) returns (rs: seq<Outcome<TransportError>>)
    requires m.Valid()
    modifies m, m.node, m.gateway, m.kernel
    ensures m.Valid() && |rs| == |calls|
    ensures old(m.Wedged()) ==>
      && m.Wedged() && m.interface in m.kernel.state.links && m.kernel.state.forwarding == None
      && forall i :: 0 <= i < |calls| ==>
           && (calls[i].CallStart? ==> rs[i].Fail?)
           && (calls[i].CallStop? ==> rs[i] == Fail(NotConnected))
    ensures old(m.Wedged() && !m.active) ==> forall i :: 0 <= i < |calls| ==> rs[i].Fail?
  {
    rs := [];
    for i := 0 to |calls|
      invariant m.Valid() && |rs| == i
      invariant old(m.Wedged()) ==> m.Wedged()
      invariant old(m.Wedged()) ==> forall k :: 0 <= k < i ==>
        && (calls[k].CallStart? ==> rs[k].Fail?)
        && (calls[k].CallStop? ==> rs[k] == Fail(NotConnected))
      invariant old(m.Wedged() && !m.active) ==> !m.active && forall k :: 0 <= k < i ==> rs[k].Fail?
    {
      var r := Step(m, calls[i]);
      rs := rs + [r];
    }
  }

  // --- When a node can still be started and stopped -------------------------

  /**
   * From now on nothing goes wrong. Then a node can be stopped, if it is running,
   * and started with a matching configuration if and only if it is not wedged.
   */
  method Restart(m: ManagedNode, c: G.NodeConfig, networks: seq<AllowedIp>) returns (done: bool)
    requires m.Valid() && m.kernel.FineFrom(|m.kernel.log|) && G.ValidForNode(networks, c)
    modifies m, m.node, m.gateway, m.kernel
    ensures m.Valid()
    ensures done <==> !old(m.Wedged())
    ensures done ==> m.active && m.kernel.state.forwarding == Some(m.interface)
    ensures !done ==> m.Wedged()
  {
    if m.active {
      var stopped := m.Stop();
      if stopped.Fail? { return false; }
    }
    var started := m.Start(c, networks);
    done := started.Pass?;
  }

  /** Settings a node can be built and started with. */
  ghost predicate Startable(interface: string, uplink: string, c: G.NodeConfig, networks: seq<AllowedIp>) {
    LinkName(interface) && LinkName(uplink) && interface != uplink && G.ValidForNode(networks, c)
  }

  /** Forwarding stops and the interface cannot be deleted: still active, and wedged. */
  method EnterHalfStopped(interface: string, uplink: string, state: KernelState,
                          c: G.NodeConfig, networks: seq<AllowedIp>)
    returns (m: ManagedNode)
    requires Startable(interface, uplink, c, networks) && state.forwarding == None && interface !in state.links
    ensures m.Valid() && m.Wedged() && m.active
  {
    var running := StartOps(c) + 4;
    var kernel := new Kernel(state, n => n != running + 1);
    var built := Build(interface, uplink, kernel);
    m := built.value;
    var started := m.Start(c, networks);
    var stopped := m.Stop();
  }

  /** Forwarding cannot start and the interface cannot be deleted: inactive with a running interface, and wedged. */
  method EnterHalfStarted(interface: string, uplink: string, state: KernelState,
                          c: G.NodeConfig, networks: seq<AllowedIp>)
    returns (m: ManagedNode)
    requires Startable(interface, uplink, c, networks) && state.forwarding == None && interface !in state.links
    ensures m.Valid() && m.Wedged() && !m.active && m.node.activeInterface.Some?
  {
    var configured := StartOps(c);
    var kernel := new Kernel(state, n => n != configured && n != configured + 1);
    var built := Build(interface, uplink, kernel);
    m := built.value;
    var started := m.Start(c, networks);
  }

  /** The interface cannot be configured and not be deleted again: nothing is managed, and wedged. */
  method EnterLeftBehind(interface: string, uplink: string, state: KernelState,
                         c: G.NodeConfig, networks: seq<AllowedIp>)
    returns (m: ManagedNode)
    requires Startable(interface, uplink, c, networks) && state.forwarding == None && interface !in state.links
    ensures m.Valid() && m.Wedged() && m.node.activeInterface.None?
  {
    var kernel := new Kernel(state, n => n != 2 && n != 3);
    var built := Build(interface, uplink, kernel);
    m := built.value;
    var started := m.Start(c, networks);
  }
}
