/** The WireGuard node that owns peers and their routes (core/transport/src/linux.rs). */
module Nodes {
  import opened Results
  import opened Prefixes
  import opened Transports
  import opened PeerTables
  import G = Gateways

  datatype Peer = Peer(publicKey: Key, allowed: seq<AllowedIp>, keepalive: Option<nat>)

  predicate HostRoute(p: AllowedIp) {
    p.length == p.network.Width() && !p.network.IsUnspecified() && !p.network.IsMulticast()
  }

  predicate ValidPeer(p: Peer) {
    && !ZeroKey(p.publicKey)
    && 0 < |p.allowed| <= 16
    && (forall r :: r in p.allowed ==> HostRoute(r))
    && (forall i, j :: 0 <= i < j < |p.allowed| ==> p.allowed[i] != p.allowed[j])
    && ValidKeepalive(p.keepalive)
  }

  /** Scans the routes with a growing set. */
  method ValidatePeer(p: Peer) returns (ok: bool)
    ensures ok <==> ValidPeer(p)
  {
    if ZeroKey(p.publicKey) || !(0 < |p.allowed| <= 16) { return false; }
    ok := G.ScanDistinct(p.allowed, HostRoute, (r: AllowedIp) => r);
    ok := ok && ValidKeepalive(p.keepalive);
  }

  /** How many commands and checks a successful start takes. */
  function StartOps(c: G.NodeConfig): nat {
    6 + 2 * |c.addresses|
  }

  function AddressScript(interface: string, addresses: seq<TunnelAddress>): (cs: seq<Command>)
    ensures |cs| == 2 * |addresses|
  {
    if addresses == [] then []
    else
      var n := |addresses| - 1;
      AddressScript(interface, addresses[..n]) + [Inspect, AddressAdd(interface, addresses[n])]
  }

  lemma AddressScriptMore(script: seq<Command>, interface: string, addresses: seq<TunnelAddress>, i: nat)
    requires i < |addresses|
    ensures script + AddressScript(interface, addresses[..i + 1]) ==
      script + AddressScript(interface, addresses[..i]) + [Inspect, AddressAdd(interface, addresses[i])]
  {
    assert addresses[..i + 1][..i] == addresses[..i];
  }

  /** Every command and check that configures an interface, in order. */
  function ConfigureScript(interface: string, c: G.NodeConfig): (cs: seq<Command>)
    ensures |cs| == 4 + 2 * |c.addresses|
  {
    [Inspect, KeySet(interface, c.listenPort)] + AddressScript(interface, c.addresses)
    + [Inspect, LinkUp(interface, c.mtu)]
  }

  /** And of a whole successful start. */
  function StartScript(interface: string, c: G.NodeConfig): (cs: seq<Command>)
    ensures |cs| == StartOps(c)
  {
    [Inspect] + ([LinkAdd(interface)] + ConfigureScript(interface, c))
  }

  class WireGuardNode {
    const kernel: Kernel
    var activeInterface: Option<string>
    var peers: set<Key>
    var assignedRoutes: Routes
    ghost var ledger: Ledger

    constructor (kernel: Kernel)
      ensures this.kernel == kernel && activeInterface == None && Valid()
    {
      this.kernel := kernel;
      activeInterface, peers, assignedRoutes := None, {}, map[];
      ledger := Blank;
    }

    /** How far the log has come. */
    ghost function Now(): nat
      reads kernel
    {
      |kernel.log|
    }

    ghost function Index(): Table
      reads this
    {
      Table(peers, assignedRoutes)
    }

    /** The index is the book inverted and is the interface's own table; an inactive node owns nothing. */
    ghost predicate Valid()
      reads this, kernel
    {
      && ledger.Legal() && Index() == ledger.Table()
      && (activeInterface.None? ==> ledger == Blank)
      && (activeInterface.Some? ==>
            activeInterface.value in kernel.state.links && kernel.state.links[activeInterface.value] == Index())
    }

    /** The key and the routes are nobody's yet, and there is room. */
    ghost predicate HasRoomFor(p: Peer)
      reads this
    {
      |peers| < 4096 && p.publicKey !in peers && forall q :: q in p.allowed ==> q !in assignedRoutes
    }

    /**
     * Creates and configures an interface; a failed setup deletes it again. No
     * other interface changes, whether it fails or not.
     */
    method Start(interface: string, c: G.NodeConfig) returns (r: Outcome<TransportError>)
      requires Valid()
      modifies this, kernel
      ensures Valid() && ledger == old(ledger) && kernel.state.forwarding == old(kernel.state.forwarding)
      ensures r.Pass? <==> old(activeInterface).None? && activeInterface.Some?
      ensures r.Pass? ==> interface !in old(kernel.state.links) && activeInterface == Some(interface)
      ensures r.Fail? ==> activeInterface == old(activeInterface)
      ensures kernel.state.links - {interface} == old(kernel.state.links) - {interface}
      ensures interface in old(kernel.state.links) ==> kernel.state == old(kernel.state)
      ensures old(activeInterface).Some? ==> r == Fail(AlreadyConnected) && unchanged(kernel)
      ensures old(kernel.log) <= kernel.log
      ensures r.Pass? ==> Issued(old(kernel.log), kernel.log, StartScript(interface, c))
      ensures r.Pass? ==> LinkName(interface) && G.ValidNode(c)
      ensures kernel.OneFault(old(Now())) && r.Fail? ==> kernel.state == old(kernel.state)
      ensures
        && kernel.Fine(old(Now()), old(Now()) + StartOps(c)) && old(activeInterface).None?
        && LinkName(interface) && G.ValidNode(c) && interface !in old(kernel.state.links)
        ==> r.Pass?
      ensures
        && kernel.outcomes(old(Now())) && LeavesLink(kernel, old(Now()) + 1)
        && old(activeInterface).None? && LinkName(interface) && G.ValidNode(c) && interface !in old(kernel.state.links)
        ==> r.Fail? && interface in kernel.state.links
      ensures Ordered(old(kernel.log)) && old(kernel.state.forwarding) != Some(interface) ==> Ordered(kernel.log)
    {
      if activeInterface.Some? { return Fail(AlreadyConnected); }
      if !LinkName(interface) { return Fail(InvalidConfig); }
      var valid := G.ValidateAddresses(c.addresses);
      if !valid || !ValidMtu(c.mtu) { return Fail(InvalidConfig); }
      var ok := kernel.Permits();
      if !ok { return Fail(Cancelled); }
      ghost var log := kernel.log;
      r := Create(interface, c);
      if r.Pass? {
        IssuedMore(old(kernel.log), log, kernel.log, [Inspect], [LinkAdd(interface)] + ConfigureScript(interface, c));
      }
    }

    /** Adds and configures the link, and records it as the node's own. */
    method Create(interface: string, c: G.NodeConfig) returns (r: Outcome<TransportError>)
      requires Valid() && activeInterface.None?
      modifies this, kernel
      ensures Valid() && ledger == old(ledger) && kernel.state.forwarding == old(kernel.state.forwarding)
      ensures r.Pass? ==> interface !in old(kernel.state.links) && activeInterface == Some(interface)
      ensures r.Fail? ==> activeInterface == None
      ensures kernel.state.links - {interface} == old(kernel.state.links) - {interface}
      ensures interface in old(kernel.state.links) ==> kernel.state == old(kernel.state)
      ensures Ordered(old(kernel.log)) && old(kernel.state.forwarding) != Some(interface) ==> Ordered(kernel.log)
      ensures old(kernel.log) <= kernel.log
      ensures r.Pass? ==>
        Issued(old(kernel.log), kernel.log, [LinkAdd(interface)] + ConfigureScript(interface, c))
      ensures kernel.Fine(old(Now()), old(Now()) + 5 + 2 * |c.addresses|) && interface !in old(kernel.state.links) ==>
        r.Pass?
      ensures kernel.OneFault(old(Now())) && r.Fail? ==> kernel.state == old(kernel.state)
      ensures LeavesLink(kernel, old(Now())) && interface !in old(kernel.state.links) ==>
        r.Fail? && interface in kernel.state.links
    {
      r := Erect(interface, c);
      ElsewhereSame(old(kernel.state.links), interface);
      assert Index() == EMPTY;
      if r.Pass? { activeInterface := Some(interface); }
    }

    /** Adds and configures a link, and deletes it again if that fails. */
    method Erect(interface: string, c: G.NodeConfig) returns (r: Outcome<TransportError>)
      modifies kernel
      ensures kernel.state.forwarding == old(kernel.state.forwarding)
      ensures r.Pass? ==> interface !in old(kernel.state.links)
      ensures r.Pass? ==> kernel.state.links == old(kernel.state.links)[interface := EMPTY]
      ensures kernel.state.links != old(kernel.state.links) ==>
        interface !in old(kernel.state.links) && kernel.state.links == old(kernel.state.links)[interface := EMPTY]
      ensures Ordered(old(kernel.log)) && old(kernel.state.forwarding) != Some(interface) ==> Ordered(kernel.log)
      ensures old(kernel.log) <= kernel.log
      ensures r.Pass? ==>
        Issued(old(kernel.log), kernel.log, [LinkAdd(interface)] + ConfigureScript(interface, c))
      ensures kernel.Fine(old(Now()), old(Now()) + 5 + 2 * |c.addresses|) && interface !in old(kernel.state.links) ==>
        r.Pass?
      ensures kernel.OneFault(old(Now())) && r.Fail? ==> kernel.state == old(kernel.state)
      ensures LeavesLink(kernel, old(Now())) && interface !in old(kernel.state.links) ==>
        r.Fail? && interface in kernel.state.links
    {
      var ok := kernel.Run(LinkAdd(interface));
      if !ok { return Fail(Network); }
      ghost var log := kernel.log;
      r := Configure(interface, c);
      if r.Fail? {
        if kernel.OneFault(old(Now())) { kernel.AfterFault(old(Now()), Now() - 1); }
        var cleaned := kernel.Run(LinkDelete(interface));
        assert old(kernel.state.links)[interface := EMPTY] - {interface} == old(kernel.state.links);
        return if cleaned then r else Fail(Network);
      }
      IssuedMore(old(kernel.log), log, kernel.log, [LinkAdd(interface)], ConfigureScript(interface, c));
    }

    /** Key and port, every address, then the link itself: any step may fail. */
    method Configure(interface: string, c: G.NodeConfig) returns (r: Outcome<TransportError>)
      requires interface in kernel.state.links
      modifies kernel
      ensures kernel.state == old(kernel.state)
      ensures Ordered(old(kernel.log)) ==> Ordered(kernel.log)
      ensures old(kernel.log) <= kernel.log
      ensures r.Pass? ==> Issued(old(kernel.log), kernel.log, ConfigureScript(interface, c))
      ensures r.Fail? ==> old(Now()) < Now() && !kernel.outcomes(Now() - 1)
      ensures kernel.Fine(old(Now()), old(Now()) + 4 + 2 * |c.addresses|) ==> r.Pass?
      ensures !kernel.outcomes(old(Now())) ==> r.Fail? && Now() == old(Now()) + 1
    {
      ghost var script := [Inspect, KeySet(interface, c.listenPort)];
      r := Checked(KeySet(interface, c.listenPort));
      if r.Fail? { return; }
      assert script + AddressScript(interface, []) == script;
      for i := 0 to |c.addresses|
        invariant kernel.state == old(kernel.state) && kernel.outcomes(old(Now()))
        invariant Ordered(old(kernel.log)) ==> Ordered(kernel.log)
        invariant Issued(old(kernel.log), kernel.log, script + AddressScript(interface, c.addresses[..i]))
      {
        ghost var log := kernel.log;
        r := Checked(AddressAdd(interface, c.addresses[i]));
        if r.Fail? { return; }
        AddressScriptMore(script, interface, c.addresses, i);
        IssuedMore(old(kernel.log), log, kernel.log, script + AddressScript(interface, c.addresses[..i]),
                   [Inspect, AddressAdd(interface, c.addresses[i])]);
      }
      assert c.addresses[..|c.addresses|] == c.addresses;
      ghost var log := kernel.log;
      r := Checked(LinkUp(interface, c.mtu));
      if r.Pass? {
        IssuedMore(old(kernel.log), log, kernel.log, script + AddressScript(interface, c.addresses),
                   [Inspect, LinkUp(interface, c.mtu)]);
      }
    }

    /** A check and then a command that changes no table. */
    method Checked(c: Command) returns (r: Outcome<TransportError>)
      requires c.Configuring() && c.name in kernel.state.links
      modifies kernel
      ensures kernel.state == old(kernel.state) && old(kernel.log) <= kernel.log
      ensures Ordered(old(kernel.log)) ==> Ordered(kernel.log)
      ensures r.Pass? == kernel.Fine(old(Now()), old(Now()) + 2)
      ensures Now() == old(Now()) + if kernel.outcomes(old(Now())) then 2 else 1
      ensures if r.Pass? then Issued(old(kernel.log), kernel.log, [Inspect, c]) else !kernel.outcomes(Now() - 1)
    {
      var ok := kernel.Permits();
      if !ok { return Fail(Cancelled); }
      ghost var log := kernel.log;
      ok := kernel.Run(c);
      IssuedMore(old(kernel.log), log, kernel.log, [Inspect], [c]);
      r := if ok then Pass else Fail(Network);
    }

    /** Adds a peer whose key and routes nobody has; no route ever changes owner. */
    method AddPeer(p: Peer) returns (r: Outcome<TransportError>)
      requires Valid()
      modifies this, kernel
      ensures Valid() && activeInterface == old(activeInterface)
      ensures kernel.state.forwarding == old(kernel.state.forwarding)
      ensures r.Fail? ==> ledger == old(ledger) && kernel.state == old(kernel.state)
      ensures r.Pass? ==>
        && ValidPeer(p) && activeInterface.Some?
        && p.publicKey !in old(ledger.Book()) && ledger == Added(old(ledger), p.publicKey, p.allowed)
        && kernel.state.links - {activeInterface.value} == old(kernel.state.links) - {activeInterface.value}
      ensures forall q :: q in old(assignedRoutes) ==>
        q in assignedRoutes && assignedRoutes[q] == old(assignedRoutes)[q]
      ensures Ordered(old(kernel.log)) ==> Ordered(kernel.log)
      ensures old(kernel.log) <= kernel.log
      ensures r.Pass? <==>
        old(activeInterface).Some? && ValidPeer(p) && old(HasRoomFor(p)) && kernel.outcomes(old(Now()))
      ensures r == Fail(InvalidConfig) <==> !ValidPeer(p) || (old(activeInterface).Some? && !old(HasRoomFor(p)))
      ensures r == Fail(NotConnected) <==> ValidPeer(p) && old(activeInterface).None?
      ensures r.Pass? ==>
        Issued(old(kernel.log), kernel.log, [PeerSet(activeInterface.value, p.publicKey, p.allowed, p.keepalive)])
    {
      var valid := ValidatePeer(p);
      if !valid { return Fail(InvalidConfig); }
      if activeInterface.None? { return Fail(NotConnected); }
      if |peers| >= MAXIMUM_PEERS { return Fail(InvalidConfig); }
      LegalPeers(ledger);
      if p.publicKey in peers { return Fail(InvalidConfig); }
      if exists q :: q in p.allowed && q in assignedRoutes { return Fail(InvalidConfig); }
      r := Provision(activeInterface.value, p.publicKey, p.allowed, p.keepalive);
    }

    /** The command, then the node's own record of it. */
    method Provision(interface: string, k: Key, routes: seq<AllowedIp>, keepalive: Option<nat>)
      returns (r: Outcome<TransportError>)
      requires Valid() && activeInterface == Some(interface)
      requires Free(Index(), k, routes)
      requires |peers| < MAXIMUM_PEERS && 0 < |routes| <= 16
      modifies this, kernel
      ensures Valid() && activeInterface == old(activeInterface)
      ensures kernel.state.forwarding == old(kernel.state.forwarding)
      ensures r.Fail? ==> ledger == old(ledger) && kernel.state == old(kernel.state)
      ensures r.Pass? ==>
        && ledger == Added(old(ledger), k, routes)
        && kernel.state.links - {interface} == old(kernel.state.links) - {interface}
      ensures forall q :: q in old(assignedRoutes) ==>
        q in assignedRoutes && assignedRoutes[q] == old(assignedRoutes)[q]
      ensures Ordered(old(kernel.log)) ==> Ordered(kernel.log)
      ensures Issued(old(kernel.log), kernel.log, [PeerSet(interface, k, routes, keepalive)])
      ensures r == if kernel.outcomes(old(Now())) then Pass else Fail(Network)
    {
      var ok := kernel.Run(PeerSet(interface, k, routes, keepalive));
      if !ok { return Fail(Network); }
      OtherLinks(old(kernel.state), PeerSet(interface, k, routes, keepalive));
      Record(k, routes);
      r := Pass;
    }

    method Record(k: Key, routes: seq<AllowedIp>)
      requires ledger.Legal() && Index() == ledger.Table() && Free(Index(), k, routes)
      requires |peers| < MAXIMUM_PEERS && 0 < |routes| <= 16
      modifies this`peers, this`assignedRoutes, this`ledger
      ensures Index() == KernelSet(old(Index()), k, routes)
      ensures ledger == Added(old(ledger), k, routes) && ledger.Legal() && Index() == ledger.Table()
      ensures forall q :: q in old(assignedRoutes) ==>
        q in assignedRoutes && assignedRoutes[q] == old(assignedRoutes)[q]
    {
      LegalIsKept(ledger);
      SetFree(Index(), ledger.Book(), k, routes);
      peers := peers + {k};
      InsertRoutes(k, routes);
      ledger := Added(ledger, k, routes);
    }

    method InsertRoutes(k: Key, routes: seq<AllowedIp>)
      modifies this`assignedRoutes
      ensures assignedRoutes == Assign(old(assignedRoutes), k, routes)
    {
      for i := 0 to |routes|
        invariant assignedRoutes == Assign(old(assignedRoutes), k, routes[..i])
      {
        AssignGrows(old(assignedRoutes), k, routes, i);
        assignedRoutes := assignedRoutes[routes[i] := k];
      }
      assert routes[..|routes|] == routes;
    }

    /** Removes a peer and releases exactly its routes. */
    method RemovePeer(k: Key) returns (r: Outcome<TransportError>)
      requires Valid()
      modifies this, kernel
      ensures Valid() && activeInterface == old(activeInterface)
      ensures kernel.state.forwarding == old(kernel.state.forwarding)
      ensures r.Fail? ==> ledger == old(ledger) && kernel.state == old(kernel.state)
      ensures r.Pass? ==>
        && activeInterface.Some? && k in old(ledger.Book()) && ledger == Removed(old(ledger), k)
        && kernel.state.links - {activeInterface.value} == old(kernel.state.links) - {activeInterface.value}
      ensures r.Pass? ==> Index() == KernelRemove(old(Index()), k)
      ensures r.Pass? <==> old(activeInterface).Some? && k in old(peers) && kernel.outcomes(old(Now()))
      ensures r == Fail(NotConnected) <==> old(activeInterface).None?
      ensures r == Fail(InvalidConfig) <==> old(activeInterface).Some? && k !in old(peers)
      ensures r.Pass? ==> Issued(old(kernel.log), kernel.log, [PeerRemove(activeInterface.value, k)])
      ensures Ordered(old(kernel.log)) ==> Ordered(kernel.log)
      ensures old(kernel.log) <= kernel.log
    {
      if activeInterface.None? { return Fail(NotConnected); }
      LegalPeers(ledger);
      if k !in peers { return Fail(InvalidConfig); }
      var ok := kernel.Run(PeerRemove(activeInterface.value, k));
      if !ok { return Fail(Network); }
      OtherLinks(old(kernel.state), PeerRemove(activeInterface.value, k));
      peers, assignedRoutes := peers - {k}, Release(assignedRoutes, k);
      ledger := Removed(ledger, k);
      r := Pass;
    }

    /** Deletes the interface; only after that is everything forgotten. */
    method Stop() returns (r: Outcome<TransportError>)
      requires Valid()
      modifies this, kernel
      ensures Valid() && kernel.state.forwarding == old(kernel.state.forwarding)
      ensures r.Pass? ==>
        && old(activeInterface).Some? && activeInterface == None
        && kernel.state.links == old(kernel.state.links) - {old(activeInterface).value}
      ensures r.Fail? ==>
        activeInterface == old(activeInterface) && ledger == old(ledger) && kernel.state == old(kernel.state)
      ensures r == Fail(NotConnected) <==> old(activeInterface).None?
      ensures r.Pass? <==> old(activeInterface).Some? && kernel.outcomes(old(Now()))
      ensures old(kernel.log) <= kernel.log
      ensures Ordered(old(kernel.log)) && old(kernel.state.forwarding != activeInterface) ==> Ordered(kernel.log)
    {
      if activeInterface.None? { return Fail(NotConnected); }
      var ok := kernel.Run(LinkDelete(activeInterface.value));
      if !ok { return Fail(Network); }
      activeInterface, peers, assignedRoutes := None, {}, map[];
      ledger := Blank;
      r := Pass;
    }
  }

  /** The link is added, the next check fails and so does the link's deletion. */
  predicate LeavesLink(kernel: Kernel, n: nat) {
    kernel.outcomes(n) && !kernel.outcomes(n + 1) && !kernel.outcomes(n + 2)
  }

  lemma ElsewhereSame(links: map<string, Table>, n: string)
    ensures links[n := EMPTY] - {n} == links - {n}
  {
  }

  /** Adding a peer and removing it again leaves the node and the kernel's tables as they were. */
  method AddThenRemove(n: WireGuardNode, p: Peer) returns (both: bool)
    requires n.Valid()
    modifies n, n.kernel
    ensures n.Valid()
    ensures both ==>
      && n.Index() == old(n.Index()) && n.ledger.Book() == old(n.ledger.Book())
      && n.kernel.state.links == old(n.kernel.state.links)
  {
    var added := n.AddPeer(p);
    if added.Fail? { return false; }
    var removed := n.RemovePeer(p.publicKey);
    both := removed.Pass?;
    if both {
      AddedThenRemoved(old(n.ledger), p.publicKey, p.allowed);
      SameLinks(old(n.kernel.state.links), n.kernel.state.links, n.activeInterface.value);
    }
  }

  lemma SameLinks(a: map<string, Table>, b: map<string, Table>, n: string)
    requires n in a && n in b && a[n] == b[n] && a - {n} == b - {n}
    ensures a == b
  {
    forall m | m in a || m in b
      ensures m in a && m in b && a[m] == b[m]
    {
      if m != n {
        assert (m in a) == (m in a - {n});
        assert (m in b) == (m in b - {n});
        assert m in a - {n} && (a - {n})[m] == (b - {n})[m];
      }
    }
  }
}
