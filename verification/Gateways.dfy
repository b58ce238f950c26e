/**
 * Validation of profiles, node interfaces and gateway policies
 * (core/transport/src/wireguard.rs), stated on the sets of addresses involved.
 */
module Gateways {
  import opened Prefixes
  import opened Transports

  // --- Scans ----------------------------------------------------------------

  /** Scans with a growing set: every element is good and no key repeats. */
  method ScanDistinct<T, K(==)>(s: seq<T>, good: T -> bool, key: T -> K) returns (ok: bool)
    ensures ok <==>
      (forall x :: x in s ==> good(x)) && (forall i, j :: 0 <= i < j < |s| ==> key(s[i]) != key(s[j]))
  {
    var unique: set<K> := {};
    for i := 0 to |s|
      invariant forall k :: 0 <= k < i ==> good(s[k]) && key(s[k]) in unique
      invariant forall u :: u in unique ==> exists k :: 0 <= k < i && key(s[k]) == u
      invariant forall k, l :: 0 <= k < l < i ==> key(s[k]) != key(s[l])
    {
      assert s[i] in s;
      if !good(s[i]) || key(s[i]) in unique { return false; }
      unique := unique + {key(s[i])};
    }
    return true;
  }

  /** Scans backwards from each element: every element is good and no two clash. */
  method ScanPairs<T>(s: seq<T>, good: T -> bool, clash: (T, T) -> bool) returns (ok: bool)
    ensures ok <==>
      (forall i :: 0 <= i < |s| ==> good(s[i])) && (forall i, j :: 0 <= i < j < |s| ==> !clash(s[i], s[j]))
  {
    for i := 0 to |s|
      invariant forall k :: 0 <= k < i ==> good(s[k])
      invariant forall k, l :: 0 <= k < l < i ==> !clash(s[k], s[l])
    {
      if !good(s[i]) { return false; }
      for k := 0 to i
        invariant forall m :: 0 <= m < k ==> !clash(s[m], s[i])
      {
        if clash(s[k], s[i]) { return false; }
      }
    }
    return true;
  }

  ghost predicate HasMatch<A, B>(x: A, ys: seq<B>, match_: (A, B) -> bool) {
    exists j :: 0 <= j < |ys| && match_(x, ys[j])
  }

  /** Every element of one list has a match in the other. */
  method ScanMatches<A, B>(xs: seq<A>, ys: seq<B>, match_: (A, B) -> bool) returns (ok: bool)
    ensures ok <==> forall i :: 0 <= i < |xs| ==> HasMatch(xs[i], ys, match_)
  {
    for i := 0 to |xs|
      invariant forall k :: 0 <= k < i ==> HasMatch(xs[k], ys, match_)
    {
      var found := false;
      for j := 0 to |ys|
        invariant found <==> exists l :: 0 <= l < j && match_(xs[i], ys[l])
      {
        found := found || match_(xs[i], ys[j]);
      }
      assert found <==> HasMatch(xs[i], ys, match_);
      if !found { return false; }
    }
    return true;
  }

  predicate UsableAddress(a: TunnelAddress) {
    a.length <= a.address.Width() && !a.address.IsUnspecified() && !a.address.IsMulticast()
  }

  method ValidateAddresses(addresses: seq<TunnelAddress>) returns (ok: bool)
    ensures ok <==> ValidAddresses(addresses)
  {
    if addresses == [] || |addresses| > 16 { return false; }
    ok := ScanDistinct(addresses, UsableAddress, (a: TunnelAddress) => a.address);
  }

  method ValidateAllowed(allowed: seq<AllowedIp>) returns (ok: bool)
    ensures ok <==> ValidAllowed(allowed)
  {
    if allowed == [] || |allowed| > 64 { return false; }
    ok := ScanDistinct(allowed, ValidNetwork, (p: AllowedIp) => p);
  }

  // --- Gateway policies -----------------------------------------------------

  /** A client network: neither default, host nor unspecified, and canonical. */
  predicate ClientNetwork(p: AllowedIp) {
    p.length != 0 && p.length != p.network.Width() && !p.network.IsUnspecified() && ValidNetwork(p)
  }

  /** No shift the policy code performs on such a network reaches the word's width. */
  lemma ClientNetworkShifts(p: AllowedIp)
    requires ClientNetwork(p)
    ensures Shiftable(p) && 0 < p.network.Width() - p.length < p.network.Width()
  {
  }

  /** No address lies in both networks. */
  ghost predicate Disjoint(p: AllowedIp, q: AllowedIp)
    requires Shiftable(p) && Shiftable(q)
  {
    forall a :: !Shared(p, q, a)
  }

  /** Between one and sixteen client networks with no address in common. */
  ghost predicate ValidPolicy(networks: seq<AllowedIp>) {
    && 0 < |networks| <= 16
    && (forall i :: 0 <= i < |networks| ==> ClientNetwork(networks[i]) && Shiftable(networks[i]))
    && (forall i, j :: 0 <= i < j < |networks| ==> Disjoint(networks[i], networks[j]))
  }

  /** The overlap test, for networks already found to be client networks. */
  predicate Clash(p: AllowedIp, q: AllowedIp) {
    Shiftable(p) && Shiftable(q) && NetworksOverlap(p, q)
  }

  lemma ClashExact(p: AllowedIp, q: AllowedIp)
    requires Shiftable(p) && Shiftable(q)
    ensures !Clash(p, q) <==> Disjoint(p, q)
  {
    OverlapExact(p, q);
  }

  /** Accepts exactly the policies whose networks are disjoint as sets of addresses. */
  method ValidatePolicy(networks: seq<AllowedIp>) returns (ok: bool)
    ensures ok <==> ValidPolicy(networks)
  {
    if networks == [] || |networks| > 16 { return false; }
    ok := ScanPairs(networks, ClientNetwork, Clash);
    ScanMeansPolicy(networks);
  }

  lemma ScanMeansPolicy(networks: seq<AllowedIp>)
    requires 0 < |networks| <= 16
    ensures ValidPolicy(networks) <==>
      (forall i :: 0 <= i < |networks| ==> ClientNetwork(networks[i])) &&
      (forall i, j :: 0 <= i < j < |networks| ==> !Clash(networks[i], networks[j]))
  {
    forall i | 0 <= i < |networks| && ClientNetwork(networks[i]) ensures Shiftable(networks[i]) {
      ClientNetworkShifts(networks[i]);
    }
    forall i, j | 0 <= i < j < |networks| && Shiftable(networks[i]) && Shiftable(networks[j])
      ensures !Clash(networks[i], networks[j]) <==> Disjoint(networks[i], networks[j])
    {
      ClashExact(networks[i], networks[j]);
    }
  }

  datatype NodeConfig = NodeConfig(listenPort: nat, addresses: seq<TunnelAddress>, mtu: nat)

  predicate ValidNode(c: NodeConfig) {
    ValidAddresses(c.addresses) && ValidMtu(c.mtu)
  }

  /** The address is the node's own in this network: same prefix length, and inside it. */
  ghost predicate Hosts(p: AllowedIp, t: TunnelAddress)
    requires Shiftable(p)
  {
    p.length == t.length && Contains(p, t.address)
  }

  ghost predicate HasAddress(p: AllowedIp, addresses: seq<TunnelAddress>)
    requires Shiftable(p)
  {
    exists j :: 0 <= j < |addresses| && Hosts(p, addresses[j])
  }

  ghost predicate ValidForNode(networks: seq<AllowedIp>, c: NodeConfig) {
    && ValidPolicy(networks) && ValidNode(c)
    && |networks| == |c.addresses|
    && forall i :: 0 <= i < |networks| ==> HasAddress(networks[i], c.addresses)
  }

  predicate Matches(p: AllowedIp, t: TunnelAddress) {
    Shiftable(p) && NetworkMatchesAddress(p, t)
  }

  method ValidateForNode(networks: seq<AllowedIp>, c: NodeConfig) returns (ok: bool)
    ensures ok <==> ValidForNode(networks, c)
  {
    ok := ValidatePolicy(networks);
    if !ok { return; }
    ok := ValidateAddresses(c.addresses);
    if !ok || !ValidMtu(c.mtu) { return false; }
    if |networks| != |c.addresses| { return false; }
    ok := ScanMatches(networks, c.addresses, Matches);
    forall i | 0 <= i < |networks|
      ensures HasMatch(networks[i], c.addresses, Matches) <==> HasAddress(networks[i], c.addresses)
    {
      HasMatchExact(networks[i], c.addresses);
    }
  }

  lemma HasMatchExact(p: AllowedIp, addresses: seq<TunnelAddress>)
    requires Shiftable(p)
    ensures HasMatch(p, addresses, Matches) <==> HasAddress(p, addresses)
  {
  }

  // --- The correspondence acceptance forces ---------------------------------

  /** An address of the node's inside a given network. */
  ghost function AddressIn(networks: seq<AllowedIp>, c: NodeConfig, i: nat): (j: nat)
    requires ValidForNode(networks, c) && i < |networks|
    ensures j < |c.addresses| && Hosts(networks[i], c.addresses[j])
  {
    assert HasAddress(networks[i], c.addresses);
    var j :| 0 <= j < |c.addresses| && Hosts(networks[i], c.addresses[j]);
    j
  }

  /** Different networks have different addresses, because they share none. */
  lemma AddressInInjective(networks: seq<AllowedIp>, c: NodeConfig, i: nat, k: nat)
    requires ValidForNode(networks, c) && i < k < |networks|
    ensures AddressIn(networks, c, i) != AddressIn(networks, c, k)
  {
    var j := AddressIn(networks, c, i);
    if j == AddressIn(networks, c, k) {
      assert Disjoint(networks[i], networks[k]);
      assert Shared(networks[i], networks[k], c.addresses[j].address);
    }
  }

  /** The numbers below `n`. */
  ghost function Below(n: nat): (s: set<nat>)
    ensures forall x: nat :: x in s <==> x < n
    ensures |s| == n
  {
    if n == 0 then {} else Below(n - 1) + {n - 1}
  }

  ghost function Elements(f: seq<nat>): set<nat> {
    if f == [] then {} else Elements(f[..|f| - 1]) + {f[|f| - 1]}
  }

  lemma {:induction false} DistinctSize(f: seq<nat>)
    requires forall i, k :: 0 <= i < k < |f| ==> f[i] != f[k]
    ensures |Elements(f)| == |f|
    ensures forall x: nat :: x in Elements(f) <==> exists i :: 0 <= i < |f| && f[i] == x
  {
    if f == [] {
    } else {
      var last, init := f[|f| - 1], f[..|f| - 1];
      DistinctSize(init);
      forall x: nat ensures x in Elements(f) <==> exists i :: 0 <= i < |f| && f[i] == x {
        if x in Elements(init) {
          var i :| 0 <= i < |init| && init[i] == x;
          assert f[i] == x;
        }
        if i :| 0 <= i < |f| && f[i] == x {
          if i < |init| { assert init[i] == x; }
        }
      }
      assert last !in Elements(init);
    }
  }

  lemma {:induction false} FullSubset<T>(a: set<T>, b: set<T>)
    requires a <= b && |a| == |b|
    ensures a == b
  {
    if a == {} {
    } else {
      var x :| x in a;
      FullSubset(a - {x}, b - {x});
    }
  }

  /** Distinct numbers below `n`, `n` of them, are all the numbers below `n`. */
  lemma Pigeonhole(f: seq<nat>, j: nat)
    requires forall i, k :: 0 <= i < k < |f| ==> f[i] != f[k]
    requires forall i :: 0 <= i < |f| ==> f[i] < |f|
    requires j < |f|
    ensures exists i :: 0 <= i < |f| && f[i] == j
  {
    DistinctSize(f);
    FullSubset(Elements(f), Below(|f|));
    assert j in Elements(f);
  }

  /** The chosen address of each network, none chosen twice. */
  lemma Choices(networks: seq<AllowedIp>, c: NodeConfig, j: nat) returns (i: nat)
    requires ValidForNode(networks, c) && j < |c.addresses|
    ensures i < |networks| && Hosts(networks[i], c.addresses[j])
  {
    var f: seq<nat> := seq(|networks|, i requires 0 <= i < |networks| => AddressIn(networks, c, i));
    forall i, k | 0 <= i < k < |f| ensures f[i] != f[k] {
      AddressInInjective(networks, c, i, k);
    }
    Pigeonhole(f, j);
    i :| 0 <= i < |f| && f[i] == j;
  }

  /**
   * In an accepted configuration every interface address lies in exactly one
   * client network, and in that one as its own: equally many networks and
   * addresses leave no address over.
   */
  lemma EveryAddressHasItsNetwork(networks: seq<AllowedIp>, c: NodeConfig, j: nat)
    requires ValidForNode(networks, c) && j < |c.addresses|
    ensures exists i :: 0 <= i < |networks| && Hosts(networks[i], c.addresses[j])
    ensures forall i, k :: 0 <= i < k < |networks| ==>
              !(Contains(networks[i], c.addresses[j].address) && Contains(networks[k], c.addresses[j].address))
  {
    var own := Choices(networks, c, j);
    forall i, k | 0 <= i < k < |networks|
      ensures !(Contains(networks[i], c.addresses[j].address) && Contains(networks[k], c.addresses[j].address))
    {
      assert Disjoint(networks[i], networks[k]);
      assert !Shared(networks[i], networks[k], c.addresses[j].address);
    }
  }

  /** And every network holds exactly one of the addresses as its own. */
  lemma EveryNetworkHasItsAddress(networks: seq<AllowedIp>, c: NodeConfig, i: nat, j: nat)
    requires ValidForNode(networks, c) && i < |networks| && j < |c.addresses|
    requires Hosts(networks[i], c.addresses[j])
    ensures AddressIn(networks, c, i) == j
  {
    var f: seq<nat> := seq(|networks|, i requires 0 <= i < |networks| => AddressIn(networks, c, i));
    forall i, k | 0 <= i < k < |f| ensures f[i] != f[k] {
      AddressInInjective(networks, c, i, k);
    }
    Pigeonhole(f, j);
    var p :| 0 <= p < |f| && f[p] == j;
    OnlyNetwork(networks, c, i, p, j);
  }

  lemma OnlyNetwork(networks: seq<AllowedIp>, c: NodeConfig, i: nat, p: nat, j: nat)
    requires ValidForNode(networks, c) && i < |networks| && p < |networks| && j < |c.addresses|
    requires Hosts(networks[i], c.addresses[j]) && Hosts(networks[p], c.addresses[j])
    ensures i == p
  {
    if i < p {
      assert Disjoint(networks[i], networks[p]);
      assert Shared(networks[i], networks[p], c.addresses[j].address);
    } else if p < i {
      assert Disjoint(networks[p], networks[i]);
      assert Shared(networks[p], networks[i], c.addresses[j].address);
    }
  }
}
