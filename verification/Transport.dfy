/** Transport parameters and errors (core/transport/src/lib.rs, core/transport/src/wireguard.rs). */
module Transports {
  import opened Results
  import opened Prefixes

  datatype TransportError = InvalidConfig | Cancelled | AlreadyConnected | NotConnected | Network

  datatype Endpoint = Endpoint(host: string, port: nat)

  datatype TransportKind = WireGuard | OtherTransport

  datatype TransportConfig = TransportConfig(kind: TransportKind, endpoint: Endpoint, timeout: nat) {
    predicate Valid() {
      !Blank(endpoint.host) && timeout != 0
    }
  }

  /** A string that trims to nothing. */
  predicate Blank(s: string) {
    forall c :: c in s ==> c in " \t\n\r"
  }

  datatype Profile = Profile(
    publicKey: seq<bv8>,
    endpoint: Endpoint,
    addresses: seq<TunnelAddress>,
    allowed: seq<AllowedIp>,
    keepalive: Option<nat>,
    mtu: nat)

  predicate AsciiAlphanumeric(c: char) {
    'a' <= c <= 'z' || 'A' <= c <= 'Z' || '0' <= c <= '9'
  }

  /** Interface names the transport accepts. */
  predicate LinkName(name: string) {
    && 0 < |name| <= 15
    && forall c :: c in name ==> AsciiAlphanumeric(c) || c == '_' || c == '-'
  }

  /** Interface names the firewall accepts. */
  predicate FilterName(name: string) {
    && 0 < |name| <= 63
    && forall c :: c in name ==> AsciiAlphanumeric(c) || c == '_' || c == '-' || c == '.'
  }

  predicate ValidAddresses(addresses: seq<TunnelAddress>) {
    && 0 < |addresses| <= 16
    && (forall a :: a in addresses ==>
          a.length <= a.address.Width() && !a.address.IsUnspecified() && !a.address.IsMulticast())
    && (forall i, j :: 0 <= i < j < |addresses| ==> addresses[i].address != addresses[j].address)
  }

  predicate ValidAllowed(allowed: seq<AllowedIp>) {
    && 0 < |allowed| <= 64
    && (forall p :: p in allowed ==> ValidNetwork(p))
    && (forall i, j :: 0 <= i < j < |allowed| ==> allowed[i] != allowed[j])
  }

  predicate ValidKeepalive(keepalive: Option<nat>) {
    keepalive.Some? ==> 0 < keepalive.value <= 300
  }

  predicate ValidMtu(mtu: nat) {
    1280 <= mtu <= 9000
  }

  predicate ZeroKey(key: seq<bv8>) {
    forall b :: b in key ==> b == 0
  }

  predicate ValidProfile(p: Profile) {
    && !ZeroKey(p.publicKey)
    && !Blank(p.endpoint.host)
    && ValidAddresses(p.addresses)
    && ValidAllowed(p.allowed)
    && ValidKeepalive(p.keepalive)
    && ValidMtu(p.mtu)
  }

  /** An IPv4-mapped IPv6 address stands for the IPv4 address in its low word. */
  function Canonical(a: IpAddr): IpAddr {
    if a.V6? && a.v6[..96] == Fill(80, false) + Fill(16, true) then V4(a.v6[96..]) else a
  }

  predicate ValidResolvers(resolvers: seq<IpAddr>) {
    && 0 < |resolvers| <= 8
    && (forall a :: a in resolvers ==> !Canonical(a).IsUnspecified() && !Canonical(a).IsMulticast())
    && (forall i, j :: 0 <= i < j < |resolvers| ==> Canonical(resolvers[i]) != Canonical(resolvers[j]))
  }
}
