/**
 * Validating, sealing and opening device configurations
 * (services/control-api/internal/configuration: config.go, signature.go, accept.go).
 */
module Configurations {
  import opened Results
  import opened Messages
  import opened Sets

  datatype ConfigError = Invalid | Expired | InvalidSigner | InvalidSignature | DeviceMismatch | StaleVersion

  /** A lowercase slug of at most 63 bytes. */
  predicate ValidIdentifier(value: Bytes) {
    && 0 < |value| <= 63
    && value[0] != 45 && value[|value| - 1] != 45
    && forall b :: b in value ==> 97 <= b <= 122 || 48 <= b <= 57 || b == 45
  }

  /** `wireguard` */
  const TRANSPORT_WIREGUARD: Bytes := [119, 105, 114, 101, 103, 117, 97, 114, 100]

  /** What the network-address library says about an address or prefix text. */
  datatype NetRules = NetRules(
    endpoint: Bytes -> bool,
    resolver: Bytes -> bool,
    unmapped: Bytes -> Bytes,
    tunnel: Bytes -> bool,
    addressOf: Bytes -> Bytes,
    allowed: Bytes -> bool)

  const NANOS: int := 1_000_000_000
  const MAXIMUM_LIFETIME: int := 24 * 3600 * NANOS
  const MAXIMUM_CLOCK_SKEW: int := 5 * 60 * NANOS
  /** 1 January of year 1, the zero time. */
  const ZERO_TIME: Time := Time(-62_135_596_800, 0)

  function Nanos(t: Time): int {
    t.seconds * NANOS + t.nanos
  }

  function Map<A, B>(f: A -> B, s: seq<A>): (r: seq<B>)
    ensures |r| == |s|
    ensures forall i :: 0 <= i < |s| ==> r[i] == f(s[i])
  {
    seq(|s|, i requires 0 <= i < |s| => f(s[i]))
  }

  predicate ValidParameters(w: WireGuardParameters, net: NetRules) {
    && |w.peerPublicKey| == 32 && (exists b :: b in w.peerPublicKey && b != 0)
    && 0 < |w.tunnelAddresses| <= 16
    && (forall a :: a in w.tunnelAddresses ==> net.tunnel(a))
    && Distinct(Map(net.addressOf, w.tunnelAddresses))
    && 0 < |w.allowedIps| <= 64
    && (forall p :: p in w.allowedIps ==> net.allowed(p))
    && Distinct(w.allowedIps)
    && 1280 <= w.mtu <= 9000
    && w.keepalive <= 300
  }

  function Validate(c: DeviceConfig, now: Time, net: NetRules): (r: Outcome<ConfigError>) {
    if c.version == 0 then Fail(Invalid)
    else if !ValidIdentifier(c.deviceId) || !ValidIdentifier(c.nodeId) then Fail(Invalid)
    else if c.transport != TRANSPORT_WIREGUARD then Fail(Invalid)
    else if !net.endpoint(c.endpoint) then Fail(Invalid)
    else if !(0 < |c.dns| <= 8) then Fail(Invalid)
    else if !ValidParameters(c.wireGuard, net) then Fail(Invalid)
    else if !(forall d :: d in c.dns ==> net.resolver(d)) || !Distinct(Map(net.unmapped, c.dns)) then Fail(Invalid)
    else if c.issuedAt == ZERO_TIME || c.expiresAt == ZERO_TIME || !c.expiresAt.After(c.issuedAt) then Fail(Invalid)
    else if Nanos(c.expiresAt) - Nanos(c.issuedAt) > MAXIMUM_LIFETIME then Fail(Invalid)
    else if Nanos(c.issuedAt) > Nanos(now) + MAXIMUM_CLOCK_SKEW then Fail(Invalid)
    else if !c.expiresAt.After(now) then Fail(Expired)
    else Pass
  }

  /** What the types of the fields already guarantee. */
  ghost predicate WellTyped(c: DeviceConfig) {
    && c.version < 0x1_0000_0000_0000_0000
    && c.wireGuard.mtu < 0x1_0000 && c.wireGuard.keepalive < 0x1_0000
    && c.issuedAt.Representable() && c.expiresAt.Representable()
    && |c.endpoint| < 0x1_0000_0000
    && (forall d :: d in c.dns ==> |d| < 0x1_0000_0000)
    && (forall a :: a in c.wireGuard.tunnelAddresses ==> |a| < 0x1_0000_0000)
    && (forall p :: p in c.wireGuard.allowedIps ==> |p| < 0x1_0000_0000)
  }

  /** A configuration that passed validation is within the encoding's limits. */
  lemma ValidIsEncodable(c: DeviceConfig, now: Time, net: NetRules)
    requires WellTyped(c) && Validate(c, now, net).Pass?
    ensures Encodable(c)
  {
  }

  datatype Signer = Signer(keyId: Bytes, sign: Bytes -> Option<Bytes>)

  type Verifier = (Bytes, Bytes, Bytes) -> bool

  datatype SignedConfig = SignedConfig(config: DeviceConfig, keyId: Bytes, signature: Bytes)

  function Seal(c: DeviceConfig, now: Time, signer: Signer, net: NetRules): (r: Result<SignedConfig, ConfigError>) {
    if Validate(c, now, net).Fail? then Err(Validate(c, now, net).error)
    else if !ValidIdentifier(signer.keyId) then Err(InvalidSigner)
    else
      match signer.sign(SigningMessage(c))
      case None => Err(InvalidSigner)
      case Some(signature) => Ok(SignedConfig(c, signer.keyId, signature))
  }

  /** The signature is checked before the contents are. */
  function Open(e: SignedConfig, now: Time, verify: Verifier, net: NetRules): (r: Result<DeviceConfig, ConfigError>) {
    if !verify(e.keyId, SigningMessage(e.config), e.signature) then Err(InvalidSignature)
    else if Validate(e.config, now, net).Fail? then Err(Validate(e.config, now, net).error)
    else Ok(e.config)
  }

  function OpenForDevice(e: SignedConfig, deviceId: Bytes, accepted: nat, now: Time, verify: Verifier, net: NetRules)
    : (r: Result<DeviceConfig, ConfigError>)
    ensures r.Ok? ==> r.value == e.config && r.value.deviceId == deviceId && accepted < r.value.version
  {
    var c :- Open(e, now, verify, net);
    if c.deviceId != deviceId then Err(DeviceMismatch)
    else if c.version <= accepted then Err(StaleVersion)
    else Ok(c)
  }

  // --- What validation means ------------------------------------------------

  /** No two positions hold values that are the same under `f`. */
  ghost predicate DistinctBy<A, B>(f: A -> B, s: seq<A>) {
    forall i, j :: 0 <= i < |s| && 0 <= j < |s| && f(s[i]) == f(s[j]) ==> i == j
  }

  /** One to sixteen tunnel addresses, one to sixty-four networks, a key and bounds. */
  ghost predicate ProperTunnel(w: WireGuardParameters, net: NetRules) {
    && |w.peerPublicKey| == 32 && !(forall b :: b in w.peerPublicKey ==> b == 0)
    && 1 <= |w.tunnelAddresses| <= 16 && 1 <= |w.allowedIps| <= 64
    && (forall i :: 0 <= i < |w.tunnelAddresses| ==> net.tunnel(w.tunnelAddresses[i]))
    && (forall i :: 0 <= i < |w.allowedIps| ==> net.allowed(w.allowedIps[i]))
    && DistinctBy(net.addressOf, w.tunnelAddresses) && DistinctBy((p: Bytes) => p, w.allowedIps)
    && 1280 <= w.mtu <= 9000 && w.keepalive <= 300
  }

  /** Everything asked of a configuration but that it has not expired. */
  ghost predicate Proper(c: DeviceConfig, now: Time, net: NetRules) {
    && c.version > 0 && ValidIdentifier(c.deviceId) && ValidIdentifier(c.nodeId)
    && c.transport == TRANSPORT_WIREGUARD && net.endpoint(c.endpoint)
    && 1 <= |c.dns| <= 8 && DistinctBy(net.unmapped, c.dns)
    && (forall i :: 0 <= i < |c.dns| ==> net.resolver(c.dns[i]))
    && ProperTunnel(c.wireGuard, net)
    && c.issuedAt != ZERO_TIME && c.expiresAt != ZERO_TIME
    && Nanos(c.issuedAt) < Nanos(c.expiresAt) <= Nanos(c.issuedAt) + 24 * 60 * 60 * NANOS
    && Nanos(c.issuedAt) <= Nanos(now) + 5 * 60 * NANOS
  }

  ghost predicate InForce(c: DeviceConfig, now: Time) {
    Nanos(now) < Nanos(c.expiresAt)
  }

  /** Nanoseconds within the second, as the time type keeps them. */
  ghost predicate Clocked(c: DeviceConfig, now: Time) {
    && 0 <= c.issuedAt.nanos < NANOS && 0 <= c.expiresAt.nanos < NANOS && 0 <= now.nanos < NANOS
  }

  lemma AfterMeaning(t: Time, u: Time)
    requires 0 <= t.nanos < NANOS && 0 <= u.nanos < NANOS
    ensures t.After(u) <==> Nanos(t) > Nanos(u)
  {
  }

  lemma DistinctByMeaning<A, B>(f: A -> B, s: seq<A>)
    ensures Distinct(Map(f, s)) <==> DistinctBy(f, s)
  {
    var m := Map(f, s);
    if !Distinct(m) {
      var i, j :| 0 <= i < j < |m| && m[i] == m[j];
      assert f(s[i]) == f(s[j]);
    }
    if Distinct(m) {
      forall i, j | 0 <= i < |s| && 0 <= j < |s| && f(s[i]) == f(s[j])
        ensures i == j
      {
        assert m[i] == m[j];
      }
    }
  }

  lemma TunnelMeaning(w: WireGuardParameters, net: NetRules)
    ensures ValidParameters(w, net) <==> ProperTunnel(w, net)
  {
    DistinctByMeaning(net.addressOf, w.tunnelAddresses);
    var same := (p: Bytes) => p;
    assert Map(same, w.allowedIps) == w.allowedIps;
    DistinctByMeaning(same, w.allowedIps);
  }

  /** Every answer of validation, by its cause: what is both improper and expired counts as improper. */
  lemma ValidateExact(c: DeviceConfig, now: Time, net: NetRules)
    requires Clocked(c, now)
    ensures Validate(c, now, net) ==
      if !Proper(c, now, net) then Fail(Invalid) else if !InForce(c, now) then Fail(Expired) else Pass
  {
    AfterMeaning(c.expiresAt, c.issuedAt);
    AfterMeaning(c.expiresAt, now);
    DistinctByMeaning(net.unmapped, c.dns);
    TunnelMeaning(c.wireGuard, net);
  }

  /** Sealing succeeds exactly for what is proper and in force, and a signer that can sign. */
  lemma SealExact(c: DeviceConfig, now: Time, signer: Signer, net: NetRules)
    requires Clocked(c, now)
    ensures
      var r := Seal(c, now, signer, net);
      var ready := ValidIdentifier(signer.keyId) && signer.sign(SigningMessage(c)).Some?;
      && (r.Ok? <==> Proper(c, now, net) && InForce(c, now) && ready)
      && (r.Ok? ==> r.value == SignedConfig(c, signer.keyId, signer.sign(SigningMessage(c)).value))
      && (r == Err(Invalid) <==> !Proper(c, now, net))
      && (r == Err(Expired) <==> Proper(c, now, net) && !InForce(c, now))
      && (r == Err(InvalidSigner) <==> Proper(c, now, net) && InForce(c, now) && !ready)
  {
    ValidateExact(c, now, net);
  }

  /** Opening succeeds exactly for what verifies, is proper and is in force; each error has its cause. */
  lemma OpenExact(e: SignedConfig, now: Time, verify: Verifier, net: NetRules)
    requires Clocked(e.config, now)
    ensures
      var r := Open(e, now, verify, net);
      var signed := verify(e.keyId, SigningMessage(e.config), e.signature);
      && (r.Ok? <==> signed && Proper(e.config, now, net) && InForce(e.config, now))
      && (r.Ok? ==> r.value == e.config)
      && (r == Err(InvalidSignature) <==> !signed)
      && (r == Err(Invalid) <==> signed && !Proper(e.config, now, net))
      && (r == Err(Expired) <==> signed && Proper(e.config, now, net) && !InForce(e.config, now))
  {
    ValidateExact(e.config, now, net);
  }

  /** A device accepts exactly what opens, is its own and is newer than what it has. */
  lemma OpenForDeviceExact(e: SignedConfig, deviceId: Bytes, accepted: nat, now: Time, verify: Verifier, net: NetRules)
    ensures
      var first := Open(e, now, verify, net);
      var r := OpenForDevice(e, deviceId, accepted, now, verify, net);
      && (r.Ok? <==> first.Ok? && e.config.deviceId == deviceId && e.config.version > accepted)
      && (r.Ok? ==> r.value == e.config)
      && (first.Err? ==> r == first)
      && (r == Err(DeviceMismatch) <==> first.Ok? && e.config.deviceId != deviceId)
      && (r == Err(StaleVersion) <==> first.Ok? && e.config.deviceId == deviceId && e.config.version <= accepted)
  {
  }

  // --- Signatures -----------------------------------------------------------

  /** Something `Seal` produced, from fields of the right types. */
  ghost predicate Sealed(e: SignedConfig, net: NetRules) {
    WellTyped(e.config) && exists t: Time, s: Signer :: Seal(e.config, t, s, net) == Ok(e)
  }

  /** An ideal signature: a message verifies under a key only if it was signed by sealing. */
  ghost predicate Unforgeable(verify: Verifier, log: set<SignedConfig>, net: NetRules) {
    && (forall e :: e in log ==> Sealed(e, net))
    && (forall k, m, s :: verify(k, m, s) ==> exists e :: e in log && e.keyId == k && SigningMessage(e.config) == m)
  }

  lemma SealedIsEncodable(e: SignedConfig, net: NetRules)
    requires Sealed(e, net)
    ensures Encodable(e.config)
  {
    var t: Time, s: Signer :| Seal(e.config, t, s, net) == Ok(e);
    ValidIsEncodable(e.config, t, net);
  }

  /** With an ideal signature, whatever `Open` accepts is exactly a configuration that was sealed. */
  lemma OpenOnlySealed(e: SignedConfig, now: Time, verify: Verifier, net: NetRules, log: set<SignedConfig>)
    requires Unforgeable(verify, log, net) && WellTyped(e.config)
    requires Open(e, now, verify, net).Ok?
    ensures exists o :: o in log && o.keyId == e.keyId && o.config == Open(e, now, verify, net).value
  {
    assert verify(e.keyId, SigningMessage(e.config), e.signature);
    var o :| o in log && o.keyId == e.keyId && SigningMessage(o.config) == SigningMessage(e.config);
    SealedIsEncodable(o, net);
    ValidIsEncodable(e.config, now, net);
    ConfigInjective(o.config, e.config);
  }

  /**
   * With a matching verifier, what was sealed opens, to itself, from five minutes
   * before it was issued until it expires, and at no other time.
   */
  lemma SealOpens(c: DeviceConfig, t: Time, now: Time, signer: Signer, verify: Verifier, net: NetRules)
    requires forall m :: signer.sign(m).Some? ==> verify(signer.keyId, m, signer.sign(m).value)
    requires Seal(c, t, signer, net).Ok? && Clocked(c, t) && Clocked(c, now)
    ensures Open(Seal(c, t, signer, net).value, now, verify, net) ==
      if Nanos(now) < Nanos(c.issuedAt) - 5 * 60 * NANOS then Err(Invalid)
      else if Nanos(now) >= Nanos(c.expiresAt) then Err(Expired)
      else Ok(c)
  {
    SealExact(c, t, signer, net);
    OpenExact(Seal(c, t, signer, net).value, now, verify, net);
  }
}
