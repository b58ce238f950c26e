/**
 * The canonical byte strings that are signed
 * (services/control-api/internal/configuration/signature.go,
 * services/control-api/internal/identity/device.go), and a decoder for them.
 * Lengths, counts and numbers are big-endian and truncate to their width.
 */
module Messages {
  import opened Results

  type byte = b: int | 0 <= b < 256
  type Bytes = seq<byte>

  // --- Numbers --------------------------------------------------------------

  function Pow256(w: nat): nat
    ensures Pow256(w) > 0
  {
    if w == 0 then 1 else 256 * Pow256(w - 1)
  }

  /** The low `w` bytes of a number, most significant first. */
  function Uint(w: nat, n: int): (bs: Bytes)
    ensures |bs| == w
    decreases w
  {
    if w == 0 then [] else Uint(w - 1, n / 256) + [n % 256]
  }

  function Value(bs: Bytes): (n: nat)
  {
    if bs == [] then 0 else Value(bs[..|bs| - 1]) * 256 + bs[|bs| - 1]
  }

  /** Reading back a number that fits its width. */
  lemma {:induction false} UintValue(w: nat, n: nat)
    requires n < Pow256(w)
    ensures Value(Uint(w, n)) == n
    decreases w
  {
    if w == 0 {
    } else {
      UintValue(w - 1, n / 256);
      assert Uint(w, n)[..w - 1] == Uint(w - 1, n / 256);
    }
  }

  /** Truncation keeps a number modulo its width, negative numbers included. */
  lemma {:induction false} UintTruncates(w: nat, n: int)
    ensures Uint(w, n) == Uint(w, n + Pow256(w))
    decreases w
  {
    if w == 0 {
    } else {
      var p := Pow256(w - 1);
      assert (n + 256 * p) / 256 == n / 256 + p && (n + 256 * p) % 256 == n % 256;
      UintTruncates(w - 1, n / 256);
    }
  }

  lemma Widths()
    ensures Pow256(2) == 0x1_0000 && Pow256(4) == 0x1_0000_0000 && Pow256(8) == 0x1_0000_0000_0000_0000
  {
  }

  // --- Fields, lists and times ----------------------------------------------

  function Field(f: Bytes): (bs: Bytes) {
    Uint(4, |f|) + f
  }

  function Fields(fs: seq<Bytes>): (bs: Bytes) {
    if fs == [] then [] else Field(fs[0]) + Fields(fs[1..])
  }

  function List(fs: seq<Bytes>): (bs: Bytes) {
    Uint(4, |fs|) + Fields(fs)
  }

  /** Seconds since 1970 as a signed 64-bit count, and nanoseconds within the second. */
  datatype Time = Time(seconds: int, nanos: int) {
    predicate Representable() {
      -0x8000_0000_0000_0000 <= seconds < 0x8000_0000_0000_0000 && 0 <= nanos < 1_000_000_000
    }

    predicate After(t: Time) {
      seconds > t.seconds || (seconds == t.seconds && nanos > t.nanos)
    }
  }

  function TimeBytes(t: Time): (bs: Bytes) {
    Uint(8, t.seconds) + Uint(4, t.nanos)
  }

  // --- The decoder ----------------------------------------------------------

  type Parsed<T> = Option<(T, Bytes)>

  function TakeUint(w: nat, bs: Bytes): Parsed<nat> {
    if |bs| < w then None else Some((Value(bs[..w]), bs[w..]))
  }

  function TakeField(bs: Bytes): Parsed<Bytes> {
    var (n, rest) :- TakeUint(4, bs);
    if |rest| < n then None else Some((rest[..n], rest[n..]))
  }

  function TakeFields(count: nat, bs: Bytes): Parsed<seq<Bytes>> {
    if count == 0 then Some(([], bs))
    else
      var (f, rest) :- TakeField(bs);
      var (fs, end) :- TakeFields(count - 1, rest);
      Some(([f] + fs, end))
  }

  function TakeList(bs: Bytes): Parsed<seq<Bytes>> {
    var (count, rest) :- TakeUint(4, bs);
    TakeFields(count, rest)
  }

  function TakeTime(bs: Bytes): Parsed<Time> {
    var (raw, rest) :- TakeUint(8, bs);
    var (nanos, end) :- TakeUint(4, rest);
    var seconds := if raw < 0x8000_0000_0000_0000 then raw else raw - 0x1_0000_0000_0000_0000;
    Some((Time(seconds, nanos), end))
  }

  lemma ReadUint(w: nat, n: nat, rest: Bytes)
    requires n < Pow256(w)
    ensures TakeUint(w, Uint(w, n) + rest) == Some((n, rest))
  {
    UintValue(w, n);
    var all := Uint(w, n) + rest;
    assert all[..w] == Uint(w, n) && all[w..] == rest;
  }

  lemma ReadField(f: Bytes, rest: Bytes)
    requires |f| < 0x1_0000_0000
    ensures TakeField(Field(f) + rest) == Some((f, rest))
  {
    Widths();
    assert Field(f) + rest == Uint(4, |f|) + (f + rest);
    ReadUint(4, |f|, f + rest);
    assert (f + rest)[..|f|] == f && (f + rest)[|f|..] == rest;
  }

  ghost predicate Short(fs: seq<Bytes>) {
    |fs| < 0x1_0000_0000 && forall f :: f in fs ==> |f| < 0x1_0000_0000
  }

  lemma {:induction false} ReadFields(fs: seq<Bytes>, rest: Bytes)
    requires forall f :: f in fs ==> |f| < 0x1_0000_0000
    ensures TakeFields(|fs|, Fields(fs) + rest) == Some((fs, rest))
    decreases |fs|
  {
    if fs == [] {
      assert Fields(fs) + rest == rest;
    } else {
      var more := Fields(fs[1..]) + rest;
      Front(Field(fs[0]), Fields(fs[1..]), rest);
      ReadField(fs[0], more);
      ReadFields(fs[1..], rest);
      TakeFieldsMore(fs[0], fs[1..], Field(fs[0]) + more, more, rest);
      assert [fs[0]] + fs[1..] == fs;
    }
  }

  lemma TakeFieldsMore(f: Bytes, fs: seq<Bytes>, bs: Bytes, more: Bytes, rest: Bytes)
    requires TakeField(bs) == Some((f, more)) && TakeFields(|fs|, more) == Some((fs, rest))
    ensures TakeFields(|fs| + 1, bs) == Some(([f] + fs, rest))
  {
  }

  lemma ReadList(fs: seq<Bytes>, rest: Bytes)
    requires Short(fs)
    ensures TakeList(List(fs) + rest) == Some((fs, rest))
  {
    Widths();
    assert List(fs) + rest == Uint(4, |fs|) + (Fields(fs) + rest);
    ReadUint(4, |fs|, Fields(fs) + rest);
    ReadFields(fs, rest);
  }

  lemma ReadTime(t: Time, rest: Bytes)
    requires t.Representable()
    ensures TakeTime(TimeBytes(t) + rest) == Some((t, rest))
  {
    Widths();
    assert TimeBytes(t) + rest == Uint(8, t.seconds) + (Uint(4, t.nanos) + rest);
    var raw := if t.seconds >= 0 then t.seconds else t.seconds + Pow256(8);
    if t.seconds < 0 { UintTruncates(8, t.seconds); }
    ReadUint(8, raw, Uint(4, t.nanos) + rest);
    ReadUint(4, t.nanos, rest);
  }

  // --- Configuration messages -----------------------------------------------

  /** `cyberia-device-configuration:v1` */
  const CONFIGURATION_DOMAIN: Bytes := [
    99, 121, 98, 101, 114, 105, 97, 45, 100, 101, 118, 105, 99, 101, 45,
    99, 111, 110, 102, 105, 103, 117, 114, 97, 116, 105, 111, 110, 58, 118, 49]

  /** `cyberia-device-enrollment:v1` */
  const ENROLLMENT_DOMAIN: Bytes := [
    99, 121, 98, 101, 114, 105, 97, 45, 100, 101, 118, 105, 99, 101, 45,
    101, 110, 114, 111, 108, 108, 109, 101, 110, 116, 58, 118, 49]

  /** Addresses and prefixes appear by their text, which determines them. */
  datatype WireGuardParameters = WireGuardParameters(
    peerPublicKey: Bytes,
    tunnelAddresses: seq<Bytes>,
    allowedIps: seq<Bytes>,
    mtu: nat,
    keepalive: nat)

  datatype DeviceConfig = DeviceConfig(
    version: nat,
    deviceId: Bytes,
    nodeId: Bytes,
    transport: Bytes,
    endpoint: Bytes,
    dns: seq<Bytes>,
    wireGuard: WireGuardParameters,
    issuedAt: Time,
    expiresAt: Time)

  /** The message followed by anything else. */
  function ConfigOnto(c: DeviceConfig, rest: Bytes): (m: Bytes) {
    Field(CONFIGURATION_DOMAIN) + (Uint(8, c.version) + (Field(c.deviceId) + (Field(c.nodeId) +
    (Field(c.transport) + (Field(c.endpoint) + WireGuardOnto(c, rest))))))
  }

  function WireGuardOnto(c: DeviceConfig, rest: Bytes): (m: Bytes) {
    var w := c.wireGuard;
    List(c.dns) + (Field(w.peerPublicKey) + (List(w.tunnelAddresses) + (List(w.allowedIps) +
    (Uint(2, w.mtu) + (Uint(2, w.keepalive) + (TimeBytes(c.issuedAt) + (TimeBytes(c.expiresAt) + rest)))))))
  }

  function SigningMessage(c: DeviceConfig): (m: Bytes) {
    ConfigOnto(c, [])
  }

  /** Every part fits the width it is written with. */
  ghost predicate Encodable(c: DeviceConfig) {
    && c.version < 0x1_0000_0000_0000_0000
    && Short([c.deviceId, c.nodeId, c.transport, c.endpoint, c.wireGuard.peerPublicKey])
    && Short(c.dns) && Short(c.wireGuard.tunnelAddresses) && Short(c.wireGuard.allowedIps)
    && c.wireGuard.mtu < 0x1_0000 && c.wireGuard.keepalive < 0x1_0000
    && c.issuedAt.Representable() && c.expiresAt.Representable()
  }

  function DecodeConfig(bs: Bytes): Parsed<DeviceConfig> {
    var (domain, b1) :- TakeField(bs);
    if domain != CONFIGURATION_DOMAIN then None
    else
      var (version, b2) :- TakeUint(8, b1);
      var (deviceId, b3) :- TakeField(b2);
      var (nodeId, b4) :- TakeField(b3);
      var (transport, b5) :- TakeField(b4);
      var (endpoint, b6) :- TakeField(b5);
      var (dns, b7) :- TakeList(b6);
      var (w, b8) :- DecodeWireGuard(b7);
      var (issuedAt, b9) :- TakeTime(b8);
      var (expiresAt, end) :- TakeTime(b9);
      Some((DeviceConfig(version, deviceId, nodeId, transport, endpoint, dns, w, issuedAt, expiresAt), end))
  }

  function DecodeWireGuard(bs: Bytes): Parsed<WireGuardParameters> {
    var (key, b1) :- TakeField(bs);
    var (addresses, b2) :- TakeList(b1);
    var (allowed, b3) :- TakeList(b2);
    var (mtu, b4) :- TakeUint(2, b3);
    var (keepalive, end) :- TakeUint(2, b4);
    Some((WireGuardParameters(key, addresses, allowed, mtu, keepalive), end))
  }

  lemma ReadWireGuard(w: WireGuardParameters, rest: Bytes)
    requires |w.peerPublicKey| < 0x1_0000_0000 && Short(w.tunnelAddresses) && Short(w.allowedIps)
    requires w.mtu < 0x1_0000 && w.keepalive < 0x1_0000
    ensures DecodeWireGuard(Field(w.peerPublicKey) + (List(w.tunnelAddresses) + (List(w.allowedIps) +
                            (Uint(2, w.mtu) + (Uint(2, w.keepalive) + rest)))))
            == Some((w, rest))
  {
    Widths();
    var b4 := Uint(2, w.keepalive) + rest;
    var b3 := Uint(2, w.mtu) + b4;
    var b2 := List(w.allowedIps) + b3;
    var b1 := List(w.tunnelAddresses) + b2;
    ReadField(w.peerPublicKey, b1);
    ReadList(w.tunnelAddresses, b2);
    ReadList(w.allowedIps, b3);
    ReadUint(2, w.mtu, b4);
    ReadUint(2, w.keepalive, rest);
  }

  /** Decoding a message followed by anything gives the configuration and what followed. */
  lemma ConfigRoundTrip(c: DeviceConfig, rest: Bytes)
    requires Encodable(c)
    ensures DecodeConfig(SigningMessage(c) + rest) == Some((c, rest))
  {
    ConfigOntoSplits(c, rest);
    var w := c.wireGuard;
    var b9 := TimeBytes(c.expiresAt) + rest;
    var b8 := TimeBytes(c.issuedAt) + b9;
    var b7 := Field(w.peerPublicKey) + (List(w.tunnelAddresses) + (List(w.allowedIps) +
              (Uint(2, w.mtu) + (Uint(2, w.keepalive) + b8))));
    var fields := [c.deviceId, c.nodeId, c.transport, c.endpoint, w.peerPublicKey];
    assert forall i :: 0 <= i < 5 ==> fields[i] in fields;
    assert |fields[0]| < 0x1_0000_0000 && |fields[1]| < 0x1_0000_0000 && |fields[2]| < 0x1_0000_0000
        && |fields[3]| < 0x1_0000_0000 && |fields[4]| < 0x1_0000_0000;
    ReadTime(c.expiresAt, rest);
    ReadTime(c.issuedAt, b9);
    ReadWireGuard(w, b8);
    ReadHead(c, b7, w, b8, b9, rest);
  }

  /** The fields in front of the WireGuard parameters, given how the rest reads. */
  lemma ReadHead(c: DeviceConfig, b7: Bytes, w: WireGuardParameters, b8: Bytes, b9: Bytes, rest: Bytes)
    requires c.version < 0x1_0000_0000_0000_0000 && Short(c.dns)
    requires |c.deviceId| < 0x1_0000_0000 && |c.nodeId| < 0x1_0000_0000
    requires |c.transport| < 0x1_0000_0000 && |c.endpoint| < 0x1_0000_0000
    requires DecodeWireGuard(b7) == Some((w, b8))
    requires TakeTime(b8) == Some((c.issuedAt, b9)) && TakeTime(b9) == Some((c.expiresAt, rest))
    ensures DecodeConfig(Field(CONFIGURATION_DOMAIN) + (Uint(8, c.version) + (Field(c.deviceId) + (Field(c.nodeId) +
                         (Field(c.transport) + (Field(c.endpoint) + (List(c.dns) + b7)))))))
            == Some((c.(wireGuard := w), rest))
  {
    Widths();
    var b6 := List(c.dns) + b7;
    var b5 := Field(c.endpoint) + b6;
    var b4 := Field(c.transport) + b5;
    var b3 := Field(c.nodeId) + b4;
    var b2 := Field(c.deviceId) + b3;
    var b1 := Uint(8, c.version) + b2;
    ReadField(CONFIGURATION_DOMAIN, b1);
    ReadUint(8, c.version, b2);
    ReadField(c.deviceId, b3);
    ReadField(c.nodeId, b4);
    ReadField(c.transport, b5);
    ReadField(c.endpoint, b6);
    ReadList(c.dns, b7);
  }

  /** Appending can wait until a part has been put in front. */
  lemma Front(part: Bytes, tail: Bytes, rest: Bytes)
    ensures (part + tail) + rest == part + (tail + rest)
  {
  }

  lemma WireGuardOntoSplits(c: DeviceConfig, rest: Bytes)
    ensures WireGuardOnto(c, rest) == WireGuardOnto(c, []) + rest
  {
    var w := c.wireGuard;
    var t2 := TimeBytes(c.expiresAt) + [];
    var t1 := TimeBytes(c.issuedAt) + t2;
    var k := Uint(2, w.keepalive) + t1;
    var m := Uint(2, w.mtu) + k;
    var a := List(w.allowedIps) + m;
    var u := List(w.tunnelAddresses) + a;
    var p := Field(w.peerPublicKey) + u;
    Front(TimeBytes(c.expiresAt), [], rest);
    assert [] + rest == rest;
    Front(TimeBytes(c.issuedAt), t2, rest);
    Front(Uint(2, w.keepalive), t1, rest);
    Front(Uint(2, w.mtu), k, rest);
    Front(List(w.allowedIps), m, rest);
    Front(List(w.tunnelAddresses), a, rest);
    Front(Field(w.peerPublicKey), u, rest);
    Front(List(c.dns), p, rest);
  }

  lemma ConfigOntoSplits(c: DeviceConfig, rest: Bytes)
    ensures ConfigOnto(c, rest) == SigningMessage(c) + rest
  {
    WireGuardOntoSplits(c, rest);
    var g := WireGuardOnto(c, []);
    var e := Field(c.endpoint) + g;
    var r := Field(c.transport) + e;
    var n := Field(c.nodeId) + r;
    var d := Field(c.deviceId) + n;
    var v := Uint(8, c.version) + d;
    Front(Field(c.endpoint), g, rest);
    Front(Field(c.transport), e, rest);
    Front(Field(c.nodeId), r, rest);
    Front(Field(c.deviceId), n, rest);
    Front(Uint(8, c.version), d, rest);
    Front(Field(CONFIGURATION_DOMAIN), v, rest);
  }

  /** No message is another's beginning, so in particular no two configurations share one. */
  lemma ConfigPrefixFree(a: DeviceConfig, b: DeviceConfig, x: Bytes, y: Bytes)
    requires Encodable(a) && Encodable(b)
    requires SigningMessage(a) + x == SigningMessage(b) + y
    ensures a == b && x == y
  {
    ConfigRoundTrip(a, x);
    ConfigRoundTrip(b, y);
  }

  lemma ConfigInjective(a: DeviceConfig, b: DeviceConfig)
    requires Encodable(a) && Encodable(b) && SigningMessage(a) == SigningMessage(b)
    ensures a == b
  {
    ConfigPrefixFree(a, b, [], []);
  }

  // --- Building the message by appending ------------------------------------

  /** Appends a length and then that many bytes. */
  method AppendField(prefix: Bytes, f: Bytes) returns (m: Bytes)
    ensures m == prefix + Field(f)
  {
    m := prefix + Uint(4, |f|);
    m := m + f;
  }

  /** Appends every field of a list. */
  method AppendFields(prefix: Bytes, fs: seq<Bytes>) returns (m: Bytes)
    ensures m == prefix + Fields(fs)
  {
    m := prefix;
    ghost var done: Bytes := [];
    for i := 0 to |fs|
      invariant m == prefix + done
      invariant done + Fields(fs[i..]) == Fields(fs)
    {
      FieldsStep(fs, i, done);
      m := AppendField(m, fs[i]);
      Front(prefix, done, Field(fs[i]));
      done := done + Field(fs[i]);
    }
    assert Fields(fs[|fs|..]) == [];
  }

  lemma FieldsStep(fs: seq<Bytes>, i: nat, done: Bytes)
    requires i < |fs|
    ensures done + Fields(fs[i..]) == (done + Field(fs[i])) + Fields(fs[i + 1..])
  {
  }

  method AppendList(prefix: Bytes, fs: seq<Bytes>) returns (m: Bytes)
    ensures m == prefix + List(fs)
  {
    m := AppendFields(prefix + Uint(4, |fs|), fs);
  }

  /** The source's order of appends produces the canonical message. */
  method BuildSigningMessage(c: DeviceConfig) returns (m: Bytes)
    ensures m == SigningMessage(c)
  {
    var w := c.wireGuard;
    m := BuildHead(c);
    ghost var head := m;
    m := AppendList(m, c.dns);
    m := m + Field(w.peerPublicKey);
    m := AppendList(m, w.tunnelAddresses);
    m := AppendList(m, w.allowedIps);
    m := m + Uint(2, w.mtu);
    m := m + Uint(2, w.keepalive);
    m := m + TimeBytes(c.issuedAt);
    m := m + TimeBytes(c.expiresAt);
    AppendTail(c, head);
  }

  method BuildHead(c: DeviceConfig) returns (m: Bytes)
    ensures m + WireGuardOnto(c, []) == SigningMessage(c)
  {
    m := [];
    m := m + Field(CONFIGURATION_DOMAIN);
    m := m + Uint(8, c.version);
    m := m + Field(c.deviceId);
    m := m + Field(c.nodeId);
    m := m + Field(c.transport);
    m := m + Field(c.endpoint);
    AppendHead(c);
  }

  lemma AppendHead(c: DeviceConfig)
    ensures [] + Field(CONFIGURATION_DOMAIN) + Uint(8, c.version) + Field(c.deviceId) + Field(c.nodeId)
            + Field(c.transport) + Field(c.endpoint) + WireGuardOnto(c, []) == SigningMessage(c)
  {
    var g := WireGuardOnto(c, []);
    var m1 := [] + Field(CONFIGURATION_DOMAIN);
    assert m1 == Field(CONFIGURATION_DOMAIN);
    var m2 := m1 + Uint(8, c.version);
    var m3 := m2 + Field(c.deviceId);
    var m4 := m3 + Field(c.nodeId);
    var m5 := m4 + Field(c.transport);
    Front(m5, Field(c.endpoint), g);
    Front(m4, Field(c.transport), Field(c.endpoint) + g);
    Front(m3, Field(c.nodeId), Field(c.transport) + (Field(c.endpoint) + g));
    Front(m2, Field(c.deviceId), Field(c.nodeId) + (Field(c.transport) + (Field(c.endpoint) + g)));
    Front(m1, Uint(8, c.version),
          Field(c.deviceId) + (Field(c.nodeId) + (Field(c.transport) + (Field(c.endpoint) + g))));
  }

  lemma AppendTail(c: DeviceConfig, head: Bytes)
    ensures
      var w := c.wireGuard;
      head + List(c.dns) + Field(w.peerPublicKey) + List(w.tunnelAddresses) + List(w.allowedIps)
      + Uint(2, w.mtu) + Uint(2, w.keepalive) + TimeBytes(c.issuedAt) + TimeBytes(c.expiresAt)
      == head + WireGuardOnto(c, [])
  {
    var w := c.wireGuard;
    var t2 := TimeBytes(c.expiresAt) + [];
    assert t2 == TimeBytes(c.expiresAt);
    var t1 := TimeBytes(c.issuedAt) + t2;
    var k := Uint(2, w.keepalive) + t1;
    var m := Uint(2, w.mtu) + k;
    var a := List(w.allowedIps) + m;
    var u := List(w.tunnelAddresses) + a;
    var p := Field(w.peerPublicKey) + u;
    var h1 := head + List(c.dns);
    var h2 := h1 + Field(w.peerPublicKey);
    var h3 := h2 + List(w.tunnelAddresses);
    var h4 := h3 + List(w.allowedIps);
    var h5 := h4 + Uint(2, w.mtu);
    var h6 := h5 + Uint(2, w.keepalive);
    Front(h6, TimeBytes(c.issuedAt), t2);
    Front(h5, Uint(2, w.keepalive), t1);
    Front(h4, Uint(2, w.mtu), k);
    Front(h3, List(w.allowedIps), m);
    Front(h2, List(w.tunnelAddresses), a);
    Front(h1, Field(w.peerPublicKey), u);
    Front(head, List(c.dns), p);
  }

  // --- Enrollment messages --------------------------------------------------

  datatype Proof = Proof(accountId: Bytes, deviceId: Bytes, challenge: Bytes)

  /** The four fields a device signs to enroll. */
  function EnrollmentFields(p: Proof): (fs: seq<Bytes>) {
    [ENROLLMENT_DOMAIN, p.accountId, p.deviceId, p.challenge]
  }

  function EnrollmentMessage(p: Proof): (m: Bytes) {
    Fields(EnrollmentFields(p))
  }

  method BuildEnrollmentMessage(p: Proof) returns (m: Bytes)
    ensures m == EnrollmentMessage(p)
  {
    m := AppendFields([], EnrollmentFields(p));
    assert [] + Fields(EnrollmentFields(p)) == Fields(EnrollmentFields(p));
  }

  function DecodeEnrollment(bs: Bytes): Parsed<Proof> {
    var (fs, rest) :- TakeFields(4, bs);
    if |fs| == 4 && fs[0] == ENROLLMENT_DOMAIN then Some((Proof(fs[1], fs[2], fs[3]), rest)) else None
  }

  lemma EnrollmentRoundTrip(p: Proof, rest: Bytes)
    requires Short([p.accountId, p.deviceId, p.challenge])
    ensures DecodeEnrollment(EnrollmentMessage(p) + rest) == Some((p, rest))
  {
    var fs := EnrollmentFields(p);
    forall f | f in fs
      ensures |f| < 0x1_0000_0000
    {
      assert f in [p.accountId, p.deviceId, p.challenge] || f == ENROLLMENT_DOMAIN;
    }
    ReadFields(fs, rest);
  }

  lemma EnrollmentPrefixFree(a: Proof, b: Proof, x: Bytes, y: Bytes)
    requires Short([a.accountId, a.deviceId, a.challenge]) && Short([b.accountId, b.deviceId, b.challenge])
    requires EnrollmentMessage(a) + x == EnrollmentMessage(b) + y
    ensures a == b && x == y
  {
    EnrollmentRoundTrip(a, x);
    EnrollmentRoundTrip(b, y);
  }

  /** Neither kind of message can be taken for the other, whatever follows it. */
  lemma DomainsSeparate(c: DeviceConfig, p: Proof, x: Bytes, y: Bytes)
    ensures SigningMessage(c) + x != EnrollmentMessage(p) + y
  {
    var fs := EnrollmentFields(p);
    var tail := WireGuardOnto(c, []);
    var head := Uint(8, c.version) + (Field(c.deviceId) + (Field(c.nodeId) +
                (Field(c.transport) + (Field(c.endpoint) + tail))));
    assert SigningMessage(c) == Field(CONFIGURATION_DOMAIN) + head;
    Front(Field(CONFIGURATION_DOMAIN), head, x);
    Front(Field(fs[0]), Fields(fs[1..]), y);
    ReadField(CONFIGURATION_DOMAIN, head + x);
    ReadField(ENROLLMENT_DOMAIN, Fields(fs[1..]) + y);
    assert |CONFIGURATION_DOMAIN| != |ENROLLMENT_DOMAIN|;
  }
}
