/**
 * Device enrollment: one-time challenges bound to an account and a device, and
 * devices registered once (services/control-api/internal/identity: device.go,
 * enrollment.go).
 */
module Enrollments {
  import opened Results
  import opened Messages
  import opened Configurations
  import opened Sets

  datatype EnrollmentError =
    | InvalidEnrollment | InvalidProof | InvalidChallenge | DeviceExists | Capacity | NoEntropy | Collision

  /** Hash, hex encoding and signature check are given functions. */
  datatype Crypto = Crypto(sha256: Bytes -> Bytes, hex: Bytes -> Bytes, verify: (Bytes, Bytes, Bytes) -> bool) {
    ghost predicate Sound() {
      forall b :: |sha256(b)| == 32
    }
  }

  datatype Request = Request(accountId: Bytes, deviceId: Bytes, publicKey: Bytes, challenge: Bytes, signature: Bytes)

  datatype Device = Device(accountId: Bytes, deviceId: Bytes, publicKey: Bytes, keyId: Bytes)

  /** Times are nanoseconds since the zero time. */
  datatype Pending = Pending(accountId: Bytes, deviceId: Bytes, expiresAt: int)

  datatype Challenge = Challenge(value: Bytes, expiresAt: int)

  datatype Store = Store(devices: map<Bytes, Device>, challenges: map<Bytes, Pending>)

  const EMPTY := Store(map[], map[])

  /** Names and lengths are right. */
  predicate WellShaped(q: Request) {
    ValidIdentifier(q.accountId) && ValidIdentifier(q.deviceId) && |q.publicKey| == 32 && 32 <= |q.challenge| <= 256
  }

  /** A request with well-formed parts and a signature over its own account, device and challenge. */
  predicate Proves(crypto: Crypto, q: Request) {
    && ValidIdentifier(q.accountId) && ValidIdentifier(q.deviceId)
    && |q.publicKey| == 32 && 32 <= |q.challenge| <= 256 && |q.signature| == 64
    && crypto.verify(q.publicKey, EnrollmentMessage(Proof(q.accountId, q.deviceId, q.challenge)), q.signature)
  }

  /** Checks a proof of possession; what is accepted identifies the requester by its own key. */
  function VerifyEnrollment(crypto: Crypto, q: Request): (r: Result<Device, EnrollmentError>)
    ensures r.Ok? <==> Proves(crypto, q)
    ensures r == Err(InvalidEnrollment) <==> !WellShaped(q)
    ensures r == Err(InvalidProof) <==> WellShaped(q) && !Proves(crypto, q)
    ensures r.Ok? ==>
      && r.value.accountId == q.accountId && r.value.deviceId == q.deviceId && r.value.publicKey == q.publicKey
      && ValidDevice(crypto, r.value)
  {
    if !ValidIdentifier(q.accountId) || !ValidIdentifier(q.deviceId) then Err(InvalidEnrollment)
    else if |q.publicKey| != 32 then Err(InvalidEnrollment)
    else if |q.challenge| < 32 || |q.challenge| > 256 then Err(InvalidEnrollment)
    else if |q.signature| != 64 ||
            !crypto.verify(q.publicKey, EnrollmentMessage(Proof(q.accountId, q.deviceId, q.challenge)), q.signature)
    then Err(InvalidProof)
    else Ok(Device(q.accountId, q.deviceId, q.publicKey, crypto.hex(crypto.sha256(q.publicKey))))
  }

  /** The challenges still open at a time. */
  function Prune(challenges: map<Bytes, Pending>, now: int): map<Bytes, Pending> {
    map g | g in challenges && challenges[g].expiresAt > now :: challenges[g]
  }

  /** Issuing: `random` is the nonce, or nothing when entropy failed. */
  function Issued(crypto: Crypto, ttl: int, capacity: nat, s: Store,
                  accountId: Bytes, deviceId: Bytes, now: int, random: Option<Bytes>)
    : (r: (Result<Challenge, EnrollmentError>, Store))
  {
    if !ValidIdentifier(accountId) || !ValidIdentifier(deviceId) then (Err(InvalidEnrollment), s)
    else
      var pruned := s.(challenges := Prune(s.challenges, now));
      if |pruned.challenges| >= capacity then (Err(Capacity), pruned)
      else if random.None? then (Err(NoEntropy), pruned)
      else
        var digest := crypto.sha256(random.value);
        if digest in pruned.challenges then (Err(Collision), pruned)
        else
          (Ok(Challenge(random.value, now + ttl)),
           pruned.(challenges := pruned.challenges[digest := Pending(accountId, deviceId, now + ttl)]))
  }

  /** Consuming a challenge: it must be open, bound to this account and device, and is then gone. */
  function Consumed(crypto: Crypto, s: Store, accountId: Bytes, deviceId: Bytes, value: Bytes, now: int)
    : (r: (Outcome<EnrollmentError>, Store))
  {
    if |value| != 32 then (Fail(InvalidChallenge), s)
    else
      var digest := crypto.sha256(value);
      if digest !in s.challenges
         || s.challenges[digest].accountId != accountId || s.challenges[digest].deviceId != deviceId
      then (Fail(InvalidChallenge), s)
      else
        var gone := s.(challenges := s.challenges - {digest});
        if s.challenges[digest].expiresAt <= now then (Fail(InvalidChallenge), gone) else (Pass, gone)
  }

  function Enrolled(crypto: Crypto, capacity: nat, s: Store, q: Request, now: int)
    : (r: (Result<Device, EnrollmentError>, Store))
  {
    match VerifyEnrollment(crypto, q)
    case Err(e) => (Err(e), s)
    case Ok(device) =>
      if device.deviceId in s.devices then (Err(DeviceExists), s)
      else if |s.devices| >= capacity then (Err(Capacity), s)
      else
        var (c, next) := Consumed(crypto, s, device.accountId, device.deviceId, q.challenge, now);
        if c.Fail? then (Err(c.error), next)
        else (Ok(device), next.(devices := next.devices[device.deviceId := device]))
  }

  // --- What each step does, and when ----------------------------------------

  /** The digests of the challenges that have not expired. */
  ghost function OpenAt(s: Store, now: int): set<Bytes> {
    set g | g in s.challenges && s.challenges[g].expiresAt > now
  }

  /** Room, entropy and a fresh digest among the challenges that have not expired. */
  ghost predicate CanIssue(crypto: Crypto, capacity: nat, s: Store, now: int, random: Option<Bytes>) {
    |OpenAt(s, now)| < capacity && random.Some? && crypto.sha256(random.value) !in OpenAt(s, now)
  }

  /**
   * Issuing succeeds exactly with valid names, room, entropy and a fresh digest,
   * counting only challenges that have not expired; each error has its cause.
   * Whatever the answer, exactly those are left, and the new one on success.
   */
  lemma IssuedExact(crypto: Crypto, ttl: int, capacity: nat, s: Store,
                    accountId: Bytes, deviceId: Bytes, now: int, random: Option<Bytes>)
    ensures
      var (r, next) := Issued(crypto, ttl, capacity, s, accountId, deviceId, now, random);
      var open := OpenAt(s, now);
      var named := ValidIdentifier(accountId) && ValidIdentifier(deviceId);
      && (r.Ok? <==> named && CanIssue(crypto, capacity, s, now, random))
      && (r == Err(InvalidEnrollment) <==> !named)
      && (r == Err(Capacity) <==> named && |open| >= capacity)
      && (r == Err(NoEntropy) <==> named && |open| < capacity && random.None?)
      && (r == Err(Collision) <==>
            named && |open| < capacity && random.Some? && crypto.sha256(random.value) in open)
      && (r.Ok? ==> r.value == Challenge(random.value, now + ttl))
      && next.devices == s.devices
      && (if !named then next == s else
            && next.challenges.Keys == open + (if r.Ok? then {crypto.sha256(random.value)} else {})
            && (forall g :: g in open ==> next.challenges[g] == s.challenges[g])
            && (r.Ok? ==> next.challenges[crypto.sha256(random.value)] == Pending(accountId, deviceId, now + ttl)))
  {
    assert Prune(s.challenges, now).Keys == OpenAt(s, now);
    assert |Prune(s.challenges, now)| == |Prune(s.challenges, now).Keys|;
  }

  /** This value is the nonce of a challenge for this account and device, expired or not. */
  ghost predicate Bound(crypto: Crypto, s: Store, accountId: Bytes, deviceId: Bytes, value: Bytes) {
    var g := crypto.sha256(value);
    && |value| == 32 && g in s.challenges
    && s.challenges[g].accountId == accountId && s.challenges[g].deviceId == deviceId
  }

  /** Consuming succeeds exactly on a bound challenge that has not expired, and removes any bound one. */
  lemma ConsumedExact(crypto: Crypto, s: Store, accountId: Bytes, deviceId: Bytes, value: Bytes, now: int)
    ensures
      var (r, next) := Consumed(crypto, s, accountId, deviceId, value, now);
      var g := crypto.sha256(value);
      && r == (if Bound(crypto, s, accountId, deviceId, value) && s.challenges[g].expiresAt > now
               then Pass else Fail(InvalidChallenge))
      && next.devices == s.devices
      && next.challenges.Keys ==
         s.challenges.Keys - (if Bound(crypto, s, accountId, deviceId, value) then {g} else {})
      && (forall h :: h in next.challenges ==> next.challenges[h] == s.challenges[h])
  {
  }

  /**
   * Enrolling succeeds exactly with a proof, a new device, room and a bound
   * challenge that has not expired; the errors come in that order.
   */
  lemma EnrolledExact(crypto: Crypto, capacity: nat, s: Store, q: Request, now: int)
    ensures
      var r := Enrolled(crypto, capacity, s, q, now).0;
      var g := crypto.sha256(q.challenge);
      var bound := Bound(crypto, s, q.accountId, q.deviceId, q.challenge) && s.challenges[g].expiresAt > now;
      var new_ := q.deviceId !in s.devices;
      && (r.Ok? <==> Proves(crypto, q) && new_ && |s.devices| < capacity && bound)
      && (r.Ok? ==> r.value == Device(q.accountId, q.deviceId, q.publicKey, crypto.hex(crypto.sha256(q.publicKey))))
      && (r == Err(InvalidEnrollment) <==> !WellShaped(q))
      && (r == Err(InvalidProof) <==> WellShaped(q) && !Proves(crypto, q))
      && (r == Err(DeviceExists) <==> Proves(crypto, q) && !new_)
      && (r == Err(Capacity) <==> Proves(crypto, q) && new_ && |s.devices| >= capacity)
      && (r == Err(InvalidChallenge) <==> Proves(crypto, q) && new_ && |s.devices| < capacity && !bound)
  {
    ConsumedExact(crypto, s, q.accountId, q.deviceId, q.challenge, now);
  }

  /**
   * What enrolling does: one open, bound challenge is spent and one new device
   * appears, or at most an expired challenge goes.
   */
  lemma EnrolledEffect(crypto: Crypto, capacity: nat, s: Store, q: Request, now: int)
    ensures
      var (r, next) := Enrolled(crypto, capacity, s, q, now);
      var g := crypto.sha256(q.challenge);
      && (r.Ok? ==>
            && g in s.challenges && s.challenges[g].expiresAt > now
            && r.value.accountId == s.challenges[g].accountId && r.value.deviceId == s.challenges[g].deviceId
            && r.value.deviceId !in s.devices && |s.devices| < capacity
            && next == Store(s.devices[r.value.deviceId := r.value], s.challenges - {g}))
      && (r.Err? ==>
            next == s ||
            (g in s.challenges && s.challenges[g].expiresAt <= now && next == s.(challenges := s.challenges - {g})))
  {
  }

  /** Comparing challenge counts detects exactly the rejected enrollments that changed the store. */
  lemma RejectionChangesCount(crypto: Crypto, capacity: nat, s: Store, q: Request, now: int)
    requires Enrolled(crypto, capacity, s, q, now).0.Err?
    ensures
      var next := Enrolled(crypto, capacity, s, q, now).1;
      next != s <==> |next.challenges| != |s.challenges|
  {
  }

  /** An issued challenge enrolls the device it was issued for, exactly until it expires. */
  lemma IssuedIsUsable(crypto: Crypto, ttl: int, capacity: nat, s: Store,
                       issued: int, random: Option<Bytes>, q: Request, now: int)
    requires Issued(crypto, ttl, capacity, s, q.accountId, q.deviceId, issued, random).0.Ok?
    requires q.challenge == random.value && |random.value| == 32
    requires VerifyEnrollment(crypto, q).Ok? && q.deviceId !in s.devices && |s.devices| < capacity
    ensures
      var after := Issued(crypto, ttl, capacity, s, q.accountId, q.deviceId, issued, random).1;
      Enrolled(crypto, capacity, after, q, now).0 ==
        if now < issued + ttl then VerifyEnrollment(crypto, q) else Err(InvalidChallenge)
  {
  }

  /** A spent challenge enrolls nobody, at any time, until it is issued again. */
  lemma SpentIsSpent(crypto: Crypto, capacity: nat, s: Store, q: Request, now: int, again: Request, later: int)
    requires Enrolled(crypto, capacity, s, q, now).0.Ok? && again.challenge == q.challenge
    ensures Enrolled(crypto, capacity, Enrolled(crypto, capacity, s, q, now).1, again, later).0.Err?
  {
    EnrolledEffect(crypto, capacity, s, q, now);
  }

  // --- What every reachable store satisfies ---------------------------------

  predicate ValidDevice(crypto: Crypto, d: Device) {
    && ValidIdentifier(d.accountId) && ValidIdentifier(d.deviceId)
    && |d.publicKey| == 32 && d.keyId == crypto.hex(crypto.sha256(d.publicKey))
  }

  ghost predicate ValidDevices(crypto: Crypto, devices: map<Bytes, Device>) {
    forall id :: id in devices ==> devices[id].deviceId == id && ValidDevice(crypto, devices[id])
  }

  ghost predicate ValidPending(g: Bytes, p: Pending) {
    |g| == 32 && ValidIdentifier(p.accountId) && ValidIdentifier(p.deviceId)
  }

  ghost predicate ValidChallenges(challenges: map<Bytes, Pending>) {
    forall g :: g in challenges ==> ValidPending(g, challenges[g])
  }

  ghost predicate WellFormed(crypto: Crypto, capacity: nat, s: Store) {
    && |s.devices| <= capacity && ValidDevices(crypto, s.devices)
    && |s.challenges| <= capacity && ValidChallenges(s.challenges)
  }

  lemma PruneShrinks(challenges: map<Bytes, Pending>, now: int)
    ensures Prune(challenges, now).Keys <= challenges.Keys
    ensures |Prune(challenges, now)| <= |challenges|
  {
    SubsetSize(Prune(challenges, now).Keys, challenges.Keys);
  }

  lemma IssuedWellFormed(crypto: Crypto, ttl: int, capacity: nat, s: Store,
                         accountId: Bytes, deviceId: Bytes, now: int, random: Option<Bytes>)
    requires crypto.Sound() && WellFormed(crypto, capacity, s)
    ensures WellFormed(crypto, capacity, Issued(crypto, ttl, capacity, s, accountId, deviceId, now, random).1)
  {
    PruneShrinks(s.challenges, now);
  }

  lemma VerifiedIsValid(crypto: Crypto, q: Request)
    ensures VerifyEnrollment(crypto, q).Ok? ==> ValidDevice(crypto, VerifyEnrollment(crypto, q).value)
  {
  }

  lemma SpendWellFormed(crypto: Crypto, capacity: nat, s: Store, g: Bytes)
    requires WellFormed(crypto, capacity, s)
    ensures WellFormed(crypto, capacity, s.(challenges := s.challenges - {g}))
  {
  }

  lemma RegisterWellFormed(crypto: Crypto, capacity: nat, s: Store, d: Device)
    requires WellFormed(crypto, capacity, s) && ValidDevice(crypto, d) && |s.devices| < capacity
    ensures WellFormed(crypto, capacity, s.(devices := s.devices[d.deviceId := d]))
  {
  }

  lemma EnrolledWellFormed(crypto: Crypto, capacity: nat, s: Store, q: Request, now: int)
    requires WellFormed(crypto, capacity, s)
    ensures WellFormed(crypto, capacity, Enrolled(crypto, capacity, s, q, now).1)
  {
    EnrolledEffect(crypto, capacity, s, q, now);
    var (r, next) := Enrolled(crypto, capacity, s, q, now);
    var g := crypto.sha256(q.challenge);
    SpendWellFormed(crypto, capacity, s, g);
    if r.Ok? {
      assert r == VerifyEnrollment(crypto, q);
      VerifiedIsValid(crypto, q);
      RegisterWellFormed(crypto, capacity, s.(challenges := s.challenges - {g}), r.value);
    }
  }

  // --- The store as an object -----------------------------------------------

  class EnrollmentStore {
    const crypto: Crypto
    const ttl: int
    const capacity: nat
    var devices: map<Bytes, Device>
    var challenges: map<Bytes, Pending>

    constructor (crypto: Crypto, ttl: int, capacity: nat, s: Store)
      ensures this.crypto == crypto && this.ttl == ttl && this.capacity == capacity && Value() == s
    {
      this.crypto := crypto;
      this.ttl := ttl;
      this.capacity := capacity;
      devices := s.devices;
      challenges := s.challenges;
    }

    function Value(): Store
      reads this
    {
      Store(devices, challenges)
    }

    /** Deletes every expired challenge, in whatever order they come. */
    method PruneExpired(now: int)
      modifies this`challenges
      ensures challenges == Prune(old(challenges), now)
    {
      var left := challenges.Keys;
      while left != {}
        invariant left <= old(challenges).Keys
        invariant forall g :: g in challenges ==> g in old(challenges) && challenges[g] == old(challenges)[g]
        invariant forall g :: g in left ==> g in challenges
        invariant forall g :: g in old(challenges) && g !in left ==>
          (g in challenges <==> old(challenges)[g].expiresAt > now)
        decreases |left|
      {
        var g :| g in left;
        if challenges[g].expiresAt <= now {
          challenges := challenges - {g};
        }
        left := left - {g};
      }
    }

    method Issue(accountId: Bytes, deviceId: Bytes, now: int, random: Option<Bytes>)
      returns (r: Result<Challenge, EnrollmentError>)
      modifies this`challenges
      ensures (r, Value()) == Issued(crypto, ttl, capacity, old(Value()), accountId, deviceId, now, random)
    {
      if !ValidIdentifier(accountId) || !ValidIdentifier(deviceId) { return Err(InvalidEnrollment); }
      PruneExpired(now);
      if |challenges| >= capacity { return Err(Capacity); }
      if random.None? { return Err(NoEntropy); }
      var digest := crypto.sha256(random.value);
      if digest in challenges { return Err(Collision); }
      challenges := challenges[digest := Pending(accountId, deviceId, now + ttl)];
      r := Ok(Challenge(random.value, now + ttl));
    }

    method Consume(accountId: Bytes, deviceId: Bytes, value: Bytes, now: int) returns (r: Outcome<EnrollmentError>)
      modifies this`challenges
      ensures (r, Value()) == Consumed(crypto, old(Value()), accountId, deviceId, value, now)
    {
      if |value| != 32 { return Fail(InvalidChallenge); }
      var digest := crypto.sha256(value);
      if digest !in challenges || challenges[digest].accountId != accountId || challenges[digest].deviceId != deviceId {
        return Fail(InvalidChallenge);
      }
      var expired := challenges[digest].expiresAt <= now;
      challenges := challenges - {digest};
      r := if expired then Fail(InvalidChallenge) else Pass;
    }

    method Enroll(q: Request, now: int) returns (r: Result<Device, EnrollmentError>)
      modifies this
      ensures (r, Value()) == Enrolled(crypto, capacity, old(Value()), q, now)
    {
      r := VerifyEnrollment(crypto, q);
      if r.Err? { return; }
      var device := r.value;
      if device.deviceId in devices { return Err(DeviceExists); }
      if |devices| >= capacity { return Err(Capacity); }
      var consumed := Consume(device.accountId, device.deviceId, q.challenge, now);
      if consumed.Fail? { return Err(consumed.error); }
      devices := devices[device.deviceId := device];
      r := Ok(device);
    }
  }
}
