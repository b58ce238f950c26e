/**
 * Enrollment that is persisted before it is acknowledged
 * (services/control-api/internal/identity/file.go).
 */
module EnrollmentFiles {
  import opened Results
  import opened Messages
  import opened Configurations
  import opened Enrollments
  import opened Snapshots
  import opened Listings

  datatype Record = Record(digest: Bytes, accountId: Bytes, deviceId: Bytes, expiresAt: int)

  datatype EnrollmentSnapshot = EnrollmentSnapshot(schema: nat, devices: seq<Device>, challenges: seq<Record>)

  datatype FileError = Domain(reason: EnrollmentError) | Malformed | BadSettings | Storage(cause: SnapshotError)

  const idOf := (d: Device) => d.deviceId
  const wholeDevice := (d: Device) => d
  const digestOf := (c: Record) => c.digest
  const pendingOf := (c: Record) => Pending(c.accountId, c.deviceId, c.expiresAt)

  // --- Reading a snapshot ---------------------------------------------------

  predicate AcceptableRecord(c: Record) {
    |c.digest| == 32 && ValidIdentifier(c.accountId) && ValidIdentifier(c.deviceId) && c.expiresAt != 0
  }

  /** Adds devices one by one; an invalid or repeated one refuses the list. */
  function AddDevices(crypto: Crypto, m: map<Bytes, Device>, ds: seq<Device>): Option<map<Bytes, Device>>
    decreases |ds|
  {
    if ds == [] then Some(m)
    else if !ValidDevice(crypto, ds[0]) || ds[0].deviceId in m then None
    else AddDevices(crypto, m[ds[0].deviceId := ds[0]], ds[1..])
  }

  function AddRecords(m: map<Bytes, Pending>, cs: seq<Record>): Option<map<Bytes, Pending>>
    decreases |cs|
  {
    if cs == [] then Some(m)
    else if !AcceptableRecord(cs[0]) || cs[0].digest in m then None
    else AddRecords(m[cs[0].digest := pendingOf(cs[0])], cs[1..])
  }

  function Restored(crypto: Crypto, capacity: nat, snap: EnrollmentSnapshot): (r: Result<Store, FileError>)
  {
    if snap.schema != 1 || |snap.devices| > capacity || |snap.challenges| > capacity then Err(Malformed)
    else
      var devices := AddDevices(crypto, map[], snap.devices);
      var challenges := AddRecords(map[], snap.challenges);
      if devices.None? || challenges.None? then Err(Malformed) else Ok(Store(devices.value, challenges.value))
  }

  /** The entries are new to the map and differ from each other in their keys. */
  ghost predicate NewKeys<V(!new), W>(m: map<Bytes, W>, es: seq<V>, key: V -> Bytes) {
    && (forall i :: 0 <= i < |es| ==> key(es[i]) !in m)
    && (forall i, j :: 0 <= i < j < |es| ==> key(es[i]) != key(es[j]))
  }

  lemma NewKeysRest<V(!new), W>(m: map<Bytes, W>, es: seq<V>, key: V -> Bytes, w: W)
    requires es != []
    ensures NewKeys(m, es, key) <==> key(es[0]) !in m && NewKeys(m[key(es[0]) := w], es[1..], key)
  {
    var rest := es[1..];
    if NewKeys(m, es, key) {
      forall i | 0 <= i < |rest| ensures key(rest[i]) !in m[key(es[0]) := w] { assert rest[i] == es[i + 1]; }
    }
    if key(es[0]) !in m && NewKeys(m[key(es[0]) := w], rest, key) {
      forall i | 0 <= i < |es| ensures key(es[i]) !in m { assert i > 0 ==> es[i] == rest[i - 1]; }
      forall i, j | 0 <= i < j < |es| ensures key(es[i]) != key(es[j]) {
        assert es[j] == rest[j - 1] && (i > 0 ==> es[i] == rest[i - 1]);
      }
    }
  }

  lemma {:induction false} AddDevicesExact(crypto: Crypto, m: map<Bytes, Device>, ds: seq<Device>)
    ensures AddDevices(crypto, m, ds).Some? <==>
      NewKeys(m, ds, idOf) && forall i :: 0 <= i < |ds| ==> ValidDevice(crypto, ds[i])
    decreases |ds|
  {
    if ds == [] {
    } else {
      var rest := ds[1..];
      NewKeysRest(m, ds, idOf, ds[0]);
      AddDevicesExact(crypto, m[ds[0].deviceId := ds[0]], rest);
      assert forall i :: 0 < i < |ds| ==> ds[i] == rest[i - 1];
      assert forall i :: 0 <= i < |rest| ==> rest[i] == ds[i + 1];
    }
  }

  lemma {:induction false} AddRecordsExact(m: map<Bytes, Pending>, cs: seq<Record>)
    ensures AddRecords(m, cs).Some? <==>
      NewKeys(m, cs, digestOf) && forall i :: 0 <= i < |cs| ==> AcceptableRecord(cs[i])
    decreases |cs|
  {
    if cs == [] {
    } else {
      var rest := cs[1..];
      NewKeysRest(m, cs, digestOf, pendingOf(cs[0]));
      AddRecordsExact(m[cs[0].digest := pendingOf(cs[0])], rest);
      assert forall i :: 0 < i < |cs| ==> cs[i] == rest[i - 1];
      assert forall i :: 0 <= i < |rest| ==> rest[i] == cs[i + 1];
    }
  }

  /** Any snapshot: it restores exactly with schema 1, within capacity, and valid entries without repetition. */
  lemma RestoredExact(crypto: Crypto, capacity: nat, snap: EnrollmentSnapshot)
    ensures
      var r := Restored(crypto, capacity, snap);
      && (r.Ok? <==>
            && snap.schema == 1 && |snap.devices| <= capacity && |snap.challenges| <= capacity
            && NewKeys<Device, Device>(map[], snap.devices, idOf)
            && NewKeys<Record, Pending>(map[], snap.challenges, digestOf)
            && (forall i :: 0 <= i < |snap.devices| ==> ValidDevice(crypto, snap.devices[i]))
            && (forall i :: 0 <= i < |snap.challenges| ==> AcceptableRecord(snap.challenges[i])))
      && (r.Err? ==> r.error == Malformed)
  {
    AddDevicesExact(crypto, map[], snap.devices);
    AddRecordsExact(map[], snap.challenges);
  }

  method Restore(crypto: Crypto, capacity: nat, snap: EnrollmentSnapshot) returns (r: Result<Store, FileError>)
    ensures r == Restored(crypto, capacity, snap)
  {
    if snap.schema != 1 || |snap.devices| > capacity || |snap.challenges| > capacity { return Err(Malformed); }
    var devices: map<Bytes, Device> := map[];
    for i := 0 to |snap.devices|
      invariant AddDevices(crypto, devices, snap.devices[i..]) == AddDevices(crypto, map[], snap.devices)
    {
      var d := snap.devices[i];
      assert snap.devices[i..][1..] == snap.devices[i + 1..];
      if !ValidDevice(crypto, d) || d.deviceId in devices { return Err(Malformed); }
      devices := devices[d.deviceId := d];
    }
    var challenges: map<Bytes, Pending> := map[];
    for i := 0 to |snap.challenges|
      invariant AddRecords(challenges, snap.challenges[i..]) == AddRecords(map[], snap.challenges)
    {
      var c := snap.challenges[i];
      assert snap.challenges[i..][1..] == snap.challenges[i + 1..];
      if !AcceptableRecord(c) || c.digest in challenges { return Err(Malformed); }
      challenges := challenges[c.digest := Pending(c.accountId, c.deviceId, c.expiresAt)];
    }
    r := Ok(Store(devices, challenges));
  }

  // --- Writing one, and reading it back -------------------------------------

  /** The snapshot lists the store, each entry once, in some order. */
  ghost predicate Describes(snap: EnrollmentSnapshot, s: Store) {
    && snap.schema == 1
    && Lists(snap.devices, idOf, wholeDevice, s.devices)
    && Lists(snap.challenges, digestOf, pendingOf, s.challenges)
  }

  ghost predicate NeverZero(challenges: map<Bytes, Pending>) {
    forall g :: g in challenges ==> challenges[g].expiresAt != 0
  }

  lemma {:induction false} AddDeviceListing(crypto: Crypto, base: map<Bytes, Device>, ds: seq<Device>,
                                            m: map<Bytes, Device>)
    requires Lists(ds, idOf, wholeDevice, m) && ValidDevices(crypto, m) && base.Keys !! m.Keys
    ensures AddDevices(crypto, base, ds) == Some(base + m)
    decreases |ds|
  {
    if ds == [] {
      assert base + m == base;
    } else {
      var d, id := ds[0], ds[0].deviceId;
      AddDeviceListing(crypto, base[id := d], ds[1..], m - {id});
      assert base[id := d] + (m - {id}) == base + m;
    }
  }

  lemma {:induction false} AddRecordListing(base: map<Bytes, Pending>, cs: seq<Record>, m: map<Bytes, Pending>)
    requires Lists(cs, digestOf, pendingOf, m) && ValidChallenges(m) && base.Keys !! m.Keys
    ensures AddRecords(base, cs) == if NeverZero(m) then Some(base + m) else None
    decreases |cs|
  {
    if cs == [] {
      assert base + m == base;
    } else {
      var c, g := cs[0], cs[0].digest;
      assert ValidPending(g, m[g]);
      AddRecordListing(base[g := pendingOf(c)], cs[1..], m - {g});
      assert base[g := pendingOf(c)] + (m - {g}) == base + m;
      assert NeverZero(m) <==> m[g].expiresAt != 0 && NeverZero(m - {g});
    }
  }

  lemma DevicesReadBack(crypto: Crypto, ds: seq<Device>, m: map<Bytes, Device>)
    requires Lists(ds, idOf, wholeDevice, m) && ValidDevices(crypto, m)
    ensures AddDevices(crypto, map[], ds) == Some(m) && |ds| == |m|
  {
    assert map[] + m == m;
    ListsSize(ds, idOf, wholeDevice, m);
    AddDeviceListing(crypto, map[], ds, m);
  }

  lemma RecordsReadBack(cs: seq<Record>, m: map<Bytes, Pending>)
    requires Lists(cs, digestOf, pendingOf, m) && ValidChallenges(m)
    ensures AddRecords(map[], cs) == (if NeverZero(m) then Some(m) else None) && |cs| == |m|
  {
    assert map[] + m == m;
    ListsSize(cs, digestOf, pendingOf, m);
    AddRecordListing(map[], cs, m);
  }

  /**
   * A written snapshot of a valid store restores to the same store, whatever the
   * order it was written in, exactly when no challenge expires at the zero time
   * and the store is within the capacity it is opened with.
   */
  lemma RestoreExact(crypto: Crypto, capacity: nat, snap: EnrollmentSnapshot, s: Store)
    requires Describes(snap, s) && ValidDevices(crypto, s.devices) && ValidChallenges(s.challenges)
    ensures Restored(crypto, capacity, snap) ==
      if NeverZero(s.challenges) && |s.devices| <= capacity && |s.challenges| <= capacity then Ok(s) else Err(Malformed)
  {
    DevicesReadBack(crypto, snap.devices, s.devices);
    RecordsReadBack(snap.challenges, s.challenges);
  }

  /** Only issuing at exactly one time-to-live before the zero time creates such a challenge. */
  lemma IssuedNeverZero(crypto: Crypto, ttl: int, capacity: nat, s: Store,
                        accountId: Bytes, deviceId: Bytes, now: int, random: Option<Bytes>)
    requires NeverZero(s.challenges)
    ensures
      var (r, next) := Issued(crypto, ttl, capacity, s, accountId, deviceId, now, random);
      NeverZero(next.challenges) <==> !(r.Ok? && now + ttl == 0)
  {
    var (r, next) := Issued(crypto, ttl, capacity, s, accountId, deviceId, now, random);
    if r.Ok? {
      var g := crypto.sha256(random.value);
      assert g in next.challenges && next.challenges[g].expiresAt == now + ttl;
    }
  }

  /** Enrolling never creates one. */
  lemma EnrolledNeverZero(crypto: Crypto, capacity: nat, s: Store, q: Request, now: int)
    requires NeverZero(s.challenges)
    ensures NeverZero(Enrolled(crypto, capacity, s, q, now).1.challenges)
  {
  }

  /** Such a store is written and acknowledged, and can then not be opened again. */
  lemma ZeroExpiryIsNotRestored(crypto: Crypto, value: Bytes, snap: EnrollmentSnapshot)
    requires crypto.Sound()
    requires
      var (r, s) := Issued(crypto, 60, 1, EMPTY, [97], [98], -60, Some(value));
      Describes(snap, s)
    ensures Issued(crypto, 60, 1, EMPTY, [97], [98], -60, Some(value)).0.Ok?
    ensures Restored(crypto, 1, snap) == Err(Malformed)
  {
  }

  // --- Contents of the disk -------------------------------------------------

  ghost predicate Shows(c: Content<EnrollmentSnapshot>, s: Store) {
    c.Whole? && Describes(c.data, s)
  }

  ghost function StoreOf(c: Content<EnrollmentSnapshot>): Store {
    if c.Whole?
    then Store(FromList(c.data.devices, idOf, wholeDevice), FromList(c.data.challenges, digestOf, pendingOf))
    else EMPTY
  }

  /** A content this code can have written. */
  ghost predicate Kept(crypto: Crypto, c: Content<EnrollmentSnapshot>) {
    && (c.Absent? || Shows(c, StoreOf(c)))
    && ValidDevices(crypto, StoreOf(c).devices) && ValidChallenges(StoreOf(c).challenges)
  }

  lemma ShowsIsKept(crypto: Crypto, c: Content<EnrollmentSnapshot>, s: Store)
    requires Shows(c, s) && ValidDevices(crypto, s.devices) && ValidChallenges(s.challenges)
    ensures Kept(crypto, c) && StoreOf(c) == s
  {
    FromListing(c.data.devices, idOf, wholeDevice, s.devices);
    FromListing(c.data.challenges, digestOf, pendingOf, s.challenges);
  }

  /** A restored store is what the snapshot describes, and within capacity. */
  lemma RestoredKept(crypto: Crypto, capacity: nat, c: Content<EnrollmentSnapshot>)
    requires c.Whole? && Kept(crypto, c) && Restored(crypto, capacity, c.data).Ok?
    ensures Restored(crypto, capacity, c.data).value == StoreOf(c)
    ensures WellFormed(crypto, capacity, StoreOf(c))
  {
    RestoreExact(crypto, capacity, c.data, StoreOf(c));
  }

  /** Every snapshot fits the file. */
  ghost predicate Roomy(file: File<EnrollmentSnapshot>) {
    forall s :: file.size(s) <= file.limit
  }

  /** A transaction's answer: what was done, unless it had to be written and could not be. */
  function Concluded<T>(done: Result<T, EnrollmentError>, write: bool, fate: Outcome<SnapshotError>)
    : Result<T, FileError>
  {
    if write && fate.Fail? then Err(Storage(fate.error))
    else if done.Err? then Err(Domain(done.error))
    else Ok(done.value)
  }

  class FileEnrollmentStore {
    const file: File<EnrollmentSnapshot>
    const crypto: Crypto
    var current: EnrollmentStore

    constructor (file: File<EnrollmentSnapshot>, current: EnrollmentStore)
      ensures this.file == file && this.current == current && this.crypto == current.crypto
    {
      this.file := file;
      this.crypto := current.crypto;
      this.current := current;
    }

    /** While the handle is usable, memory is exactly what the visible snapshot describes. */
    ghost predicate Valid()
      reads this, current, file, file.disk
    {
      && crypto.Sound() && current.crypto == crypto
      && file.disk.Sound()
      && WellFormed(crypto, current.capacity, current.Value())
      && (file.Check().Pass? ==> Shows(file.disk.visible, current.Value()))
    }

    /** Writes the candidate and adopts it only once nothing else can survive. */
    method Persist(candidate: EnrollmentStore) returns (r: Outcome<SnapshotError>)
      requires file.disk.Sound() && file.Check().Pass? && ValidDevices(crypto, candidate.devices)
      modifies this, file, file.disk
      ensures file.disk.Sound()
      ensures current == if r.Pass? then candidate else old(current)
      ensures r.Pass? ==>
        && file.Check().Pass? && Only(file.disk.Survivors(), candidate.Value())
        && Shows(file.disk.visible, candidate.Value())
      ensures r == Fail(Uncertain) ==>
        file.Check().Fail? && Extends(old(file.disk.Survivors()), file.disk.Survivors(), candidate.Value())
      ensures r.Fail? && r != Fail(Uncertain) ==>
        && file.Check().Pass? && file.disk.Survivors() == old(file.disk.Survivors())
        && file.disk.visible == old(file.disk.visible)
      ensures Roomy(file) ==> r == file.disk.Fate(old(file.disk.operations))
    {
      var devices := Collect(candidate.devices, (id: Bytes, d: Device) => d, idOf, wholeDevice);
      var challenges := Collect(candidate.challenges,
        (g: Bytes, p: Pending) => Record(g, p.accountId, p.deviceId, p.expiresAt), digestOf, pendingOf);
      r := file.Write(EnrollmentSnapshot(1, devices, challenges));
      if r.Fail? { return; }
      current := candidate;
    }

    /** Persists a well-formed candidate: memory keeps showing what is visible while the handle is usable. */
    method Commit(candidate: EnrollmentStore) returns (r: Outcome<SnapshotError>)
      requires Valid() && file.Check().Pass? && candidate.crypto == crypto
      requires WellFormed(crypto, candidate.capacity, candidate.Value())
      modifies this, file, file.disk
      ensures Valid() && current == if r.Pass? then candidate else old(current)
      ensures Settled(if r.Pass? then Committed else if r == Fail(Uncertain) then Exposed else Unchanged,
                      old(current.Value()), candidate.Value(), current.Value(),
                      old(file.disk.Survivors()), file.disk.Survivors())
      ensures Roomy(file) ==> r == file.disk.Fate(old(file.disk.operations))
    {
      r := Persist(candidate);
    }

    /** Persists a candidate if it is worth persisting, and only then reports what was done on it. */
    method Finish<T>(done: Result<T, EnrollmentError>, candidate: EnrollmentStore, worth: bool)
      returns (r: Result<T, FileError>)
      requires Valid() && file.Check().Pass? && candidate.crypto == crypto && (done.Ok? ==> worth)
      requires WellFormed(crypto, candidate.capacity, candidate.Value())
      modifies this, file, file.disk
      ensures Valid() && (current == old(current) || current == candidate)
      ensures worth && r.Err? && r.error.Domain? ==>
        Settled(Committed, old(current.Value()), candidate.Value(), current.Value(),
                old(file.disk.Survivors()), file.disk.Survivors())
      ensures !(worth && r.Err? && r.error.Domain?) ==>
        Settled(EndingOf(true, r), old(current.Value()), candidate.Value(), current.Value(),
                old(file.disk.Survivors()), file.disk.Survivors())
      ensures r.Ok? ==> done == Ok(r.value)
      ensures r.Err? ==> r.error.Storage? || (done.Err? && r.error == Domain(done.error))
      ensures done.Err? && !worth ==> r == Err(Domain(done.error))
      ensures Roomy(file) ==> r == Concluded(done, worth, file.disk.Fate(old(file.disk.operations)))
    {
      if worth {
        var saved := Commit(candidate);
        if saved.Fail? { return Err(Storage(saved.error)); }
      }
      r := if done.Ok? then Ok(done.value) else Err(Domain(done.error));
    }

    /** Issues on a copy of the store. */
    method DraftIssue(accountId: Bytes, deviceId: Bytes, now: int, random: Option<Bytes>)
      returns (issued: Result<Challenge, EnrollmentError>, candidate: EnrollmentStore)
      requires Valid()
      ensures fresh(candidate) && candidate.crypto == crypto && candidate.capacity == current.capacity
      ensures WellFormed(crypto, candidate.capacity, candidate.Value())
      ensures (issued, candidate.Value()) ==
              Issued(crypto, current.ttl, current.capacity, current.Value(), accountId, deviceId, now, random)
    {
      candidate := new EnrollmentStore(crypto, current.ttl, current.capacity, current.Value());
      IssuedWellFormed(crypto, current.ttl, current.capacity, current.Value(), accountId, deviceId, now, random);
      issued := candidate.Issue(accountId, deviceId, now, random);
    }

    /** Enrolls on a copy of the store; comparing counts tells whether a rejection changed it. */
    method DraftEnroll(q: Request, now: int)
      returns (device: Result<Device, EnrollmentError>, candidate: EnrollmentStore, worth: bool)
      requires Valid()
      ensures fresh(candidate) && candidate.crypto == crypto && candidate.capacity == current.capacity
      ensures WellFormed(crypto, candidate.capacity, candidate.Value())
      ensures (device, candidate.Value()) == Enrolled(crypto, current.capacity, current.Value(), q, now)
      ensures worth == (candidate.Value() != current.Value()) && (device.Ok? ==> worth)
    {
      candidate := new EnrollmentStore(crypto, current.ttl, current.capacity, current.Value());
      EnrolledWellFormed(crypto, current.capacity, current.Value(), q, now);
      device := candidate.Enroll(q, now);
      worth := device.Ok? || |candidate.challenges| != |current.challenges|;
      if device.Err? {
        RejectionChangesCount(crypto, current.capacity, current.Value(), q, now);
      } else {
        EnrolledEffect(crypto, current.capacity, current.Value(), q, now);
        assert device.value.deviceId in candidate.devices && device.value.deviceId !in current.devices;
      }
    }

    /** Issues a challenge; success means it is all that can survive. */
    method Issue(accountId: Bytes, deviceId: Bytes, now: int, random: Option<Bytes>)
      returns (r: Result<Challenge, FileError>)
      requires Valid()
      modifies this, file, file.disk
      ensures Valid() && current.capacity == old(current.capacity) && (current == old(current) || fresh(current))
      ensures IssueEnds(old(file.Check()).Pass?, r,
        Issued(crypto, old(current.ttl), old(current.capacity), old(current.Value()), accountId, deviceId, now, random),
        old(current.Value()), current.Value(), old(file.disk.Survivors()), file.disk.Survivors())
      ensures old(file.Check()).Fail? ==> r == Err(Storage(old(file.Check()).error))
      ensures old(file.Check()).Pass? && Roomy(file) ==>
        var issued := Issued(crypto, old(current.ttl), old(current.capacity), old(current.Value()),
                             accountId, deviceId, now, random).0;
        r == Concluded(issued, issued.Ok?, file.disk.Fate(old(file.disk.operations)))
    {
      if file.Check().Fail? { return Err(Storage(file.Check().error)); }
      var issued, candidate := DraftIssue(accountId, deviceId, now, random);
      r := Finish(issued, candidate, issued.Ok?);
    }

    /**
     * Enrolls a device; success means the spent challenge and the device are all
     * that can survive. A rejection may still commit an expired challenge's end.
     */
    method Enroll(q: Request, now: int) returns (r: Result<Device, FileError>)
      requires Valid()
      modifies this, file, file.disk
      ensures Valid() && current.capacity == old(current.capacity) && (current == old(current) || fresh(current))
      ensures EnrollEnds(old(file.Check()).Pass?, r,
        Enrolled(crypto, old(current.capacity), old(current.Value()), q, now),
        old(current.Value()), current.Value(), old(file.disk.Survivors()), file.disk.Survivors())
      ensures old(file.Check()).Fail? ==> r == Err(Storage(old(file.Check()).error))
      ensures old(file.Check()).Pass? && Roomy(file) ==>
        var (enrolled, after) := Enrolled(crypto, old(current.capacity), old(current.Value()), q, now);
        r == Concluded(enrolled, after != old(current.Value()), file.disk.Fate(old(file.disk.operations)))
    {
      if file.Check().Fail? { return Err(Storage(file.Check().error)); }
      r := EnrollUsable(q, now);
    }

    /** Enrolling through a usable handle. */
    method EnrollUsable(q: Request, now: int) returns (r: Result<Device, FileError>)
      requires Valid() && file.Check().Pass?
      modifies this, file, file.disk
      ensures Valid() && current.capacity == old(current.capacity) && (current == old(current) || fresh(current))
      ensures EnrollEnds(true, r, Enrolled(crypto, old(current.capacity), old(current.Value()), q, now),
        old(current.Value()), current.Value(), old(file.disk.Survivors()), file.disk.Survivors())
      ensures Roomy(file) ==>
        var (enrolled, after) := Enrolled(crypto, old(current.capacity), old(current.Value()), q, now);
        r == Concluded(enrolled, after != old(current.Value()), file.disk.Fate(old(file.disk.operations)))
    {
      var device, candidate, worth := DraftEnroll(q, now);
      r := FinishEnroll(device, candidate, worth);
    }

    /** Finishing an enrollment that was tried on a copy. */
    method FinishEnroll(device: Result<Device, EnrollmentError>, candidate: EnrollmentStore, worth: bool)
      returns (r: Result<Device, FileError>)
      requires Valid() && file.Check().Pass? && candidate.crypto == crypto && (device.Ok? ==> worth)
      requires WellFormed(crypto, candidate.capacity, candidate.Value())
      requires worth == (candidate.Value() != current.Value())
      modifies this, file, file.disk
      ensures Valid() && (current == old(current) || current == candidate)
      ensures EnrollEnds(true, r, (device, candidate.Value()), old(current.Value()), current.Value(),
                         old(file.disk.Survivors()), file.disk.Survivors())
      ensures Roomy(file) ==> r == Concluded(device, worth, file.disk.Fate(old(file.disk.operations)))
    {
      r := Finish(device, candidate, worth);
      EnrollFinished(r, (device, candidate.Value()), old(current.Value()), current.Value(),
                     old(file.disk.Survivors()), file.disk.Survivors());
    }

    method Device(accountId: Bytes, deviceId: Bytes) returns (r: Option<Device>)
      requires Valid()
      ensures r.Some? ==> r.value.accountId == accountId && r.value.deviceId == deviceId
      ensures file.Check().Pass? ==>
        (r.Some? <==> deviceId in current.devices && current.devices[deviceId].accountId == accountId)
      ensures r.Some? ==> deviceId in current.devices && r.value == current.devices[deviceId]
      ensures file.Check().Fail? ==> r.None?
    {
      if file.Check().Fail? { return None; }
      if deviceId !in current.devices || current.devices[deviceId].accountId != accountId { return None; }
      r := Some(current.devices[deviceId]);
    }
  }

  /** Nothing but this store can survive. */
  ghost predicate Only(cs: seq<Content<EnrollmentSnapshot>>, s: Store) {
    |cs| == 1 && Shows(cs[0], s)
  }

  /** One more content can survive, and it describes this store. */
  ghost predicate Extends(was: seq<Content<EnrollmentSnapshot>>, now: seq<Content<EnrollmentSnapshot>>, s: Store) {
    |now| == |was| + 1 && now[..|was|] == was && Shows(now[|was|], s)
  }

  /** A transaction changed nothing, became visible without being adopted, or was adopted. */
  datatype Ending = Unchanged | Exposed | Committed

  /** How a call that was answered this way, on a handle usable or not, ended. */
  function EndingOf<T>(usable: bool, r: Result<T, FileError>): Ending {
    if r.Ok? then Committed
    else if usable && r.error == Storage(Uncertain) then Exposed
    else Unchanged
  }

  /** What such an ending means for memory and for what can survive. */
  ghost predicate Settled(ending: Ending, before: Store, after: Store, memory: Store,
                          was: seq<Content<EnrollmentSnapshot>>, now: seq<Content<EnrollmentSnapshot>>)
  {
    match ending
    case Unchanged => memory == before && now == was
    case Exposed => memory == before && Extends(was, now, after)
    case Committed => memory == after && Only(now, after)
  }

  /** How issuing ends when the step itself would end as `step`: only a step that succeeds can have an effect. */
  ghost predicate IssueEnds(usable: bool, r: Result<Challenge, FileError>,
                            step: (Result<Challenge, EnrollmentError>, Store), before: Store, memory: Store,
                            was: seq<Content<EnrollmentSnapshot>>, now: seq<Content<EnrollmentSnapshot>>)
  {
    && Settled(EndingOf(usable, r), before, step.1, memory, was, now)
    && (EndingOf(usable, r) != Unchanged ==> usable && step.0.Ok?)
    && (r.Ok? ==> step.0 == Ok(r.value))
    && (usable && step.0.Err? ==> r == Err(Domain(step.0.error)))
  }

  ghost function EnrollEnding(usable: bool, r: Result<Device, FileError>, changed: bool): Ending {
    if usable && changed && r.Err? && r.error.Domain? then Committed else EndingOf(usable, r)
  }

  /** The same for enrolling, where a rejection that changed the store is committed too. */
  ghost predicate EnrollEnds(usable: bool, r: Result<Device, FileError>, step: (Result<Device, EnrollmentError>, Store),
                             before: Store, memory: Store,
                             was: seq<Content<EnrollmentSnapshot>>, now: seq<Content<EnrollmentSnapshot>>)
  {
    && Settled(EnrollEnding(usable, r, step.1 != before), before, step.1, memory, was, now)
    && (EnrollEnding(usable, r, step.1 != before) != Unchanged ==> usable)
    && (r.Ok? ==> usable && step.0 == Ok(r.value))
    && (usable && step.0.Err? ==> r == Err(Domain(step.0.error)) || (r.Err? && r.error.Storage?))
  }

  /** What finishing an enrollment promises is how an enrollment ends. */
  lemma EnrollFinished(r: Result<Device, FileError>, step: (Result<Device, EnrollmentError>, Store),
                       before: Store, memory: Store,
                       was: seq<Content<EnrollmentSnapshot>>, now: seq<Content<EnrollmentSnapshot>>)
    requires
      var rejected := step.1 != before && r.Err? && r.error.Domain?;
      Settled(if rejected then Committed else EndingOf(true, r), before, step.1, memory, was, now)
    requires r.Ok? ==> step.0 == Ok(r.value)
    requires r.Err? ==> r.error.Storage? || (step.0.Err? && r.error == Domain(step.0.error))
    ensures EnrollEnds(true, r, step, before, memory, was, now)
  {
  }

  /** Opens the store, creating an empty snapshot when there is none. */
  method OpenFileEnrollmentStore(disk: Disk<EnrollmentSnapshot>, crypto: Crypto, ttl: int, capacity: nat,
                                 size: EnrollmentSnapshot -> nat)
    returns (r: Result<FileEnrollmentStore, FileError>)
    requires crypto.Sound() && disk.Sound() && Kept(crypto, disk.visible)
    modifies disk
    ensures disk.Sound()
    ensures !old(disk.visible).Absent? ==> disk.Survivors() == old(disk.Survivors())
    ensures old(disk.visible).Absent? ==>
      forall c :: c in disk.Survivors() ==> Kept(crypto, c) && StoreOf(c) == EMPTY
    ensures r.Ok? ==>
      && fresh(r.value) && fresh(r.value.file) && fresh(r.value.current) && r.value.file.disk == disk
      && r.value.crypto == crypto && r.value.file.Check().Pass? && r.value.Valid()
      && r.value.current.Value() == StoreOf(disk.visible)
      && r.value.current.ttl == ttl && r.value.current.capacity == capacity
    ensures r == Err(BadSettings) <==> !(0 < ttl <= 600_000_000_000 && 0 < capacity <= 10000)
    ensures
      && old(disk.visible).Whole? && size(old(disk.visible).data) <= 16 * 1024 * 1024
      && disk.outcomes(old(disk.operations)) && r != Err(BadSettings)
      ==> (r.Ok? <==> Restored(crypto, capacity, old(disk.visible).data).Ok?)
    ensures
      && old(disk.visible).Absent? && (forall s :: size(s) <= 16 * 1024 * 1024)
      && disk.outcomes(old(disk.operations)) && r != Err(BadSettings)
      ==> (r.Ok? <==> disk.Fate(old(disk.operations) + 1).Pass?)
  {
    if ttl <= 0 || ttl > 600_000_000_000 || capacity == 0 || capacity > 10000 { return Err(BadSettings); }
    var file := new File(disk, 16 * 1024 * 1024, size);
    var current := new EnrollmentStore(crypto, ttl, capacity, EMPTY);
    var store := new FileEnrollmentStore(file, current);
    var ready := ReadOrCreate(store);
    if ready.Fail? {
      file.Close();
      return Err(ready.error);
    }
    r := Ok(store);
  }

  /** Loads the visible snapshot into an empty store, or writes an empty one. */
  method ReadOrCreate(store: FileEnrollmentStore) returns (r: Outcome<FileError>)
    requires store.crypto.Sound() && store.file.disk.Sound() && store.file.Check().Pass?
    requires Kept(store.crypto, store.file.disk.visible)
    requires store.current.crypto == store.crypto && store.current.Value() == EMPTY
    modifies store, store.current, store.file, store.file.disk
    ensures store.file.disk.Sound() && store.current == old(store.current) && r != Fail(BadSettings)
    ensures !old(store.file.disk.visible).Absent? ==>
      store.file.disk.Survivors() == old(store.file.disk.Survivors())
    ensures old(store.file.disk.visible).Absent? ==>
      forall c :: c in store.file.disk.Survivors() ==> Kept(store.crypto, c) && StoreOf(c) == EMPTY
    ensures r.Pass? ==>
      store.Valid() && store.file.Check().Pass? && store.current.Value() == StoreOf(store.file.disk.visible)
    ensures
      && old(store.file.disk.visible).Whole? && store.file.disk.outcomes(old(store.file.disk.operations))
      && store.file.size(old(store.file.disk.visible).data) <= store.file.limit
      ==> (r.Pass? <==> Restored(store.crypto, store.current.capacity, old(store.file.disk.visible).data).Ok?)
    ensures
      && old(store.file.disk.visible).Absent? && store.file.disk.outcomes(old(store.file.disk.operations))
      && Roomy(store.file)
      ==> (r.Pass? <==> store.file.disk.Fate(old(store.file.disk.operations) + 1).Pass?)
  {
    var disk := store.file.disk;
    if disk.visible.Absent? { disk.AbsentIsAlone(); }
    var read := store.file.Read();
    match read {
      case Err(NotExist) => r := Initialize(store);
      case Err(e) => r := Fail(Storage(e));
      case Ok(data) => r := Load(store, data);
    }
  }

  /** Writes the first, empty snapshot. */
  method Initialize(store: FileEnrollmentStore) returns (r: Outcome<FileError>)
    requires store.crypto.Sound() && store.file.disk.Sound() && store.file.Check().Pass?
    requires store.file.disk.Survivors() == [Absent]
    requires store.current.crypto == store.crypto && store.current.Value() == EMPTY
    modifies store, store.file, store.file.disk
    ensures store.file.disk.Sound() && store.current == old(store.current)
    ensures forall c :: c in store.file.disk.Survivors() ==> Kept(store.crypto, c) && StoreOf(c) == EMPTY
    ensures r.Pass? ==> store.Valid() && store.file.Check().Pass? && StoreOf(store.file.disk.visible) == EMPTY
    ensures r.Fail? ==> r.error.Storage?
    ensures Roomy(store.file) ==> (r.Pass? <==> store.file.disk.Fate(old(store.file.disk.operations)).Pass?)
  {
    var saved := store.Persist(store.current);
    forall c | c in store.file.disk.Survivors() && c.Whole?
      ensures Kept(store.crypto, c) && StoreOf(c) == EMPTY
    {
      ShowsIsKept(store.crypto, c, EMPTY);
    }
    r := if saved.Fail? then Fail(Storage(saved.error)) else Pass;
  }

  /** Adopts a snapshot that restores. */
  method Load(store: FileEnrollmentStore, data: EnrollmentSnapshot) returns (r: Outcome<FileError>)
    requires store.crypto.Sound() && store.file.disk.Sound() && store.file.disk.visible == Whole(data)
    requires Kept(store.crypto, store.file.disk.visible) && store.current.crypto == store.crypto
    modifies store.current
    ensures r.Pass? ==> store.Valid() && store.current.Value() == StoreOf(store.file.disk.visible)
    ensures r.Pass? <==> Restored(store.crypto, store.current.capacity, data).Ok?
    ensures r.Fail? ==> r.error == Malformed
  {
    var restored := Restore(store.crypto, store.current.capacity, data);
    if restored.Err? { return Fail(restored.error); }
    RestoredKept(store.crypto, store.current.capacity, store.file.disk.visible);
    store.current.devices, store.current.challenges := restored.value.devices, restored.value.challenges;
    r := Pass;
  }
}
