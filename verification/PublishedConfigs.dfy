/**
 * The published configurations, one envelope per device, and their durable form
 * (services/control-api/internal/configuration: store.go, file.go).
 */
module PublishedConfigs {
  import opened Results
  import opened Messages
  import opened Configurations
  import opened Snapshots
  import opened Listings

  type Envelopes = map<Bytes, SignedConfig>

  datatype StoreError = Incomplete | Stale | NotFound | Malformed | Storage(cause: SnapshotError)

  predicate Complete(e: SignedConfig) {
    ValidIdentifier(e.config.deviceId) && e.config.version != 0 && ValidIdentifier(e.keyId) && e.signature != []
  }

  /** Publishing replaces a device's envelope only with a higher version. */
  function PublishInto(m: Envelopes, e: SignedConfig): (r: Result<Envelopes, StoreError>)
  {
    if !Complete(e) then Err(Incomplete)
    else if e.config.deviceId in m && e.config.version <= m[e.config.deviceId].config.version then Err(Stale)
    else Ok(m[e.config.deviceId := e])
  }

  /** Every envelope is complete and filed under its own device. */
  ghost predicate Filed(m: Envelopes) {
    forall id :: id in m ==> Complete(m[id]) && m[id].config.deviceId == id
  }

  /** No device is lost and no device's version goes down. */
  ghost predicate NoOlder(a: Envelopes, b: Envelopes) {
    forall id :: id in a ==> id in b && a[id].config.version <= b[id].config.version
  }

  lemma PublishMonotone(m: Envelopes, e: SignedConfig)
    requires Filed(m) && PublishInto(m, e).Ok?
    ensures Filed(PublishInto(m, e).value) && NoOlder(m, PublishInto(m, e).value)
    ensures PublishInto(m, e).value[e.config.deviceId] == e
    ensures forall id :: id in m && id != e.config.deviceId ==> PublishInto(m, e).value[id] == m[id]
  {
  }

  /** Publishing succeeds exactly for a complete envelope newer than the device's, and each error has its cause. */
  lemma PublishExact(m: Envelopes, e: SignedConfig)
    ensures
      var r, id := PublishInto(m, e), e.config.deviceId;
      && (r.Ok? <==> Complete(e) && (id in m ==> e.config.version > m[id].config.version))
      && (r.Ok? ==> r.value.Keys == m.Keys + {id} && r.value[id] == e)
      && (r.Ok? ==> forall other :: other in m && other != id ==> r.value[other] == m[other])
      && (r == Err(Incomplete) <==> !Complete(e))
      && (r == Err(Stale) <==> Complete(e) && id in m && e.config.version <= m[id].config.version)
  {
  }

  // --- Snapshots ------------------------------------------------------------

  const MAXIMUM_ENVELOPES: nat := 10000

  datatype FileState = FileState(schema: nat, envelopes: seq<SignedConfig>)

  /** Publishes a list in order; the first refusal refuses it all. */
  function PublishAll(m: Envelopes, es: seq<SignedConfig>): (r: Option<Envelopes>)
    decreases |es|
  {
    if es == [] then Some(m)
    else
      match PublishInto(m, es[0])
      case Err(_) => None
      case Ok(next) => PublishAll(next, es[1..])
  }

  function Load(state: FileState): (r: Result<Envelopes, StoreError>)
  {
    if state.schema != 1 || |state.envelopes| > MAXIMUM_ENVELOPES then Err(Malformed)
    else
      match PublishAll(map[], state.envelopes)
      case None => Err(Malformed)
      case Some(m) => Ok(m)
  }

  /** Complete envelopes, and for each device only newer ones later in the list than on top of the map. */
  ghost predicate Publishable(m: Envelopes, es: seq<SignedConfig>) {
    && (forall i :: 0 <= i < |es| ==> Complete(es[i]) && Newer(m, es[i]))
    && (forall i, j :: 0 <= i < j < |es| && es[i].config.deviceId == es[j].config.deviceId ==>
          es[i].config.version < es[j].config.version)
  }

  ghost predicate Newer(m: Envelopes, e: SignedConfig) {
    e.config.deviceId in m ==> m[e.config.deviceId].config.version < e.config.version
  }

  /** The envelope a device has after the list: the map's, or one of the list that no other there is newer than. */
  ghost predicate Latest(m: Envelopes, es: seq<SignedConfig>, id: Bytes, e: SignedConfig) {
    && ((id in m && m[id] == e) || (e in es && e.config.deviceId == id))
    && (forall i :: 0 <= i < |es| && es[i].config.deviceId == id ==> es[i].config.version <= e.config.version)
  }

  lemma PublishableRest(m: Envelopes, es: seq<SignedConfig>)
    requires es != [] && PublishInto(m, es[0]).Ok?
    ensures Publishable(m, es) <==> Publishable(PublishInto(m, es[0]).value, es[1..])
  {
    var next, rest := PublishInto(m, es[0]).value, es[1..];
    PublishExact(m, es[0]);
    if Publishable(m, es) {
      forall i | 0 <= i < |rest| ensures Complete(rest[i]) && Newer(next, rest[i]) { assert rest[i] == es[i + 1]; }
    }
    if Publishable(next, rest) {
      forall i | 0 <= i < |es| ensures Complete(es[i]) && Newer(m, es[i]) { assert i > 0 ==> es[i] == rest[i - 1]; }
      forall i, j | 0 <= i < j < |es| && es[i].config.deviceId == es[j].config.deviceId
        ensures es[i].config.version < es[j].config.version
      {
        assert es[j] == rest[j - 1] && (i > 0 ==> es[i] == rest[i - 1]);
        assert Newer(next, rest[j - 1]);
      }
    }
  }

  lemma {:induction false} PublishAllExact(m: Envelopes, es: seq<SignedConfig>)
    ensures PublishAll(m, es).Some? <==> Publishable(m, es)
    ensures PublishAll(m, es).Some? ==> forall id ::
      && (id in PublishAll(m, es).value <==> id in m || exists e :: e in es && e.config.deviceId == id)
      && (id in PublishAll(m, es).value ==> Latest(m, es, id, PublishAll(m, es).value[id]))
    decreases |es|
  {
    if es == [] {
    } else if PublishInto(m, es[0]).Ok? {
      var next, rest := PublishInto(m, es[0]).value, es[1..];
      PublishExact(m, es[0]);
      PublishableRest(m, es);
      PublishAllExact(next, rest);
      assert es == [es[0]] + rest;
      if PublishAll(m, es).Some? {
        forall id | id in PublishAll(m, es).value
          ensures Latest(m, es, id, PublishAll(m, es).value[id])
        {
          LatestMore(m, es, id, PublishAll(m, es).value[id]);
        }
      }
    } else {
      PublishExact(m, es[0]);
      assert !(Complete(es[0]) && Newer(m, es[0]));
    }
  }

  lemma LatestMore(m: Envelopes, es: seq<SignedConfig>, id: Bytes, e: SignedConfig)
    requires es != [] && PublishInto(m, es[0]).Ok? && Publishable(m, es)
    requires Latest(PublishInto(m, es[0]).value, es[1..], id, e)
    ensures Latest(m, es, id, e)
  {
    PublishExact(m, es[0]);
    assert es == [es[0]] + es[1..];
    forall i | 0 <= i < |es| && es[i].config.deviceId == id
      ensures es[i].config.version <= e.config.version
    {
      if i > 0 {
        assert es[i] == es[1..][i - 1];
      } else if e != es[0] {
        var j :| 0 <= j < |es[1..]| && es[1..][j] == e;
        assert es[j + 1] == e;
      }
    }
  }

  /** Any snapshot: it loads exactly when it has schema 1, is not too long and could have been published in order. */
  lemma LoadExact(state: FileState)
    ensures
      var r := Load(state);
      && (r.Ok? <==> state.schema == 1 && |state.envelopes| <= 10000 && Publishable(map[], state.envelopes))
      && (r.Err? ==> r.error == Malformed)
      && (r.Ok? ==> forall id ::
            && (id in r.value <==> exists e :: e in state.envelopes && e.config.deviceId == id)
            && (id in r.value ==> Latest(map[], state.envelopes, id, r.value[id])))
  {
    PublishAllExact(map[], state.envelopes);
  }

  const deviceOf := (e: SignedConfig) => e.config.deviceId
  const itself := (e: SignedConfig) => e

  /** Publishing a listing on top of a disjoint map adds exactly what it lists. */
  lemma {:induction false} PublishListing(base: Envelopes, es: seq<SignedConfig>, m: Envelopes)
    requires Lists(es, deviceOf, itself, m) && Filed(m) && base.Keys !! m.Keys
    ensures PublishAll(base, es) == Some(base + m)
    decreases |es|
  {
    if es == [] {
      assert base + m == base;
    } else {
      var e, id := es[0], es[0].config.deviceId;
      PublishListing(base[id := e], es[1..], m - {id});
      assert base[id := e] + (m - {id}) == base + m;
    }
  }

  /** A stored snapshot reads back as the same map, whatever its order, exactly when it is not too long. */
  lemma LoadListing(es: seq<SignedConfig>, m: Envelopes)
    requires Lists(es, deviceOf, itself, m) && Filed(m)
    ensures Load(FileState(1, es)) == if |m| <= MAXIMUM_ENVELOPES then Ok(m) else Err(Malformed)
  {
    PublishListing(map[], es, m);
    ListsSize(es, deviceOf, itself, m);
    assert map[] + m == m;
  }

  // --- A store that is written and cannot be loaded -------------------------

  /** An envelope for another device, like a given one. */
  function EnvelopeFor(like: SignedConfig, id: Bytes): SignedConfig {
    like.(config := like.config.(deviceId := id))
  }

  /** One envelope for each of the first `n` names. */
  function Many(like: SignedConfig, name: nat -> Bytes, n: nat): Envelopes {
    if n == 0 then map[] else Many(like, name, n - 1)[name(n - 1) := EnvelopeFor(like, name(n - 1))]
  }

  /** Names of devices, all different below a bound. */
  ghost predicate Names(name: nat -> Bytes, bound: nat) {
    && (forall i :: 0 <= i < bound ==> ValidIdentifier(name(i)))
    && (forall i, j :: 0 <= i < j < bound ==> name(i) != name(j))
  }

  lemma {:induction false} ManySize(like: SignedConfig, name: nat -> Bytes, n: nat, bound: nat)
    requires Complete(like) && Names(name, bound) && n <= bound
    ensures |Many(like, name, n)| == n && Filed(Many(like, name, n))
    ensures forall i :: n <= i < bound ==> name(i) !in Many(like, name, n)
    decreases n
  {
    if n == 0 {
    } else {
      ManySize(like, name, n - 1, bound);
      OneMoreFiled(Many(like, name, n - 1), EnvelopeFor(like, name(n - 1)));
    }
  }

  lemma OneMoreFiled(m: Envelopes, e: SignedConfig)
    requires Filed(m) && Complete(e) && e.config.deviceId !in m
    ensures Filed(m[e.config.deviceId := e]) && |m[e.config.deviceId := e]| == |m| + 1
  {
    assert m[e.config.deviceId := e].Keys == m.Keys + {e.config.deviceId};
  }

  /** Three letters, different for each number below 26 * 26 * 26. */
  function Letters(n: nat): Bytes {
    [97 + n / 676 % 26, 97 + n / 26 % 26, 97 + n % 26]
  }

  lemma LettersDistinct(m: nat, n: nat)
    requires m < n < 17576
    ensures Letters(m) != Letters(n)
  {
    if Letters(m) == Letters(n) {
      assert Letters(m)[0] == Letters(n)[0] && Letters(m)[1] == Letters(n)[1] && Letters(m)[2] == Letters(n)[2];
      Digits(m);
      Digits(n);
    }
  }

  lemma Digits(n: nat)
    requires n < 17576
    ensures n == n / 676 % 26 * 676 + n / 26 % 26 * 26 + n % 26
  {
    assert n / 676 == n / 26 / 26;
  }

  lemma LettersAreNames(bound: nat)
    requires bound <= 17576
    ensures Names(Letters, bound)
  {
    forall i, j | 0 <= i < j < bound
      ensures Letters(i) != Letters(j)
    {
      LettersDistinct(i, j);
    }
  }

  /**
   * With 10000 devices published, one more is accepted, and then no listing of
   * the store can be loaded.
   */
  lemma OneTooMany(like: SignedConfig, es: seq<SignedConfig>)
    requires Complete(like)
    ensures
      var full, e := Many(like, Letters, MAXIMUM_ENVELOPES), EnvelopeFor(like, Letters(MAXIMUM_ENVELOPES));
      && |full| == MAXIMUM_ENVELOPES && Filed(full)
      && PublishInto(full, e).Ok?
      && (Lists(es, deviceOf, itself, PublishInto(full, e).value) ==> Load(FileState(1, es)) == Err(Malformed))
  {
    LettersAreNames(MAXIMUM_ENVELOPES + 1);
    OneMoreThanFits(like, Letters, es);
  }

  lemma OneMoreThanFits(like: SignedConfig, name: nat -> Bytes, es: seq<SignedConfig>)
    requires Complete(like) && Names(name, MAXIMUM_ENVELOPES + 1)
    ensures
      var full, e := Many(like, name, MAXIMUM_ENVELOPES), EnvelopeFor(like, name(MAXIMUM_ENVELOPES));
      && |full| == MAXIMUM_ENVELOPES && Filed(full)
      && PublishInto(full, e).Ok?
      && (Lists(es, deviceOf, itself, PublishInto(full, e).value) ==> Load(FileState(1, es)) == Err(Malformed))
  {
    var full, e := Many(like, name, MAXIMUM_ENVELOPES), EnvelopeFor(like, name(MAXIMUM_ENVELOPES));
    ManySize(like, name, MAXIMUM_ENVELOPES, MAXIMUM_ENVELOPES + 1);
    OneMoreFiled(full, e);
    var next := PublishInto(full, e).value;
    if Lists(es, deviceOf, itself, next) { LoadListing(es, next); }
  }

  // --- The store ------------------------------------------------------------

  /** A write of a usable handle that became visible without being acknowledged. */
  predicate Exposed(usable: bool, r: Outcome<StoreError>) {
    usable && r == Fail(Storage(Uncertain))
  }

  function StorageOutcome(o: Outcome<SnapshotError>): Outcome<StoreError> {
    if o.Pass? then Pass else Fail(Storage(o.error))
  }

  /** One more content can survive, and it lists this map. */
  ghost predicate Extends(was: seq<Content<FileState>>, now: seq<Content<FileState>>, m: Envelopes) {
    |now| == |was| + 1 && now[..|was|] == was && Shows(now[|was|], m)
  }

  class FileStore {
    const file: File<FileState>
    var data: Envelopes

    constructor (file: File<FileState>, data: Envelopes)
      ensures this.file == file && this.data == data
    {
      this.file := file;
      this.data := data;
    }

    /** While the handle is usable, memory is what the visible snapshot lists. */
    ghost predicate Valid()
      reads this, file, file.disk
    {
      && file.disk.Sound()
      && Filed(data)
      && (file.Check().Pass? ==> Shows(file.disk.visible, data))
    }

    /** Writes a listing of the candidate, in whatever order it is iterated. */
    method Save(candidate: Envelopes) returns (r: Outcome<SnapshotError>)
      requires file.disk.Sound() && file.Check().Pass? && Filed(candidate)
      modifies file`failed, file.disk
      ensures file.disk.Sound()
      ensures r.Pass? ==>
        && file.Check().Pass?
        && |file.disk.Survivors()| == 1 && Shows(file.disk.Survivors()[0], candidate)
      ensures r == Fail(Uncertain) ==>
        file.Check().Fail? && Extends(old(file.disk.Survivors()), file.disk.Survivors(), candidate)
      ensures r.Fail? && r != Fail(Uncertain) ==>
        file.Check().Pass? && file.disk.Survivors() == old(file.disk.Survivors())
      ensures (forall s :: file.size(s) <= file.limit) ==> r == file.disk.Fate(old(file.disk.operations))
      ensures r.Pass? || r == Fail(Uncertain) ==> file.disk.operations == old(file.disk.operations) + 4
    {
      var es := Collect(candidate, (id: Bytes, envelope: SignedConfig) => envelope, deviceOf, itself);
      r := file.Write(FileState(1, es));
    }

    /** Publishes a newer envelope; success means that nothing else can survive. */
    method Publish(e: SignedConfig) returns (r: Outcome<StoreError>)
      requires Valid()
      modifies this, file, file.disk
      ensures Valid()
      ensures r.Pass? ==>
        && old(file.Check()).Pass? && file.Check().Pass? && PublishInto(old(data), e) == Ok(data)
        && |file.disk.Survivors()| == 1 && Shows(file.disk.Survivors()[0], data)
      ensures r.Fail? ==> data == old(data)
      ensures r.Fail? && !Exposed(old(file.Check()).Pass?, r) ==> file.disk.Survivors() == old(file.disk.Survivors())
      ensures Exposed(old(file.Check()).Pass?, r) ==>
        && PublishInto(data, e).Ok?
        && Extends(old(file.disk.Survivors()), file.disk.Survivors(), PublishInto(data, e).value)
      ensures old(file.Check()).Fail? ==>
        r == Fail(Storage(old(file.Check()).error)) && unchanged(this) && unchanged(file) && unchanged(file.disk)
      ensures old(file.Check()).Pass? && PublishInto(old(data), e).Err? ==>
        r == Fail(PublishInto(old(data), e).error) && unchanged(file) && unchanged(file.disk)
      ensures old(file.Check()).Pass? && PublishInto(old(data), e).Ok? && (forall s :: file.size(s) <= file.limit) ==>
        r == StorageOutcome(file.disk.Fate(old(file.disk.operations)))
      ensures r.Pass? || Exposed(old(file.Check()).Pass?, r) ==> file.disk.operations == old(file.disk.operations) + 4
    {
      if file.Check().Fail? { return Fail(Storage(file.Check().error)); }
      var candidate := PublishInto(data, e);
      if candidate.Err? { return Fail(candidate.error); }
      PublishMonotone(data, e);
      var saved := Save(candidate.value);
      if saved.Fail? { return Fail(Storage(saved.error)); }
      data := candidate.value;
      r := Pass;
    }

    method Latest(deviceId: Bytes) returns (r: Result<SignedConfig, StoreError>)
      requires Valid()
      ensures file.Check().Pass? ==> r == if deviceId in data then Ok(data[deviceId]) else Err(NotFound)
      ensures file.Check().Fail? ==> r == Err(Storage(file.Check().error))
      ensures r.Ok? ==> r.value.config.deviceId == deviceId
    {
      if file.Check().Fail? { return Err(Storage(file.Check().error)); }
      if deviceId !in data { return Err(NotFound); }
      r := Ok(data[deviceId]);
    }
  }

  ghost predicate Shows(c: Content<FileState>, m: Envelopes) {
    c.Whole? && c.data.schema == 1 && Lists(c.data.envelopes, deviceOf, itself, m)
  }

  /** Publishes a snapshot's envelopes into an empty store, one by one. */
  method LoadAll(state: FileState) returns (r: Result<Envelopes, StoreError>)
    ensures r == Load(state)
  {
    if state.schema != 1 || |state.envelopes| > MAXIMUM_ENVELOPES { return Err(Malformed); }
    var m: Envelopes := map[];
    for i := 0 to |state.envelopes|
      invariant PublishAll(m, state.envelopes[i..]) == PublishAll(map[], state.envelopes)
    {
      assert state.envelopes[i..][1..] == state.envelopes[i + 1..];
      var next := PublishInto(m, state.envelopes[i]);
      if next.Err? { return Err(Malformed); }
      m := next.value;
    }
    r := Ok(m);
  }

  const LIMIT: nat := 16 * 1024 * 1024

  /** Opens the store, creating an empty snapshot when there is none. */
  method OpenFileStore(disk: Disk<FileState>, size: FileState -> nat) returns (r: Result<FileStore, StoreError>)
    requires disk.Sound() && Kept(disk.visible)
    modifies disk
    ensures disk.Sound()
    ensures r.Ok? ==>
      && fresh(r.value) && fresh(r.value.file) && r.value.file.disk == disk
      && r.value.file.size == size && r.value.file.limit == LIMIT
      && r.value.file.Check().Pass? && r.value.Valid() && r.value.data == MapOf(disk.visible)
    ensures MapOf(disk.visible) == MapOf(old(disk.visible))
    ensures !old(disk.visible).Absent? ==> disk.Survivors() == old(disk.Survivors())
    ensures old(disk.visible).Absent? ==> forall c :: c in disk.Survivors() ==> Kept(c) && MapOf(c) == map[]
    ensures disk.outcomes(old(disk.operations)) && (forall s :: size(s) <= LIMIT) ==>
      && (old(disk.visible).Whole? && |MapOf(disk.visible)| <= MAXIMUM_ENVELOPES ==>
            r.Ok? && disk.operations == old(disk.operations) + 1)
      && (old(disk.visible).Whole? && |MapOf(disk.visible)| > MAXIMUM_ENVELOPES ==> r == Err(Malformed))
      && (old(disk.visible).Absent? && disk.Fate(old(disk.operations) + 1).Pass? ==>
            r.Ok? && disk.operations == old(disk.operations) + 5 && |disk.Survivors()| == 1)
  {
    var file := new File(disk, LIMIT, size);
    var data := ReadOrCreate(file);
    if data.Err? {
      file.Close();
      return Err(data.error);
    }
    var store := new FileStore(file, data.value);
    r := Ok(store);
  }

  /** Loads the visible snapshot, or writes an empty one. */
  method ReadOrCreate(file: File<FileState>) returns (r: Result<Envelopes, StoreError>)
    requires file.Check().Pass? && file.disk.Sound() && Kept(file.disk.visible)
    modifies file`failed, file.disk
    ensures file.disk.Sound()
    ensures r.Ok? ==> file.Check().Pass? && Shows(file.disk.visible, r.value) && Filed(r.value)
                      && r.value == MapOf(file.disk.visible)
    ensures MapOf(file.disk.visible) == MapOf(old(file.disk.visible))
    ensures !old(file.disk.visible).Absent? ==> file.disk.Survivors() == old(file.disk.Survivors())
    ensures old(file.disk.visible).Absent? ==> forall c :: c in file.disk.Survivors() ==> Kept(c) && MapOf(c) == map[]
    ensures file.disk.outcomes(old(file.disk.operations)) && (forall s :: file.size(s) <= file.limit) ==>
      && (old(file.disk.visible).Whole? && |MapOf(file.disk.visible)| <= MAXIMUM_ENVELOPES ==>
            r.Ok? && file.disk.operations == old(file.disk.operations) + 1)
      && (old(file.disk.visible).Whole? && |MapOf(file.disk.visible)| > MAXIMUM_ENVELOPES ==> r == Err(Malformed))
      && (old(file.disk.visible).Absent? && file.disk.Fate(old(file.disk.operations) + 1).Pass? ==>
            r.Ok? && file.disk.operations == old(file.disk.operations) + 5 && |file.disk.Survivors()| == 1)
  {
    if file.disk.visible.Absent? { file.disk.AbsentIsAlone(); }
    var read := file.Read();
    match read {
      case Err(NotExist) => r := Initialize(file);
      case Err(e) => r := Err(Storage(e));
      case Ok(state) =>
        LoadListing(state.envelopes, MapOf(file.disk.visible));
        r := LoadAll(state);
    }
  }

  /** Writes the first, empty snapshot. */
  method Initialize(file: File<FileState>) returns (r: Result<Envelopes, StoreError>)
    requires file.Check().Pass? && file.disk.Sound() && file.disk.Survivors() == [Absent]
    modifies file`failed, file.disk
    ensures file.disk.Sound()
    ensures r.Ok? ==>
      && r.value == map[] && file.Check().Pass?
      && Shows(file.disk.visible, map[]) && |file.disk.Survivors()| == 1
    ensures forall c :: c in file.disk.Survivors() ==> Kept(c) && MapOf(c) == map[]
    ensures MapOf(file.disk.visible) == map[]
    ensures (forall s :: file.size(s) <= file.limit) && file.disk.Fate(old(file.disk.operations)).Pass? ==>
      r.Ok? && file.disk.operations == old(file.disk.operations) + 4
  {
    var none: Envelopes := map[];
    var es := Collect(none, (id: Bytes, envelope: SignedConfig) => envelope, deviceOf, itself);
    FromListing(es, deviceOf, itself, none);
    var saved := file.Write(FileState(1, es));
    r := if saved.Fail? then Err(Storage(saved.error)) else Ok(none);
  }

  /** What a content says was published. */
  ghost function MapOf(c: Content<FileState>): Envelopes {
    if c.Whole? then FromList(c.data.envelopes, deviceOf, itself) else map[]
  }

  /** A content this code can have written. */
  ghost predicate Kept(c: Content<FileState>) {
    Filed(MapOf(c)) && (c.Absent? || Shows(c, MapOf(c)))
  }

  lemma ShowsIsKept(c: Content<FileState>, m: Envelopes)
    requires Shows(c, m) && Filed(m)
    ensures Kept(c) && MapOf(c) == m
  {
    FromListing(c.data.envelopes, deviceOf, itself, m);
  }
}
