/**
 * The client's durable record of its highest accepted configuration version
 * (services/control-api/internal/configuration/client.go).
 */
module ClientStates {
  import opened Results
  import opened Messages
  import opened Configurations
  import opened Snapshots

  datatype ClientSnapshot = ClientSnapshot(schema: nat, deviceId: Bytes, version: nat)

  datatype ClientError = BadDeviceId | Storage(cause: SnapshotError) | OtherDevice | Refused(reason: ConfigError)

  const LIMIT: nat := 4096

  class ClientState {
    const file: File<ClientSnapshot>
    const deviceId: Bytes
    var version: nat

    constructor (file: File<ClientSnapshot>, deviceId: Bytes, version: nat)
      ensures this.file == file && this.deviceId == deviceId && this.version == version
    {
      this.file := file;
      this.deviceId := deviceId;
      this.version := version;
    }

    /** While the handle is usable, memory agrees with what a reader of the file sees. */
    ghost predicate Valid()
      reads this, file, file.disk
    {
      && file.disk.Sound()
      && (file.Check().Pass? ==> file.disk.visible == Whole(ClientSnapshot(1, deviceId, version)))
    }

    /** Accepts a newer configuration and returns it only once its version is durable. */
    method Accept(e: SignedConfig, now: Time, verify: Verifier, net: NetRules)
      returns (r: Result<DeviceConfig, ClientError>)
      requires Valid()
      modifies this, file, file.disk
      ensures Valid()
      ensures old(file.Check()).Fail? ==>
        r == Err(Storage(old(file.Check()).error)) && unchanged(this) && unchanged(file) && unchanged(file.disk)
      ensures old(file.Check()).Pass? && OpenForDevice(e, deviceId, old(version), now, verify, net).Err? ==>
        r == Err(Refused(OpenForDevice(e, deviceId, old(version), now, verify, net).error))
      ensures
        && old(file.Check()).Pass? && OpenForDevice(e, deviceId, old(version), now, verify, net).Ok?
        && file.size(ClientSnapshot(1, deviceId, e.config.version)) <= file.limit
        ==>
        var fate := file.disk.Fate(old(file.disk.operations));
        r == if fate.Pass? then Ok(e.config) else Err(Storage(fate.error))
      ensures r.Ok? ==>
        && OpenForDevice(e, deviceId, old(version), now, verify, net) == Ok(r.value)
        && old(version) < r.value.version == version
        && file.disk.Survivors() == [Whole(ClientSnapshot(1, deviceId, version))]
      ensures r.Err? ==> version == old(version)
      ensures r.Err? && !(old(file.Check()).Pass? && r == Err(Storage(Uncertain))) ==>
        file.disk.Survivors() == old(file.disk.Survivors())
      ensures old(file.Check()).Pass? && r == Err(Storage(Uncertain)) ==>
        && old(version) < e.config.version
        && file.disk.Survivors() == old(file.disk.Survivors()) + [Whole(ClientSnapshot(1, deviceId, e.config.version))]
    {
      if file.Check().Fail? { return Err(Storage(file.Check().error)); }
      var result := OpenForDevice(e, deviceId, version, now, verify, net);
      if result.Err? { return Err(Refused(result.error)); }
      var saved := file.Write(ClientSnapshot(1, deviceId, result.value.version));
      if saved.Fail? { return Err(Storage(saved.error)); }
      version := result.value.version;
      r := Ok(result.value);
    }
  }

  /** Opens the record, creating it at version zero when there is none. */
  method OpenClientState(disk: Disk<ClientSnapshot>, deviceId: Bytes, size: ClientSnapshot -> nat)
    returns (r: Result<ClientState, ClientError>)
    requires disk.Sound()
    modifies disk
    ensures disk.Sound()
    ensures r.Ok? ==>
      && fresh(r.value) && fresh(r.value.file) && r.value.file.disk == disk
      && r.value.file.Check().Pass? && r.value.Valid() && r.value.deviceId == deviceId
    ensures disk.Survivors() == old(disk.Survivors()) || old(disk.visible).Absent?
    ensures r == Err(BadDeviceId) <==> !ValidIdentifier(deviceId)
    ensures
      && ValidIdentifier(deviceId) && disk.outcomes(old(disk.operations))
      && old(disk.visible).Whole? && size(old(disk.visible).data) <= LIMIT
      ==>
      var snapshot := old(disk.visible).data;
      && (r == Err(OtherDevice) <==> snapshot.schema != 1 || snapshot.deviceId != deviceId)
      && (r.Ok? <==> snapshot.schema == 1 && snapshot.deviceId == deviceId)
    ensures
      && ValidIdentifier(deviceId) && disk.outcomes(old(disk.operations))
      && old(disk.visible).Absent? && size(ClientSnapshot(1, deviceId, 0)) <= LIMIT
      ==> (r.Ok? <==> disk.Fate(old(disk.operations) + 1).Pass?)
    ensures old(disk.visible).Absent? ==> forall c :: c in disk.Survivors() ==>
      c.Absent? || c == Whole(ClientSnapshot(1, deviceId, 0))
  {
    if disk.visible.Absent? { disk.AbsentIsAlone(); }
    if !ValidIdentifier(deviceId) { return Err(BadDeviceId); }
    var file := new File(disk, LIMIT, size);
    var read := file.Read();
    var version := 0;
    if read == Err(NotExist) {
      var saved := file.Write(ClientSnapshot(1, deviceId, 0));
      if saved.Fail? {
        file.Close();
        return Err(Storage(saved.error));
      }
    } else if read.Err? {
      file.Close();
      return Err(Storage(read.error));
    } else {
      if read.value.schema != 1 || read.value.deviceId != deviceId {
        file.Close();
        return Err(OtherDevice);
      }
      version := read.value.version;
    }
    var state := new ClientState(file, deviceId, version);
    r := Ok(state);
  }

  // --- Every run ------------------------------------------------------------

  datatype Step =
    | OpenStep(deviceId: Bytes)
    | AcceptStep(envelope: SignedConfig, now: Time)
    | CloseStep
    | CrashStep(choice: nat)

  ghost predicate Increasing(vs: seq<nat>) {
    forall i, j :: 0 <= i < j < |vs| ==> vs[i] < vs[j]
  }

  /** The content records a version at least as high as every one returned. */
  ghost predicate Covers(c: Content<ClientSnapshot>, returned: seq<nat>) {
    returned != [] ==> c.Whole? && returned[|returned| - 1] <= c.data.version
  }

  /** Whatever survives a crash covers what was returned. */
  ghost predicate CoveredBy(cs: seq<Content<ClientSnapshot>>, returned: seq<nat>) {
    forall c :: c in cs ==> Covers(c, returned)
  }

  lemma CoversAll(c: Content<ClientSnapshot>, returned: seq<nat>)
    requires Covers(c, returned) && Increasing(returned)
    ensures forall i :: 0 <= i < |returned| ==> c.Whole? && returned[i] <= c.data.version
  {
  }

  lemma IncreasingGrows(returned: seq<nat>, v: nat)
    requires Increasing(returned) && (returned != [] ==> returned[|returned| - 1] < v)
    ensures Increasing(returned + [v])
  {
  }

  /** One acceptance within a run. */
  method AcceptOnce(handle: ClientState, e: SignedConfig, now: Time, verify: Verifier, net: NetRules,
                    returned: seq<nat>)
    returns (more: seq<nat>)
    requires handle.Valid() && Increasing(returned) && CoveredBy(handle.file.disk.Survivors(), returned)
    modifies handle, handle.file, handle.file.disk
    ensures handle.Valid() && Increasing(more) && CoveredBy(handle.file.disk.Survivors(), more)
  {
    ghost var was := handle.file.disk.Survivors();
    assert handle.file.disk.visible == was[|was| - 1] && was[|was| - 1] in was;
    var accepted := handle.Accept(e, now, verify, net);
    if accepted.Err? { return returned; }
    IncreasingGrows(returned, accepted.value.version);
    more := returned + [accepted.value.version];
  }

  /** One step within a run. */
  method TakeStep(disk: Disk<ClientSnapshot>, handle: ClientState?, step: Step, verify: Verifier, net: NetRules,
                  size: ClientSnapshot -> nat, returned: seq<nat>)
    returns (next: ClientState?, more: seq<nat>)
    requires disk.Sound() && Increasing(returned) && CoveredBy(disk.Survivors(), returned)
    requires handle != null ==> handle.file.disk == disk && handle.Valid()
    modifies disk, if handle != null then {handle, handle.file} else {}
    ensures disk.Sound() && Increasing(more) && CoveredBy(disk.Survivors(), more)
    ensures next != null ==> next.file.disk == disk && next.Valid()
    ensures next == null || next == handle || (fresh(next) && fresh(next.file))
  {
    next, more := handle, returned;
    match step {
      case OpenStep(deviceId) =>
        if handle == null || !handle.file.open {
          assert disk.visible in disk.Survivors();
          var result := OpenClientState(disk, deviceId, size);
          next := if result.Ok? then result.value else null;
        }
      case AcceptStep(envelope, now) =>
        if handle != null {
          more := AcceptOnce(handle, envelope, now, verify, net, returned);
        }
      case CloseStep =>
        if handle != null {
          handle.file.Close();
        }
      case CrashStep(choice) =>
        disk.Crash(choice % (|disk.unsynced| + 1));
        next := null;
    }
  }

  /**
   * Any sequence of opens, accepts, closes and crashes, with any writes
   * failing: the versions returned strictly increase, and each is covered by
   * what readers see and by whatever a crash would leave.
   */
  method Run(disk: Disk<ClientSnapshot>, steps: seq<Step>, verify: Verifier, net: NetRules, size: ClientSnapshot -> nat)
    returns (returned: seq<nat>)
    requires disk.Sound()
    modifies disk
    ensures Increasing(returned) && disk.visible in disk.Survivors()
    ensures forall c, i :: c in disk.Survivors() && 0 <= i < |returned| ==> c.Whole? && returned[i] <= c.data.version
  {
    returned := [];
    var handle: ClientState? := null;
    for k := 0 to |steps|
      invariant disk.Sound() && Increasing(returned) && CoveredBy(disk.Survivors(), returned)
      invariant handle != null ==>
        fresh(handle) && fresh(handle.file) && handle.file.disk == disk && handle.Valid()
    {
      handle, returned := TakeStep(disk, handle, steps[k], verify, net, size, returned);
    }
    forall c | c in disk.Survivors()
      ensures forall i :: 0 <= i < |returned| ==> c.Whole? && returned[i] <= c.data.version
    {
      CoversAll(c, returned);
    }
  }
}
