/**
 * Atomically replaced local state and what a crash can do to it
 * (services/control-api/internal/snapshot/file.go). Contents are decoded
 * values; encoding to JSON and back is taken to be the identity.
 */
module Snapshots {
  import opened Results

  /** A file is missing, whole, or torn because its data never reached the disk. */
  datatype Content<T> = Absent | Whole(data: T) | Torn

  datatype SnapshotError = Closed | Uncertain | TooLarge | NotExist | IoFailed

  /**
   * `visible` is what a reader sees now. A crash falls back to `durable` or to
   * any content renamed since the last directory sync, as far as its data was
   * synced. Which operations succeed is decided by `outcomes`, one after another.
   */
  class Disk<T> {
    const outcomes: nat -> bool
    var operations: nat
    var visible: Content<T>
    var unsynced: seq<Content<T>>
    var durable: Content<T>
    var temporary: Content<T>

    constructor (outcomes: nat -> bool)
      ensures this.outcomes == outcomes && operations == 0
      ensures visible == durable == Absent && unsynced == [] && Sound()
    {
      this.outcomes, operations := outcomes, 0;
      visible, unsynced, durable, temporary := Absent, [], Absent, Absent;
    }

    /** What a crash can leave, oldest first. */
    ghost function Survivors(): (cs: seq<Content<T>>)
      reads this
      ensures cs != []
    {
      [durable] + unsynced
    }

    /** Renamed contents are whole, nothing is torn, and readers see the newest. */
    ghost predicate Sound()
      reads this
    {
      && (forall c :: c in unsynced ==> c.Whole?) && !durable.Torn?
      && visible == Survivors()[|Survivors()| - 1]
    }

    /** Nothing can survive a missing file: it was never renamed to. */
    lemma AbsentIsAlone()
      requires Sound() && visible.Absent?
      ensures Survivors() == [Absent]
    {
      assert unsynced != [] ==> visible in unsynced;
    }

    /** How a write ends whose first operation is the `n`-th. */
    function Fate(n: nat): Outcome<SnapshotError> {
      if !outcomes(n) || !outcomes(n + 1) || !outcomes(n + 2) then Fail(IoFailed)
      else if !outcomes(n + 3) then Fail(Uncertain)
      else Pass
    }

    method Attempt() returns (ok: bool)
      modifies this`operations
      ensures ok == outcomes(old(operations)) && operations == old(operations) + 1
    {
      ok := outcomes(operations);
      operations := operations + 1;
    }

    /** Writes a temporary file; until it is synced a crash would tear it. */
    method WriteTemporary(data: T) returns (ok: bool)
      modifies this`operations, this`temporary
      ensures ok == outcomes(old(operations)) && operations == old(operations) + 1
      ensures temporary == Torn
    {
      ok := Attempt();
      temporary := Torn;
    }

    /** Brings the temporary file's data to the disk. */
    method SyncTemporary(data: T) returns (ok: bool)
      requires temporary == Torn
      modifies this`operations, this`temporary
      ensures ok == outcomes(old(operations)) && operations == old(operations) + 1
      ensures temporary == if ok then Whole(data) else Torn
    {
      ok := Attempt();
      if ok {
        temporary := Whole(data);
      }
    }

    /** Readers see the new data at once; a crash may keep any older name. */
    method Rename(data: T) returns (ok: bool)
      modifies this`operations, this`visible, this`unsynced
      ensures ok == outcomes(old(operations)) && operations == old(operations) + 1
      ensures visible == if ok then Whole(data) else old(visible)
      ensures unsynced == if ok then old(unsynced) + [temporary] else old(unsynced)
    {
      ok := Attempt();
      if ok {
        visible, unsynced := Whole(data), unsynced + [temporary];
      }
    }

    /** Makes the newest name the only one that can survive. */
    method SyncDirectory() returns (ok: bool)
      requires unsynced != []
      modifies this`operations, this`durable, this`unsynced
      ensures ok == outcomes(old(operations)) && operations == old(operations) + 1
      ensures durable == if ok then old(unsynced)[|old(unsynced)| - 1] else old(durable)
      ensures unsynced == if ok then [] else old(unsynced)
    {
      ok := Attempt();
      if ok {
        durable, unsynced := unsynced[|unsynced| - 1], [];
      }
    }

    /** Power loss: one of the contents that can survive does. */
    method Crash(choice: nat)
      requires choice <= |unsynced|
      modifies this
      ensures Survivors() == [old(Survivors())[choice]] && visible == old(Survivors())[choice]
      ensures operations == old(operations)
      ensures old(Sound()) ==> Sound()
    {
      var survivor := if choice == 0 then durable else unsynced[choice - 1];
      assert choice > 0 ==> survivor in unsynced;
      visible, unsynced, durable := survivor, [], survivor;
    }
  }

  class File<T> {
    const disk: Disk<T>
    const limit: nat
    const size: T -> nat
    var open: bool
    var failed: bool

    constructor (disk: Disk<T>, limit: nat, size: T -> nat)
      ensures this.disk == disk && this.limit == limit && this.size == size && open && !failed
    {
      this.disk := disk;
      this.limit := limit;
      this.size := size;
      open := true;
      failed := false;
    }

    function Check(): (r: Outcome<SnapshotError>)
      reads this
      ensures r.Pass? <==> open && !failed
    {
      if !open then Fail(Closed) else if failed then Fail(Uncertain) else Pass
    }

    /** Reads what is visible, or says exactly why not. */
    method Read() returns (r: Result<T, SnapshotError>)
      modifies disk`operations
      ensures Check().Fail? ==> r == Err(Check().error) && disk.operations == old(disk.operations)
      ensures Check().Pass? ==>
        && disk.operations == old(disk.operations) + 1
        && r == if !disk.outcomes(old(disk.operations)) || disk.visible.Torn? then Err(IoFailed)
                else if disk.visible.Absent? then Err(NotExist)
                else if size(disk.visible.data) > limit then Err(TooLarge)
                else Ok(disk.visible.data)
    {
      if Check().Fail? { return Err(Check().error); }
      var ok := disk.Attempt();
      if !ok { return Err(IoFailed); }
      match disk.visible {
        case Absent => return Err(NotExist);
        case Torn => return Err(IoFailed);
        case Whole(data) =>
          if size(data) > limit { return Err(TooLarge); }
          return Ok(data);
      }
    }

    /**
     * Acknowledges only what survives every crash. A failure before the rename
     * changes nothing; a failed directory sync leaves the new content visible
     * but uncertain, and poisons the handle.
     */
    method Write(data: T) returns (r: Outcome<SnapshotError>)
      requires disk.Sound()
      modifies this`failed, disk
      ensures disk.Sound()
      ensures old(Check()).Fail? ==> r == Fail(old(Check()).error) && unchanged(this) && unchanged(disk)
      ensures old(Check()).Pass? && size(data) > limit ==> r == Fail(TooLarge) && unchanged(this) && unchanged(disk)
      ensures old(Check()).Pass? && size(data) <= limit ==> r == disk.Fate(old(disk.operations))
      ensures r.Pass? ==> !failed && disk.Survivors() == [Whole(data)] && disk.visible == Whole(data)
      ensures r.Pass? || (old(Check()).Pass? && r == Fail(Uncertain)) ==> disk.operations == old(disk.operations) + 4
      ensures r.Fail? ==>
        if old(Check()).Pass? && r == Fail(Uncertain)
        then failed && disk.Survivors() == old(disk.Survivors()) + [Whole(data)] && disk.visible == Whole(data)
        else failed == old(failed) && disk.Survivors() == old(disk.Survivors()) && disk.visible == old(disk.visible)
    {
      if Check().Fail? { return Fail(Check().error); }
      if size(data) > limit { return Fail(TooLarge); }
      var ok := disk.WriteTemporary(data);
      if !ok { return Fail(IoFailed); }
      ok := disk.SyncTemporary(data);
      if !ok { return Fail(IoFailed); }
      ok := disk.Rename(data);
      if !ok { return Fail(IoFailed); }
      ok := disk.SyncDirectory();
      if !ok {
        failed := true;
        return Fail(Uncertain);
      }
      r := Pass;
    }

    method Close()
      modifies this`open
      ensures !open
    {
      open := false;
    }
  }
}
