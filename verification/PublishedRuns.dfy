/**
 * What holds over every run of the published store, through failed writes,
 * poisoned handles, crashes and reopenings, and when a crash takes readers back
 * (services/control-api/internal/configuration/file.go,
 * services/control-api/internal/snapshot/file.go).
 */
module PublishedRuns {
  import opened Results
  import opened Messages
  import opened Configurations
  import opened Snapshots
  import opened PublishedConfigs

  datatype Step = OpenStep | PublishStep(envelope: SignedConfig) | CloseStep | CrashStep(choice: nat)

  /** What a publication was answered, and whether its handle was usable; other steps get no answer. */
  datatype Reply = Silent | Published(usable: bool, outcome: Outcome<StoreError>)

  /** How many publications ended uncertain since the last acknowledged one or crash. */
  function Uncertainties(steps: seq<Step>, replies: seq<Reply>): nat
    requires |steps| == |replies|
    decreases |steps|
  {
    if steps == [] then 0
    else
      var n := |steps| - 1;
      After(Uncertainties(steps[..n], replies[..n]), steps[n], replies[n])
  }

  function After(uncertain: nat, step: Step, reply: Reply): nat {
    if step.CrashStep? then 0
    else if reply.Silent? then uncertain
    else if reply.outcome.Pass? then 0
    else if Exposed(reply.usable, reply.outcome) then uncertain + 1
    else uncertain
  }

  /** The envelopes whose publication was acknowledged. */
  function Acked(steps: seq<Step>, replies: seq<Reply>): seq<SignedConfig>
    requires |steps| == |replies|
    decreases |steps|
  {
    if steps == [] then []
    else
      var n := |steps| - 1;
      Acked(steps[..n], replies[..n]) + AckedBy(steps[n], replies[n])
  }

  // --- What can survive -----------------------------------------------------

  lemma NoOlderTransitive(a: Envelopes, b: Envelopes, c: Envelopes)
    requires NoOlder(a, b) && NoOlder(b, c)
    ensures NoOlder(a, c)
  {
  }

  /** Contents this code can have written, each no older than the one before. */
  ghost predicate Ladder(cs: seq<Content<FileState>>)
    decreases |cs|
  {
    && cs != [] && Kept(cs[|cs| - 1])
    && (|cs| > 1 ==> Ladder(cs[..|cs| - 1]) && NoOlder(MapOf(cs[|cs| - 2]), MapOf(cs[|cs| - 1])))
  }

  lemma {:induction false} LadderBetween(cs: seq<Content<FileState>>, i: nat)
    requires Ladder(cs) && i < |cs|
    ensures Kept(cs[i]) && NoOlder(MapOf(cs[0]), MapOf(cs[i])) && NoOlder(MapOf(cs[i]), MapOf(cs[|cs| - 1]))
    decreases |cs|
  {
    if |cs| <= 1 {
    } else {
      var init, last := cs[..|cs| - 1], |cs| - 2;
      assert init[last] == cs[last];
      if i <= last {
        LadderBetween(init, i);
        NoOlderTransitive(MapOf(cs[i]), MapOf(cs[last]), MapOf(cs[last + 1]));
      } else {
        LadderBetween(init, last);
        NoOlderTransitive(MapOf(cs[0]), MapOf(cs[last]), MapOf(cs[last + 1]));
      }
    }
  }

  /** Every acknowledged envelope is there, or a newer one of its device is. */
  ghost predicate Holds(m: Envelopes, acked: seq<SignedConfig>) {
    forall e :: e in acked ==> e.config.deviceId in m && e.config.version <= m[e.config.deviceId].config.version
  }

  lemma HoldsStays(a: Envelopes, b: Envelopes, acked: seq<SignedConfig>)
    requires Holds(a, acked) && NoOlder(a, b)
    ensures Holds(b, acked)
  {
  }

  ghost function First(cs: seq<Content<FileState>>): Envelopes
    requires cs != []
  {
    MapOf(cs[0])
  }

  ghost function Last(cs: seq<Content<FileState>>): Envelopes
    requires cs != []
  {
    MapOf(cs[|cs| - 1])
  }

  /**
   * What the disk keeps: a ladder that holds every acknowledged envelope from
   * its first rung on, and whose ends are equally old exactly when no
   * publication is uncertain.
   */
  ghost predicate Pays(cs: seq<Content<FileState>>, acked: seq<SignedConfig>, uncertain: nat) {
    && Ladder(cs) && Holds(First(cs), acked)
    && (uncertain == 0 <==> NoOlder(Last(cs), First(cs)))
  }

  /** A publication that became visible leaves what is durable behind. */
  lemma PaysExposed(was: seq<Content<FileState>>, now: seq<Content<FileState>>,
                    acked: seq<SignedConfig>, uncertain: nat, e: SignedConfig)
    requires Pays(was, acked, uncertain) && PublishInto(Last(was), e).Ok?
    requires Extends(was, now, PublishInto(Last(was), e).value)
    ensures Pays(now, acked, uncertain + 1) && NoOlder(Last(was), Last(now)) && First(now) == First(was)
  {
    LadderBetween(was, |was| - 1);
    PublishMonotone(Last(was), e);
    ShowsIsKept(now[|was|], PublishInto(Last(was), e).value);
    LadderGrows(was, now);
    LeavesBehind(First(was), Last(was), e);
  }

  lemma LadderGrows(was: seq<Content<FileState>>, now: seq<Content<FileState>>)
    requires Ladder(was) && |now| == |was| + 1 && now[..|was|] == was
    requires Kept(now[|was|]) && NoOlder(Last(was), Last(now))
    ensures Ladder(now) && First(now) == First(was)
  {
    assert now[|was| - 1] == was[|was| - 1] && now[0] == was[0];
  }

  /** What is published is newer than anything older than what it was published over. */
  lemma LeavesBehind(first: Envelopes, last: Envelopes, e: SignedConfig)
    requires NoOlder(first, last) && PublishInto(last, e).Ok?
    ensures !NoOlder(PublishInto(last, e).value, first)
  {
    assert e.config.deviceId in PublishInto(last, e).value;
  }

  /** An acknowledged publication is all that can survive. */
  lemma PaysAcked(was: seq<Content<FileState>>, now: seq<Content<FileState>>,
                  acked: seq<SignedConfig>, uncertain: nat, e: SignedConfig)
    requires Pays(was, acked, uncertain) && PublishInto(Last(was), e).Ok?
    requires |now| == 1 && Shows(now[0], PublishInto(Last(was), e).value)
    ensures Pays(now, acked + [e], 0) && NoOlder(Last(was), Last(now)) && NoOlder(First(was), First(now))
  {
    var next := PublishInto(Last(was), e).value;
    PublishMonotone(Last(was), e);
    ShowsIsKept(now[0], next);
    LadderBetween(was, |was| - 1);
    NoOlderTransitive(First(was), Last(was), next);
    HoldsAlso(First(was), next, acked, e);
  }

  lemma HoldsAlso(a: Envelopes, b: Envelopes, acked: seq<SignedConfig>, e: SignedConfig)
    requires Holds(a, acked) && NoOlder(a, b) && e.config.deviceId in b && b[e.config.deviceId] == e
    ensures Holds(b, acked + [e])
  {
    HoldsStays(a, b, acked);
  }

  /** A crash keeps one rung. */
  lemma PaysCrash(cs: seq<Content<FileState>>, acked: seq<SignedConfig>, uncertain: nat, i: nat)
    requires Pays(cs, acked, uncertain) && i < |cs|
    ensures Pays([cs[i]], acked, 0) && NoOlder(First(cs), MapOf(cs[i]))
    ensures uncertain == 0 ==> NoOlder(Last(cs), MapOf(cs[i]))
  {
    LadderBetween(cs, i);
    HoldsStays(First(cs), MapOf(cs[i]), acked);
    if uncertain == 0 {
      NoOlderTransitive(Last(cs), First(cs), MapOf(cs[i]));
    }
  }

  /** Creating the first snapshot publishes nothing. */
  lemma {:induction false} PaysEmpty(cs: seq<Content<FileState>>)
    requires cs != [] && forall c :: c in cs ==> Kept(c) && MapOf(c) == map[]
    ensures Pays(cs, [], 0)
    decreases |cs|
  {
    if |cs| <= 1 {
    } else {
      PaysEmpty(cs[..|cs| - 1]);
      assert cs[|cs| - 2] in cs && cs[0] in cs;
    }
  }

  /** Some crash would take readers back: what it leaves is older than what they see. */
  ghost predicate TakenBack(cs: seq<Content<FileState>>)
    requires cs != []
  {
    exists i :: 0 <= i < |cs| && !NoOlder(Last(cs), MapOf(cs[i]))
  }

  /** Whatever survives holds every acknowledged envelope. */
  ghost predicate HeldByAll(cs: seq<Content<FileState>>, acked: seq<SignedConfig>) {
    forall c :: c in cs ==> Holds(MapOf(c), acked)
  }

  /** Some crash takes readers back exactly when a publication is uncertain. */
  lemma TakenBackExactly(cs: seq<Content<FileState>>, acked: seq<SignedConfig>, uncertain: nat)
    requires Pays(cs, acked, uncertain)
    ensures TakenBack(cs) <==> uncertain > 0
    ensures HeldByAll(cs, acked)
  {
    if uncertain == 0 {
      forall i | 0 <= i < |cs|
        ensures NoOlder(Last(cs), MapOf(cs[i]))
      {
        PaysCrash(cs, acked, uncertain, i);
      }
    } else {
      assert !NoOlder(Last(cs), MapOf(cs[0]));
    }
    forall c | c in cs
      ensures Holds(MapOf(c), acked)
    {
      var i :| 0 <= i < |cs| && cs[i] == c;
      PaysCrash(cs, acked, uncertain, i);
    }
  }

  // --- Runs -----------------------------------------------------------------

  /** What is durable and what is visible at one moment of a run. */
  datatype Moment = Moment(durable: Envelopes, visible: Envelopes)

  ghost function Now(cs: seq<Content<FileState>>): Moment
    requires cs != []
  {
    Moment(First(cs), Last(cs))
  }

  /** What is durable gets no older, and readers are taken back only by a crash after an uncertain publication. */
  ghost predicate Advances(was: Moment, now: Moment, uncertain: nat, step: Step) {
    && NoOlder(was.durable, now.durable)
    && (NoOlder(was.visible, now.visible) || (step.CrashStep? && uncertain > 0))
  }

  /** One moment before each step and one at the end. */
  ghost predicate Timeline(ms: seq<Moment>, steps: seq<Step>, replies: seq<Reply>)
    decreases |steps|
  {
    && |ms| == |steps| + 1 && |replies| == |steps|
    && (steps != [] ==>
          var n := |steps| - 1;
          && Timeline(ms[..n + 1], steps[..n], replies[..n])
          && Advances(ms[n], ms[n + 1], Uncertainties(steps[..n], replies[..n]), steps[n]))
  }

  lemma {:induction false} TimelineMeaning(ms: seq<Moment>, steps: seq<Step>, replies: seq<Reply>, k: nat)
    requires Timeline(ms, steps, replies) && k < |steps|
    ensures Advances(ms[k], ms[k + 1], Uncertainties(steps[..k], replies[..k]), steps[k])
    decreases |steps|
  {
    var n := |steps| - 1;
    if k < n {
      TimelineMeaning(ms[..n + 1], steps[..n], replies[..n], k);
      assert steps[..n][..k] == steps[..k] && replies[..n][..k] == replies[..k];
    }
  }

  lemma {:induction false} DurableNeverOlder(ms: seq<Moment>, steps: seq<Step>, replies: seq<Reply>, i: nat, j: nat)
    requires Timeline(ms, steps, replies) && i <= j <= |steps|
    ensures NoOlder(ms[i].durable, ms[j].durable)
    decreases j
  {
    if i < j {
      DurableNeverOlder(ms, steps, replies, i, j - 1);
      TimelineMeaning(ms, steps, replies, j - 1);
      NoOlderTransitive(ms[i].durable, ms[j - 1].durable, ms[j].durable);
    }
  }

  /** One publication within a run. */
  method PublishOnce(handle: FileStore, e: SignedConfig, ghost acked: seq<SignedConfig>, ghost uncertain: nat)
    returns (reply: Reply)
    requires handle.Valid() && Pays(handle.file.disk.Survivors(), acked, uncertain)
    modifies handle, handle.file, handle.file.disk
    ensures handle.Valid() && reply.Published?
    ensures Pays(handle.file.disk.Survivors(), acked + AckedBy(PublishStep(e), reply),
                 After(uncertain, PublishStep(e), reply))
    ensures NoOlder(Last(old(handle.file.disk.Survivors())), Last(handle.file.disk.Survivors()))
    ensures NoOlder(First(old(handle.file.disk.Survivors())), First(handle.file.disk.Survivors()))
  {
    ghost var was := handle.file.disk.Survivors();
    var usable := handle.file.Check().Pass?;
    if usable { ShowsIsKept(handle.file.disk.visible, handle.data); }
    var r := handle.Publish(e);
    reply := Published(usable, r);
    assert acked + [] == acked;
    if r.Pass? {
      PaysAcked(was, handle.file.disk.Survivors(), acked, uncertain, e);
    } else if Exposed(usable, r) {
      PaysExposed(was, handle.file.disk.Survivors(), acked, uncertain, e);
    }
  }

  /** One step of a run. */
  method TakeStep(disk: Disk<FileState>, handle: FileStore?, step: Step, size: FileState -> nat,
                  ghost acked: seq<SignedConfig>, ghost uncertain: nat)
    returns (next: FileStore?, reply: Reply)
    requires disk.Sound() && Pays(disk.Survivors(), acked, uncertain)
    requires handle != null ==> handle.file.disk == disk && handle.Valid()
    modifies disk, if handle != null then {handle, handle.file} else {}
    ensures disk.Sound()
    ensures Pays(disk.Survivors(), acked + AckedBy(step, reply), After(uncertain, step, reply))
    ensures next != null ==> next.file.disk == disk && next.Valid()
    ensures next == null || next == handle || (fresh(next) && fresh(next.file))
    ensures Advances(Now(old(disk.Survivors())), Now(disk.Survivors()), uncertain, step)
  {
    ghost var was := disk.Survivors();
    next, reply := handle, Silent;
    assert acked + [] == acked;
    match step {
      case OpenStep =>
        if handle == null || !handle.file.open { next := OpenOnce(disk, size, acked, uncertain); }
      case PublishStep(e) =>
        if handle != null { reply := PublishOnce(handle, e, acked, uncertain); }
      case CloseStep =>
        if handle != null { handle.file.Close(); }
      case CrashStep(choice) =>
        var i := choice % (|disk.unsynced| + 1);
        PaysCrash(was, acked, uncertain, i);
        disk.Crash(i);
        next := null;
    }
  }

  /** One opening within a run. */
  method OpenOnce(disk: Disk<FileState>, size: FileState -> nat, ghost acked: seq<SignedConfig>, ghost uncertain: nat)
    returns (next: FileStore?)
    requires disk.Sound() && Pays(disk.Survivors(), acked, uncertain)
    modifies disk
    ensures disk.Sound() && Pays(disk.Survivors(), acked, uncertain)
    ensures next != null ==> fresh(next) && fresh(next.file) && next.file.disk == disk && next.Valid()
    ensures First(disk.Survivors()) == First(old(disk.Survivors()))
    ensures Last(disk.Survivors()) == Last(old(disk.Survivors()))
  {
    ghost var was := disk.Survivors();
    LadderBetween(was, |was| - 1);
    if disk.visible.Absent? { disk.AbsentIsAlone(); }
    var absent := disk.visible.Absent?;
    var result := OpenFileStore(disk, size);
    if absent {
      ghost var now := disk.Survivors();
      PaysEmpty(now);
      assert now[0] in now && now[|now| - 1] in now;
      assert acked != [] ==> acked[0] in acked;
    }
    next := if result.Ok? then result.value else null;
  }

  /**
   * Any sequence of opens, publications, closes and crashes, with any operations
   * failing: what is durable never gets older, every acknowledged publication is
   * in whatever can survive, and a crash can take readers back if and only if
   * some publication ended uncertain since the last acknowledged one or crash.
   */
  method Run(disk: Disk<FileState>, steps: seq<Step>, size: FileState -> nat)
    returns (replies: seq<Reply>, ghost moments: seq<Moment>)
    requires disk.Sound() && disk.visible.Absent?
    modifies disk
    ensures |replies| == |steps| && Timeline(moments, steps, replies) && moments[|steps|] == Now(disk.Survivors())
    ensures HeldByAll(disk.Survivors(), Acked(steps, replies))
    ensures MapOf(disk.visible) == Last(disk.Survivors())
    ensures TakenBack(disk.Survivors()) <==> Uncertainties(steps, replies) > 0
  {
    replies := [];
    moments := [Moment(map[], map[])];
    var handle: FileStore? := null;
    disk.AbsentIsAlone();
    PaysEmpty(disk.Survivors());
    for k := 0 to |steps|
      invariant disk.Sound() && |replies| == k
      invariant Pays(disk.Survivors(), Acked(steps[..k], replies), Uncertainties(steps[..k], replies))
      invariant Timeline(moments, steps[..k], replies) && moments[k] == Now(disk.Survivors())
      invariant handle != null ==> fresh(handle) && fresh(handle.file) && handle.file.disk == disk && handle.Valid()
    {
      var reply;
      handle, reply := TakeStep(disk, handle, steps[k], size,
                                Acked(steps[..k], replies), Uncertainties(steps[..k], replies));
      Answered(moments, steps, k, replies, Now(disk.Survivors()), reply);
      replies, moments := replies + [reply], moments + [Now(disk.Survivors())];
    }
    assert steps[..|steps|] == steps;
    TakenBackExactly(disk.Survivors(), Acked(steps, replies), Uncertainties(steps, replies));
  }

  /** The envelope a step added to those acknowledged. */
  function AckedBy(step: Step, reply: Reply): seq<SignedConfig> {
    if step.PublishStep? && reply.Published? && reply.outcome.Pass? then [step.envelope] else []
  }

  lemma Answered(ms: seq<Moment>, steps: seq<Step>, k: nat, replies: seq<Reply>, now: Moment, reply: Reply)
    requires |replies| == k < |steps| && Timeline(ms, steps[..k], replies)
    requires Advances(ms[k], now, Uncertainties(steps[..k], replies), steps[k])
    ensures Timeline(ms + [now], steps[..k + 1], replies + [reply])
    ensures Uncertainties(steps[..k + 1], replies + [reply]) ==
            After(Uncertainties(steps[..k], replies), steps[k], reply)
    ensures Acked(steps[..k + 1], replies + [reply]) == Acked(steps[..k], replies) + AckedBy(steps[k], reply)
  {
    assert steps[..k + 1][..k] == steps[..k] && (replies + [reply])[..k] == replies && (ms + [now])[..k + 1] == ms;
  }

  // --- A run that takes a reader back ---------------------------------------

  /** Opens the store, asks for a device, and closes it. */
  method Ask(disk: Disk<FileState>, id: Bytes) returns (answer: SignedConfig)
    requires disk.Sound() && disk.visible.Whole? && Kept(disk.visible) && disk.outcomes(disk.operations)
    requires id in MapOf(disk.visible) && |MapOf(disk.visible)| <= MAXIMUM_ENVELOPES
    modifies disk
    ensures disk.Sound() && disk.Survivors() == old(disk.Survivors()) && disk.operations == old(disk.operations) + 1
    ensures answer == MapOf(old(disk.visible))[id]
  {
    var store := OpenFileStore(disk, noSize);
    var r := store.value.Latest(id);
    store.value.file.Close();
    answer := r.value;
  }

  const noSize: FileState -> nat := s => 0

  /** A new store with one acknowledged publication, nine operations on. */
  method PublishFirst(disk: Disk<FileState>, e: SignedConfig) returns (store: FileStore)
    requires disk.Sound() && disk.visible.Absent? && Complete(e)
    requires disk.operations == 0 && forall n :: disk.outcomes(n) <==> n != 12
    modifies disk
    ensures fresh(store) && fresh(store.file) && store.file.disk == disk && store.file.size == noSize
    ensures store.Valid() && store.file.Check().Pass? && store.data == map[e.config.deviceId := e]
    ensures disk.operations == 9 && |disk.Survivors()| == 1 && Shows(disk.Survivors()[0], store.data)
  {
    var created := OpenFileStore(disk, noSize);
    store := created.value;
    var acked := store.Publish(e);
  }

  /** One acknowledged and one uncertain publication of the same device. */
  method PublishBoth(disk: Disk<FileState>, older: SignedConfig, newer: SignedConfig)
    requires disk.Sound() && disk.visible.Absent? && Complete(older) && Complete(newer)
    requires older.config.deviceId == newer.config.deviceId && older.config.version < newer.config.version
    requires disk.operations == 0 && forall n :: disk.outcomes(n) <==> n != 12
    modifies disk
    ensures disk.Sound() && disk.operations == 13 && |disk.Survivors()| == 2
    ensures
      var id, cs := older.config.deviceId, disk.Survivors();
      && cs[0].Whole? && Kept(cs[0]) && MapOf(cs[0]) == map[id := older]
      && cs[1].Whole? && Kept(cs[1]) && MapOf(cs[1]) == map[id := newer]
  {
    var store := PublishFirst(disk, older);
    ghost var first, second := store.data, PublishInto(store.data, newer).value;
    assert second == map[older.config.deviceId := newer];
    var uncertain := store.Publish(newer);
    ShowsIsKept(disk.Survivors()[0], first);
    ShowsIsKept(disk.Survivors()[1], second);
    store.file.Close();
  }

  /**
   * The thirteenth operation fails: the second envelope's directory sync. A
   * reader who reopens the store is given that envelope, and after a crash the
   * first one again.
   */
  method ReaderTakenBack(older: SignedConfig, newer: SignedConfig) returns (seen: SignedConfig, later: SignedConfig)
    requires Complete(older) && Complete(newer)
    requires older.config.deviceId == newer.config.deviceId && older.config.version < newer.config.version
    ensures seen == newer && later == older
  {
    var disk := new Disk<FileState>(n => n != 12);
    PublishBoth(disk, older, newer);
    seen := Ask(disk, older.config.deviceId);
    disk.Crash(0);
    later := Ask(disk, older.config.deviceId);
  }

  // --- A run that cannot be opened again ------------------------------------

  /** A store that is all that can survive, and usable. */
  ghost predicate Settled(store: FileStore, disk: Disk<FileState>)
    reads store, store.file, disk, store.file.disk
  {
    && store.file.disk == disk && store.file.size == noSize && store.file.limit == LIMIT
    && store.Valid() && store.file.Check().Pass?
    && |disk.Survivors()| == 1 && Shows(disk.Survivors()[0], store.data)
  }

  /** One more publication when nothing goes wrong. */
  method PublishMore(store: FileStore, disk: Disk<FileState>, e: SignedConfig) returns (r: Outcome<StoreError>)
    requires Settled(store, disk) && Complete(e) && e.config.deviceId !in store.data
    requires forall n :: disk.outcomes(n)
    modifies store, store.file, disk
    ensures r.Pass? && Settled(store, disk) && store.data == old(store.data)[e.config.deviceId := e]
  {
    r := store.Publish(e);
  }

  /**
   * Nothing fails: 10001 devices are published and acknowledged one after
   * another, and the store cannot be opened again.
   */
  method Overfill(like: SignedConfig, name: nat -> Bytes)
    returns (last: Outcome<StoreError>, reopened: Result<FileStore, StoreError>)
    requires Complete(like) && Names(name, MAXIMUM_ENVELOPES + 1)
    ensures last.Pass? && reopened == Err(Malformed)
  {
    var disk := new Disk<FileState>(n => true);
    var created := OpenFileStore(disk, noSize);
    var store := created.value;
    last := Pass;
    for i := 0 to MAXIMUM_ENVELOPES + 1
      invariant fresh(disk) && fresh(store) && fresh(store.file)
      invariant Settled(store, disk) && store.data == Many(like, name, i) && last.Pass?
    {
      ManySize(like, name, i, MAXIMUM_ENVELOPES + 1);
      last := PublishMore(store, disk, EnvelopeFor(like, name(i)));
    }
    ManySize(like, name, MAXIMUM_ENVELOPES + 1, MAXIMUM_ENVELOPES + 1);
    ShowsIsKept(disk.visible, store.data);
    store.file.Close();
    reopened := OpenFileStore(disk, noSize);
  }

  /** For example with devices named by three letters. */
  method OverfillWithLetters(like: SignedConfig)
    returns (last: Outcome<StoreError>, reopened: Result<FileStore, StoreError>)
    requires Complete(like)
    ensures last.Pass? && reopened == Err(Malformed)
  {
    LettersAreNames(MAXIMUM_ENVELOPES + 1);
    last, reopened := Overfill(like, Letters);
  }
}
