/**
 * What holds over every run of the durable enrollment store, through failed
 * writes, poisoned handles, crashes and reopenings
 * (services/control-api/internal/identity/file.go, services/control-api/internal/snapshot/file.go).
 */
module EnrollmentRuns {
  import opened Results
  import opened Messages
  import opened Enrollments
  import opened EnrollmentFiles
  import opened Snapshots

  /** A challenge digest together with the account and device it is bound to. */
  datatype Binding = Binding(digest: Bytes, accountId: Bytes, deviceId: Bytes)

  function BindingOf(g: Bytes, p: Pending): Binding {
    Binding(g, p.accountId, p.deviceId)
  }

  /**
   * What was issued, whether any of it expires at the zero time, what was
   * acknowledged as enrolled, and the devices so acknowledged.
   */
  datatype History = History(
    issued: multiset<Binding>,
    zero: bool,
    acked: multiset<Binding>,
    registered: map<Bytes, Device>)

  const NOTHING := History(multiset{}, false, multiset{}, map[])

  /** No binding was used more often than it was issued. */
  ghost predicate Balanced(h: History) {
    forall b :: h.acked[b] <= h.issued[b]
  }

  /**
   * Every open challenge may still be used once more, none expires at the zero
   * time unless one was issued so, and no acknowledged device is missing or
   * changed.
   */
  ghost predicate Accounted(h: History, s: Store) {
    && (forall g :: g in s.challenges ==>
          h.acked[BindingOf(g, s.challenges[g])] < h.issued[BindingOf(g, s.challenges[g])])
    && (!h.zero ==> NeverZero(s.challenges))
    && (forall id :: id in h.registered ==> id in s.devices && s.devices[id] == h.registered[id])
  }

  /** Dropping challenges and adding devices keeps the account. */
  lemma AccountedShrinks(h: History, s: Store, next: Store)
    requires Accounted(h, s)
    requires forall g :: g in next.challenges ==> g in s.challenges && next.challenges[g] == s.challenges[g]
    requires forall id :: id in s.devices ==> id in next.devices && next.devices[id] == s.devices[id]
    ensures Accounted(h, next)
  {
  }

  function AfterIssue(h: History, b: Binding, expiry: int): History {
    h.(issued := h.issued + multiset{b}, zero := h.zero || expiry == 0)
  }

  lemma AccountedIssue(h: History, s: Store, g: Bytes, p: Pending)
    requires Balanced(h) && Accounted(h, s)
    ensures Balanced(AfterIssue(h, BindingOf(g, p), p.expiresAt))
    ensures Accounted(AfterIssue(h, BindingOf(g, p), p.expiresAt), s)
    ensures Accounted(AfterIssue(h, BindingOf(g, p), p.expiresAt), s.(challenges := s.challenges[g := p]))
  {
  }

  function AfterAck(h: History, g: Bytes, d: Device): History {
    h.(acked := h.acked + multiset{Binding(g, d.accountId, d.deviceId)}, registered := h.registered[d.deviceId := d])
  }

  /** Acknowledging an enrollment that spent its challenge keeps the account. */
  lemma AccountedAck(h: History, crypto: Crypto, capacity: nat, s: Store, q: Request, now: int)
    requires Balanced(h) && Accounted(h, s)
    requires Enrolled(crypto, capacity, s, q, now).0.Ok?
    ensures
      var (r, next) := Enrolled(crypto, capacity, s, q, now);
      var after := AfterAck(h, crypto.sha256(q.challenge), r.value);
      Balanced(after) && Accounted(after, next) && r.value.deviceId !in h.registered
  {
  }

  /** An enrollment that is not acknowledged changes nothing that was promised. */
  lemma AccountedEnrolled(h: History, crypto: Crypto, capacity: nat, s: Store, q: Request, now: int)
    requires Accounted(h, s)
    ensures Accounted(h, Enrolled(crypto, capacity, s, q, now).1)
  {
  }

  /** The binding a successful issue creates. */
  function IssuedBinding(crypto: Crypto, value: Bytes, accountId: Bytes, deviceId: Bytes): Binding {
    Binding(crypto.sha256(value), accountId, deviceId)
  }

  lemma AccountedIssued(h: History, crypto: Crypto, ttl: int, capacity: nat, s: Store,
                        accountId: Bytes, deviceId: Bytes, now: int, random: Option<Bytes>)
    requires Balanced(h) && Accounted(h, s)
    requires Issued(crypto, ttl, capacity, s, accountId, deviceId, now, random).0.Ok?
    ensures
      var h' := AfterIssue(h, IssuedBinding(crypto, random.value, accountId, deviceId), now + ttl);
      && Balanced(h') && Accounted(h', s)
      && Accounted(h', Issued(crypto, ttl, capacity, s, accountId, deviceId, now, random).1)
  {
    var pruned := s.(challenges := Prune(s.challenges, now));
    AccountedShrinks(h, s, pruned);
    var g, p := crypto.sha256(random.value), Pending(accountId, deviceId, now + ttl);
    AccountedIssue(h, s, g, p);
    AccountedIssue(h, pruned, g, p);
    assert Issued(crypto, ttl, capacity, s, accountId, deviceId, now, random).1 ==
           pruned.(challenges := pruned.challenges[g := p]);
  }

  // --- What can survive -----------------------------------------------------

  /** One content pays what the history is owed. */
  ghost predicate Pays(crypto: Crypto, h: History, c: Content<EnrollmentSnapshot>) {
    Kept(crypto, c) && Accounted(h, StoreOf(c))
  }

  /** So does everything that can survive a crash. */
  ghost predicate Owes(crypto: Crypto, h: History, cs: seq<Content<EnrollmentSnapshot>>) {
    Balanced(h) && forall c :: c in cs ==> Pays(crypto, h, c)
  }

  /** A store that may be written next. */
  ghost predicate Sound(crypto: Crypto, h: History, s: Store) {
    Accounted(h, s) && ValidDevices(crypto, s.devices) && ValidChallenges(s.challenges)
  }

  lemma ShownPays(crypto: Crypto, h: History, c: Content<EnrollmentSnapshot>, s: Store)
    requires Shows(c, s) && Sound(crypto, h, s)
    ensures Pays(crypto, h, c)
  {
    ShowsIsKept(crypto, c, s);
  }

  /** However a transaction ends, what can survive still pays. */
  lemma OwesSettled(crypto: Crypto, h: History, ending: Ending, before: Store, after: Store, memory: Store,
                    was: seq<Content<EnrollmentSnapshot>>, now: seq<Content<EnrollmentSnapshot>>)
    requires Owes(crypto, h, was) && Settled(ending, before, after, memory, was, now)
    requires ending != Unchanged ==> Sound(crypto, h, after)
    ensures Owes(crypto, h, now)
  {
    match ending {
      case Unchanged =>
      case Exposed =>
        ShownPays(crypto, h, now[|was|], after);
        assert now == was + [now[|was|]];
      case Committed =>
        ShownPays(crypto, h, now[0], after);
        assert now == [now[0]];
    }
  }

  /** Issuing more never makes anything owe more. */
  lemma OwesIssue(crypto: Crypto, h: History, b: Binding, expiry: int, cs: seq<Content<EnrollmentSnapshot>>)
    requires Owes(crypto, h, cs)
    ensures Owes(crypto, AfterIssue(h, b, expiry), cs)
  {
  }

  /** What readers see is what memory holds, and pays. */
  lemma VisiblePays(crypto: Crypto, h: History, cs: seq<Content<EnrollmentSnapshot>>, s: Store)
    requires cs != [] && Owes(crypto, h, cs) && Shows(cs[|cs| - 1], s)
    requires ValidDevices(crypto, s.devices) && ValidChallenges(s.challenges)
    ensures Accounted(h, s)
  {
    assert cs[|cs| - 1] in cs;
    ShowsIsKept(crypto, cs[|cs| - 1], s);
  }

  // --- How a transaction changes what is owed -------------------------------

  /** However an issue ends, what can survive pays what the history is owed after it. */
  lemma IssueOwes(crypto: Crypto, h: History, effect: Effect, step: Step, reply: Reply,
                  was: seq<Content<EnrollmentSnapshot>>, now: seq<Content<EnrollmentSnapshot>>)
    requires effect.Issuance? && Explains(crypto, effect, step, reply, was, now)
    requires crypto.Sound() && Owes(crypto, h, was)
    ensures TookEffect(reply) ==> step.random.Some?
    ensures Owes(crypto, Next(crypto, h, step, reply), now)
  {
    var Issuance(ttl, capacity, before, memory) := effect;
    var IssueStep(accountId, deviceId, time, random) := step;
    var after := Issued(crypto, ttl, capacity, before, accountId, deviceId, time, random).1;
    if TookEffect(reply) {
      VisiblePays(crypto, h, was, before);
      IssuedSound(crypto, h, ttl, capacity, before, accountId, deviceId, time, random);
      var b := IssuedBinding(crypto, random.value, accountId, deviceId);
      OwesIssue(crypto, h, b, reply.expiry, was);
      OwesSettled(crypto, AfterIssue(h, b, reply.expiry), EndingOf(reply.usable, reply.issued),
                  before, after, memory, was, now);
    } else {
      OwesSettled(crypto, h, Unchanged, before, after, memory, was, now);
    }
  }

  lemma IssuedSound(crypto: Crypto, h: History, ttl: int, capacity: nat, s: Store,
                    accountId: Bytes, deviceId: Bytes, now: int, random: Option<Bytes>)
    requires crypto.Sound() && Balanced(h) && Accounted(h, s) && WellFormed(crypto, capacity, s)
    requires Issued(crypto, ttl, capacity, s, accountId, deviceId, now, random).0.Ok?
    ensures random.Some?
    ensures Sound(crypto, AfterIssue(h, IssuedBinding(crypto, random.value, accountId, deviceId), now + ttl),
                  Issued(crypto, ttl, capacity, s, accountId, deviceId, now, random).1)
  {
    IssuedWellFormed(crypto, ttl, capacity, s, accountId, deviceId, now, random);
    AccountedIssued(h, crypto, ttl, capacity, s, accountId, deviceId, now, random);
  }

  /** However an enrollment ends, what can survive pays what the history is owed after it. */
  lemma EnrollOwes(crypto: Crypto, h: History, effect: Effect, step: Step, reply: Reply,
                   was: seq<Content<EnrollmentSnapshot>>, now: seq<Content<EnrollmentSnapshot>>)
    requires effect.Enrollment? && Explains(crypto, effect, step, reply, was, now) && Owes(crypto, h, was)
    ensures Owes(crypto, Next(crypto, h, step, reply), now)
    ensures reply.enrolled.Ok? ==> reply.enrolled.value.deviceId !in h.registered
  {
    var Enrollment(usable, capacity, before, memory) := effect;
    var EnrollStep(q, time) := step;
    var after := Enrolled(crypto, capacity, before, q, time).1;
    if usable {
      VisiblePays(crypto, h, was, before);
      EnrolledSound(crypto, h, capacity, before, q, time);
    }
    if reply.enrolled.Ok? {
      AckedSound(crypto, h, capacity, before, q, time);
      CommittedOwes(crypto, AfterAck(h, crypto.sha256(q.challenge), reply.enrolled.value), after, now);
    } else {
      OwesSettled(crypto, h, EnrollEnding(usable, reply.enrolled, after != before), before, after, memory, was, now);
    }
  }

  lemma EnrolledSound(crypto: Crypto, h: History, capacity: nat, s: Store, q: Request, now: int)
    requires Accounted(h, s) && WellFormed(crypto, capacity, s)
    ensures Sound(crypto, h, Enrolled(crypto, capacity, s, q, now).1)
  {
    EnrolledWellFormed(crypto, capacity, s, q, now);
    AccountedEnrolled(h, crypto, capacity, s, q, now);
  }

  lemma AckedSound(crypto: Crypto, h: History, capacity: nat, s: Store, q: Request, now: int)
    requires Balanced(h) && Accounted(h, s) && WellFormed(crypto, capacity, s)
    requires Enrolled(crypto, capacity, s, q, now).0.Ok?
    ensures
      var (r, next) := Enrolled(crypto, capacity, s, q, now);
      var after := AfterAck(h, crypto.sha256(q.challenge), r.value);
      Balanced(after) && Sound(crypto, after, next) && r.value.deviceId !in h.registered
  {
    EnrolledWellFormed(crypto, capacity, s, q, now);
    AccountedAck(h, crypto, capacity, s, q, now);
  }

  lemma CommittedOwes(crypto: Crypto, h: History, s: Store, cs: seq<Content<EnrollmentSnapshot>>)
    requires Only(cs, s) && Balanced(h) && Sound(crypto, h, s)
    ensures Owes(crypto, h, cs)
  {
    ShownPays(crypto, h, cs[0], s);
    assert cs == [cs[0]];
  }

  // --- What was asked and answered ------------------------------------------

  datatype Step =
    | OpenStep(ttl: int, capacity: nat)
    | IssueStep(accountId: Bytes, deviceId: Bytes, issueTime: int, random: Option<Bytes>)
    | EnrollStep(request: Request, enrollTime: int)
    | CloseStep
    | CrashStep(choice: nat)

  /**
   * What a request was answered. `usable` says whether its handle was, and
   * `expiry` when its challenge expires. Other steps get no answer.
   */
  datatype Reply =
    | Silent
    | Issuing(usable: bool, issued: Result<Challenge, FileError>, expiry: int)
    | Enrolling(enrolled: Result<Device, FileError>)

  /** The challenge was acknowledged, or became visible in a write that ended uncertain. */
  predicate TookEffect(r: Reply) {
    r.Issuing? && EndingOf(r.usable, r.issued) != Unchanged
  }

  /** The bindings of challenges whose issue took effect, with repetitions. */
  function Issues(crypto: Crypto, steps: seq<Step>, replies: seq<Reply>): multiset<Binding>
    requires |steps| == |replies|
    decreases |steps|
  {
    if steps == [] then multiset{}
    else
      var n := |steps| - 1;
      Issues(crypto, steps[..n], replies[..n]) + IssueOf(crypto, steps[n], replies[n])
  }

  function IssueOf(crypto: Crypto, step: Step, reply: Reply): multiset<Binding> {
    if step.IssueStep? && step.random.Some? && TookEffect(reply)
    then multiset{IssuedBinding(crypto, step.random.value, step.accountId, step.deviceId)} else multiset{}
  }

  /** Some challenge whose issue took effect expires at the zero time. */
  predicate ZeroIssued(steps: seq<Step>, replies: seq<Reply>)
    requires |steps| == |replies|
    decreases |steps|
  {
    steps != [] &&
    var n := |steps| - 1;
    ZeroIssued(steps[..n], replies[..n]) || ZeroIssue(steps[n], replies[n])
  }

  predicate ZeroIssue(step: Step, reply: Reply) {
    step.IssueStep? && step.random.Some? && TookEffect(reply) && reply.expiry == 0
  }

  /** An acknowledged enrollment: the digest of the challenge it used, and the device. */
  datatype Ack = Ack(digest: Bytes, device: Device)

  /** The acknowledged enrollments, in order. */
  function Acks(crypto: Crypto, steps: seq<Step>, replies: seq<Reply>): seq<Ack>
    requires |steps| == |replies|
    decreases |steps|
  {
    if steps == [] then []
    else
      var n := |steps| - 1;
      Acks(crypto, steps[..n], replies[..n]) + AckOf(crypto, steps[n], replies[n])
  }

  function AckOf(crypto: Crypto, step: Step, reply: Reply): seq<Ack> {
    if step.EnrollStep? && reply.Enrolling? && reply.enrolled.Ok?
    then [Ack(crypto.sha256(step.request.challenge), reply.enrolled.value)] else []
  }

  /** The bindings the acknowledged enrollments used, with repetitions. */
  function Uses(acks: seq<Ack>): multiset<Binding> {
    if acks == [] then multiset{}
    else
      var last := acks[|acks| - 1];
      Uses(acks[..|acks| - 1]) + multiset{Binding(last.digest, last.device.accountId, last.device.deviceId)}
  }

  /** Distinct devices, all as the history records them. */
  ghost predicate Acknowledged(acks: seq<Ack>, h: History) {
    && (forall i, j :: 0 <= i < j < |acks| ==> acks[i].device.deviceId != acks[j].device.deviceId)
    && (forall a :: a in acks ==> a.device.deviceId in h.registered && h.registered[a.device.deviceId] == a.device)
  }

  /** The history is exactly what took effect and was acknowledged. */
  ghost predicate Tells(crypto: Crypto, h: History, steps: seq<Step>, replies: seq<Reply>)
    requires |steps| == |replies|
  {
    Matches(h, Issues(crypto, steps, replies), ZeroIssued(steps, replies), Acks(crypto, steps, replies))
  }

  ghost predicate Matches(h: History, issues: multiset<Binding>, zero: bool, acks: seq<Ack>) {
    h.issued == issues && h.zero == zero && h.acked == Uses(acks) && Acknowledged(acks, h)
  }

  lemma MatchesIssue(h: History, issues: multiset<Binding>, zero: bool, acks: seq<Ack>, b: Binding, expiry: int)
    requires Matches(h, issues, zero, acks)
    ensures Matches(AfterIssue(h, b, expiry), issues + multiset{b}, zero || expiry == 0, acks)
  {
  }

  lemma MatchesAck(h: History, issues: multiset<Binding>, zero: bool, acks: seq<Ack>, a: Ack)
    requires Matches(h, issues, zero, acks) && a.device.deviceId !in h.registered
    ensures Matches(AfterAck(h, a.digest, a.device), issues, zero, acks + [a])
  {
    UsesMore(acks, a);
    AcknowledgedGrows(acks, h, a);
  }

  lemma UsesMore(acks: seq<Ack>, a: Ack)
    ensures Uses(acks + [a]) == Uses(acks) + multiset{Binding(a.digest, a.device.accountId, a.device.deviceId)}
  {
    assert (acks + [a])[..|acks|] == acks;
  }

  lemma AcknowledgedGrows(acks: seq<Ack>, h: History, a: Ack)
    requires Acknowledged(acks, h) && a.device.deviceId !in h.registered
    ensures Acknowledged(acks + [a], AfterAck(h, a.digest, a.device))
  {
    forall i | 0 <= i < |acks|
      ensures acks[i].device.deviceId != a.device.deviceId
    {
      assert acks[i] in acks;
    }
  }

  /** The history after a step that was answered this way. */
  ghost function Next(crypto: Crypto, h: History, step: Step, reply: Reply): History {
    if step.IssueStep? && step.random.Some? && TookEffect(reply)
    then AfterIssue(h, IssuedBinding(crypto, step.random.value, step.accountId, step.deviceId), reply.expiry)
    else if step.EnrollStep? && reply.Enrolling? && reply.enrolled.Ok?
    then AfterAck(h, crypto.sha256(step.request.challenge), reply.enrolled.value)
    else h
  }

  lemma TellsNext(crypto: Crypto, h: History, steps: seq<Step>, k: nat, replies: seq<Reply>, reply: Reply)
    requires |replies| == k < |steps| && Tells(crypto, h, steps[..k], replies)
    requires steps[k].EnrollStep? && reply.Enrolling? && reply.enrolled.Ok? ==>
      reply.enrolled.value.deviceId !in h.registered
    ensures Tells(crypto, Next(crypto, h, steps[k], reply), steps[..k + 1], replies + [reply])
  {
    OneMore(crypto, steps, k, replies, reply);
    MatchesNext(crypto, h, Issues(crypto, steps[..k], replies), ZeroIssued(steps[..k], replies),
                Acks(crypto, steps[..k], replies), steps[k], reply);
  }

  lemma MatchesNext(crypto: Crypto, h: History, issues: multiset<Binding>, zero: bool, acks: seq<Ack>,
                    step: Step, reply: Reply)
    requires Matches(h, issues, zero, acks)
    requires step.EnrollStep? && reply.Enrolling? && reply.enrolled.Ok? ==>
      reply.enrolled.value.deviceId !in h.registered
    ensures Matches(Next(crypto, h, step, reply), issues + IssueOf(crypto, step, reply),
                    zero || ZeroIssue(step, reply), acks + AckOf(crypto, step, reply))
  {
    assert issues + multiset{} == issues && acks + [] == acks;
    if IssueOf(crypto, step, reply) != multiset{} {
      var b := IssuedBinding(crypto, step.random.value, step.accountId, step.deviceId);
      MatchesIssue(h, issues, zero, acks, b, reply.expiry);
    } else if AckOf(crypto, step, reply) != [] {
      MatchesAck(h, issues, zero, acks, AckOf(crypto, step, reply)[0]);
    }
  }

  lemma OneMore(crypto: Crypto, steps: seq<Step>, k: nat, replies: seq<Reply>, reply: Reply)
    requires |replies| == k < |steps|
    ensures Issues(crypto, steps[..k + 1], replies + [reply]) ==
            Issues(crypto, steps[..k], replies) + IssueOf(crypto, steps[k], reply)
    ensures Acks(crypto, steps[..k + 1], replies + [reply]) ==
            Acks(crypto, steps[..k], replies) + AckOf(crypto, steps[k], reply)
    ensures ZeroIssued(steps[..k + 1], replies + [reply]) ==
            (ZeroIssued(steps[..k], replies) || ZeroIssue(steps[k], reply))
  {
    assert steps[..k + 1][..k] == steps[..k] && (replies + [reply])[..k] == replies;
  }

  // --- Runs -----------------------------------------------------------------

  /** What a step did, beyond its answer. */
  datatype Effect =
    | Nothing
    | Created
    | Issuance(ttl: int, capacity: nat, before: Store, memory: Store)
    | Enrollment(usable: bool, capacity: nat, before: Store, memory: Store)
    | Crashed(survivor: nat)

  /** The effect accounts for the answer and for what can survive afterwards. */
  ghost predicate Explains(crypto: Crypto, effect: Effect, step: Step, reply: Reply,
                           was: seq<Content<EnrollmentSnapshot>>, now: seq<Content<EnrollmentSnapshot>>)
  {
    match effect
    case Nothing => reply.Silent? && now == was
    case Created =>
      reply.Silent? && was == [Absent] && forall c :: c in now ==> Kept(crypto, c) && StoreOf(c) == EMPTY
    case Issuance(ttl, capacity, before, memory) =>
      && step.IssueStep? && reply.Issuing? && reply.expiry == step.issueTime + ttl
      && was != [] && WellFormed(crypto, capacity, before) && (reply.usable ==> Shows(was[|was| - 1], before))
      && IssueEnds(reply.usable, reply.issued,
                   Issued(crypto, ttl, capacity, before, step.accountId, step.deviceId, step.issueTime, step.random),
                   before, memory, was, now)
    case Enrollment(usable, capacity, before, memory) =>
      && step.EnrollStep? && reply.Enrolling?
      && was != [] && WellFormed(crypto, capacity, before) && (usable ==> Shows(was[|was| - 1], before))
      && EnrollEnds(usable, reply.enrolled, Enrolled(crypto, capacity, before, step.request, step.enrollTime),
                    before, memory, was, now)
    case Crashed(i) => reply.Silent? && i < |was| && now == [was[i]]
  }

  /** Whatever a step does, what can survive pays what is owed after it. */
  lemma OwesNext(crypto: Crypto, h: History, effect: Effect, step: Step, reply: Reply,
                 was: seq<Content<EnrollmentSnapshot>>, now: seq<Content<EnrollmentSnapshot>>)
    requires crypto.Sound() && Owes(crypto, h, was) && Explains(crypto, effect, step, reply, was, now)
    ensures Owes(crypto, Next(crypto, h, step, reply), now)
    ensures step.EnrollStep? && reply.Enrolling? && reply.enrolled.Ok? ==>
      reply.enrolled.value.deviceId !in h.registered
  {
    match effect {
      case Nothing =>
      case Created => CreatedOwes(crypto, h, now);
      case Issuance(_, _, _, _) => IssueOwes(crypto, h, effect, step, reply, was, now);
      case Enrollment(_, _, _, _) => EnrollOwes(crypto, h, effect, step, reply, was, now);
      case Crashed(i) =>
    }
  }

  lemma CreatedOwes(crypto: Crypto, h: History, now: seq<Content<EnrollmentSnapshot>>)
    requires Owes(crypto, h, [Absent]) && forall c :: c in now ==> Kept(crypto, c) && StoreOf(c) == EMPTY
    ensures Owes(crypto, h, now)
  {
    var absent: seq<Content<EnrollmentSnapshot>> := [Absent];
    assert absent[0] in absent;
  }

  /** One step of a run. */
  method TakeStep(disk: Disk<EnrollmentSnapshot>, crypto: Crypto, handle: FileEnrollmentStore?, step: Step,
                  size: EnrollmentSnapshot -> nat)
    returns (next: FileEnrollmentStore?, reply: Reply, ghost effect: Effect)
    requires crypto.Sound() && disk.Sound() && Kept(crypto, disk.visible)
    requires handle != null ==> handle.file.disk == disk && handle.crypto == crypto && handle.Valid()
    modifies disk, if handle != null then {handle, handle.file} else {}
    ensures disk.Sound() && Explains(crypto, effect, step, reply, old(disk.Survivors()), disk.Survivors())
    ensures next != null ==> next.file.disk == disk && next.crypto == crypto && next.Valid()
    ensures next == null || next == handle || (fresh(next) && fresh(next.file))
    ensures next != null ==> fresh(next.current) || (next == handle && next.current == old(handle.current))
  {
    next, reply, effect := handle, Silent, Nothing;
    match step {
      case OpenStep(ttl, capacity) =>
        if handle == null || !handle.file.open {
          if disk.visible.Absent? {
            disk.AbsentIsAlone();
            effect := Created;
          }
          var result := OpenFileEnrollmentStore(disk, crypto, ttl, capacity, size);
          next := if result.Ok? then result.value else null;
        }
      case IssueStep(accountId, deviceId, now, random) =>
        if handle != null {
          var usable, ttl := handle.file.Check().Pass?, handle.current.ttl;
          ghost var capacity, before := handle.current.capacity, handle.current.Value();
          var r := handle.Issue(accountId, deviceId, now, random);
          reply, effect := Issuing(usable, r, now + ttl), Issuance(ttl, capacity, before, handle.current.Value());
        }
      case EnrollStep(q, now) =>
        if handle != null {
          ghost var usable, capacity := handle.file.Check().Pass?, handle.current.capacity;
          ghost var before := handle.current.Value();
          var r := handle.Enroll(q, now);
          reply, effect := Enrolling(r), Enrollment(usable, capacity, before, handle.current.Value());
        }
      case CloseStep =>
        if handle != null { handle.file.Close(); }
      case CrashStep(choice) =>
        var i := choice % (|disk.unsynced| + 1);
        effect := Crashed(i);
        disk.Crash(i);
        next := null;
    }
  }

  /** Opening this content gives the store it describes, whenever that is within the capacity asked for. */
  ghost predicate Reopens(crypto: Crypto, c: Content<EnrollmentSnapshot>)
    requires c.Whole?
  {
    var s := StoreOf(c);
    forall capacity: nat :: Restored(crypto, capacity, c.data) ==
      if |s.devices| <= capacity && |s.challenges| <= capacity then Ok(s) else Err(Malformed)
  }

  lemma TimelyReopens(crypto: Crypto, h: History, c: Content<EnrollmentSnapshot>)
    requires c.Whole? && Pays(crypto, h, c) && !h.zero
    ensures Reopens(crypto, c)
  {
    var s := StoreOf(c);
    forall capacity: nat
      ensures Restored(crypto, capacity, c.data) ==
        if |s.devices| <= capacity && |s.challenges| <= capacity then Ok(s) else Err(Malformed)
    {
      RestoreExact(crypto, capacity, c.data, s);
    }
  }

  /** The device is in the store as it was acknowledged. */
  ghost predicate Present(a: Ack, s: Store) {
    a.device.deviceId in s.devices && s.devices[a.device.deviceId] == a.device
  }

  /**
   * Any sequence of opens, issues, enrollments, closes and crashes, with any
   * operations failing: the acknowledged enrollments use no binding of a
   * challenge to an account and device more often than issuing it took effect,
   * no device ID is acknowledged twice, and every acknowledged device is
   * unchanged in what readers see and in whatever a crash would leave. Unless a
   * challenge that expires at the zero time took effect, whatever a crash would
   * leave opens again to the same store with any capacity it is within.
   */
  method Run(disk: Disk<EnrollmentSnapshot>, crypto: Crypto, steps: seq<Step>, size: EnrollmentSnapshot -> nat)
    returns (replies: seq<Reply>)
    requires crypto.Sound() && disk.Sound() && disk.visible.Absent?
    modifies disk
    ensures |replies| == |steps|
    ensures
      var acks := Acks(crypto, steps, replies);
      && Uses(acks) <= Issues(crypto, steps, replies)
      && (forall i, j :: 0 <= i < j < |acks| ==> acks[i].device.deviceId != acks[j].device.deviceId)
      && (forall c, a :: c in disk.Survivors() && a in acks ==> Present(a, StoreOf(c)))
    ensures !ZeroIssued(steps, replies) ==> forall c :: c in disk.Survivors() && c.Whole? ==> Reopens(crypto, c)
    ensures disk.visible in disk.Survivors()
  {
    replies := [];
    ghost var h := NOTHING;
    var handle: FileEnrollmentStore? := null;
    disk.AbsentIsAlone();
    Begins(crypto);
    for k := 0 to |steps|
      invariant |replies| == k && disk.Sound()
      invariant Owes(crypto, h, disk.Survivors()) && Tells(crypto, h, steps[..k], replies)
      invariant handle != null ==>
        && fresh(handle) && fresh(handle.file) && fresh(handle.current)
        && handle.file.disk == disk && handle.crypto == crypto && handle.Valid()
    {
      var reply;
      ghost var was, effect := disk.Survivors(), Nothing;
      assert disk.visible in was;
      handle, reply, effect := TakeStep(disk, crypto, handle, steps[k], size);
      OwesNext(crypto, h, effect, steps[k], reply, was, disk.Survivors());
      TellsNext(crypto, h, steps, k, replies, reply);
      h := Next(crypto, h, steps[k], reply);
      replies := replies + [reply];
    }
    assert steps[..|steps|] == steps;
    Concludes(crypto, h, steps, replies, disk.Survivors());
  }

  lemma Begins(crypto: Crypto)
    ensures Owes(crypto, NOTHING, [Absent])
  {
  }

  lemma Concludes(crypto: Crypto, h: History, steps: seq<Step>, replies: seq<Reply>,
                  cs: seq<Content<EnrollmentSnapshot>>)
    requires |steps| == |replies| && Tells(crypto, h, steps, replies) && Owes(crypto, h, cs)
    ensures
      var acks := Acks(crypto, steps, replies);
      && Uses(acks) <= Issues(crypto, steps, replies)
      && (forall i, j :: 0 <= i < j < |acks| ==> acks[i].device.deviceId != acks[j].device.deviceId)
      && (forall c, a :: c in cs && a in acks ==> Present(a, StoreOf(c)))
    ensures !ZeroIssued(steps, replies) ==> forall c :: c in cs && c.Whole? ==> Reopens(crypto, c)
  {
    if !ZeroIssued(steps, replies) {
      forall c | c in cs && c.Whole?
        ensures Reopens(crypto, c)
      {
        TimelyReopens(crypto, h, c);
      }
    }
    var acks := Acks(crypto, steps, replies);
    forall b
      ensures Uses(acks)[b] <= Issues(crypto, steps, replies)[b]
    {
      assert h.acked[b] <= h.issued[b];
    }
    forall c, a | c in cs && a in acks
      ensures Present(a, StoreOf(c))
    {
      assert Pays(crypto, h, c);
    }
  }
}
