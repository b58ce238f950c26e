/** What holds over every run of a route selector (core/routing/src/selector.rs). */
module SelectorRuns {
  import opened Results
  import opened Scoring
  import opened Circuits
  import opened Selectors

  datatype Call =
    | SelectCall(candidates: seq<Candidate>, now: nat)
    | FailureCall(id: string, now: nat)
    | SuccessCall(id: string)

  datatype Policy = Policy(scoring: Scorer, stability: Stability)

  const FRESH := State(None, map[])

  function Step(p: Policy, s: State, c: Call): State {
    match c
    case SelectCall(cs, now) => SelectRoute(p.scoring, p.stability, s, cs, now).1
    case FailureCall(id, now) => s.(circuits := Failed(p.stability.breaker, s.circuits, id, now))
    case SuccessCall(id) => s.(circuits := Succeeded(s.circuits, id))
  }

  function After(p: Policy, s: State, calls: seq<Call>): State {
    if calls == [] then s else Step(p, After(p, s, calls[..|calls| - 1]), calls[|calls| - 1])
  }

  /** The class does what the steps say, call by call. */
  method Replay(scoring: RoutingPolicy, stability: Stability, calls: seq<Call>)
    returns (current: Option<Current>, circuits: Breakers)
    ensures State(current, circuits) == After(Policy(ScorerOf(scoring), stability), FRESH, calls)
  {
    ghost var p := Policy(ScorerOf(scoring), stability);
    var selector := new RouteSelector(scoring, stability);
    for i := 0 to |calls|
      invariant fresh(selector) && selector.scoring == scoring && selector.stability == stability
      invariant selector.Value() == After(p, FRESH, calls[..i])
    {
      assert calls[..i + 1][..i] == calls[..i];
      match calls[i] {
        case SelectCall(cs, now) => var r := selector.Choose(cs, now);
        case FailureCall(id, now) => selector.RecordFailure(id, now);
        case SuccessCall(id) => selector.RecordSuccess(id);
      }
    }
    assert calls[..|calls|] == calls;
    current, circuits := selector.current, selector.circuits;
  }

  // --- Circuits -------------------------------------------------------------

  function Attempts(calls: seq<Call>): seq<Attempt> {
    if calls == [] then []
    else
      Attempts(calls[..|calls| - 1]) +
      match calls[|calls| - 1]
      case SelectCall(_, _) => []
      case FailureCall(id, now) => [FailedAt(id, now)]
      case SuccessCall(id) => [SucceededFor(id)]
  }

  lemma {:induction false} CircuitsRecordAttempts(p: Policy, calls: seq<Call>)
    requires Lawful(p.scoring)
    ensures After(p, FRESH, calls).circuits == Recorded(p.stability.breaker, Attempts(calls))
    decreases |calls|
  {
    if calls == [] {
    } else {
      var init, last := calls[..|calls| - 1], calls[|calls| - 1];
      CircuitsRecordAttempts(p, init);
      if last.SelectCall? {
        SelectKeeps(p.scoring, p.stability, After(p, FRESH, init), last.candidates, last.now);
        assert Attempts(calls) == Attempts(init);
      } else {
        var h := Attempts(calls);
        assert h[..|h| - 1] == Attempts(init);
      }
    }
  }

  /** Whatever happened before, a selected node is not one the history suspends. */
  lemma SelectedIsNotSuspended(p: Policy, calls: seq<Call>, cs: seq<Candidate>, now: nat)
    requires Lawful(p.scoring)
    ensures
      var r := SelectRoute(p.scoring, p.stability, After(p, FRESH, calls), cs, now).0;
      r.Ok? ==> !Suspended(p.stability.breaker, Attempts(calls), r.value.id, now)
  {
    var s := After(p, FRESH, calls);
    var r := SelectRoute(p.scoring, p.stability, s, cs, now).0;
    SelectKeeps(p.scoring, p.stability, s, cs, now);
    CircuitsRecordAttempts(p, calls);
    if r.Ok? {
      OpenExact(p.stability.breaker, Attempts(calls), r.value.id, now);
    }
  }

  // --- Time -----------------------------------------------------------------

  /** The time of the last call that had one. */
  function Latest(calls: seq<Call>, start: nat): nat {
    if calls == [] then start
    else if calls[|calls| - 1].SuccessCall? then Latest(calls[..|calls| - 1], start)
    else calls[|calls| - 1].now
  }

  /** Times begin no earlier than `start` and never go back. */
  predicate Clocked(calls: seq<Call>, start: nat) {
    calls == [] ||
    (var init, last := calls[..|calls| - 1], calls[|calls| - 1];
     Clocked(init, start) && (last.SuccessCall? || last.now >= Latest(init, start)))
  }

  /** The current node was adopted no later than `now`. */
  predicate AdoptedBy(s: State, now: nat) {
    s.current.Some? ==> s.current.value.since <= now
  }

  lemma {:induction false} AdoptedInThePast(p: Policy, s: State, calls: seq<Call>, start: nat)
    requires Lawful(p.scoring)
    requires Clocked(calls, start) && AdoptedBy(s, start)
    ensures AdoptedBy(After(p, s, calls), Latest(calls, start)) && start <= Latest(calls, start)
    decreases |calls|
  {
    if calls == [] {
    } else {
      var init, last := calls[..|calls| - 1], calls[|calls| - 1];
      AdoptedInThePast(p, s, init, start);
      if last.SelectCall? {
        SelectKeeps(p.scoring, p.stability, After(p, s, init), last.candidates, last.now);
      }
    }
  }

  // --- Dwell time -----------------------------------------------------------

  /** No call of these changes the current node. */
  ghost predicate Quiet(p: Policy, s: State, calls: seq<Call>) {
    calls == [] ||
    (var init := calls[..|calls| - 1];
     Quiet(p, s, init) && After(p, s, calls).current == After(p, s, init).current)
  }

  lemma {:induction false} QuietKeeps(p: Policy, s: State, calls: seq<Call>)
    requires Quiet(p, s, calls)
    ensures After(p, s, calls).current == s.current
    decreases |calls|
  {
    if calls == [] {
    } else {
      QuietKeeps(p, s, calls[..|calls| - 1]);
    }
  }

  /**
   * Two consecutive changes of the current node are at least the dwell time
   * apart, unless the node left behind was absent, unavailable or suspended.
   */
  lemma ChangesAreApart(p: Policy, s: State, first: Call, between: seq<Call>, second: Call)
    requires Lawful(p.scoring)
    requires first.SelectCall? && second.SelectCall?
    requires Clocked(between, first.now) && second.now >= Latest(between, first.now)
    requires Step(p, s, first).current != s.current
    requires Quiet(p, Step(p, s, first), between)
    requires
      var before := After(p, Step(p, s, first), between);
      Step(p, before, second).current != before.current
    ensures
      var before := After(p, Step(p, s, first), between);
      second.now - first.now >= p.stability.dwell || !Keepable(before, second.candidates, second.now)
  {
    var s1 := Step(p, s, first);
    var before := After(p, s1, between);
    SelectKeeps(p.scoring, p.stability, s, first.candidates, first.now);
    QuietKeeps(p, s1, between);
    AdoptedInThePast(p, s1, between, first.now);
    if Keepable(before, second.candidates, second.now) {
      VoluntarySwitch(p.scoring, p.stability, before, second.candidates, second.now);
    }
  }

  /** How many calls leave a node that could have been kept. */
  ghost function VoluntarySwitches(p: Policy, s: State, calls: seq<Call>): nat {
    if calls == [] then 0
    else
      var init, last := calls[..|calls| - 1], calls[|calls| - 1];
      var before := After(p, s, init);
      VoluntarySwitches(p, s, init) +
      (if last.SelectCall? && Voluntary(before, last.candidates, last.now, Step(p, before, last)) then 1 else 0)
  }

  lemma {:induction false} SwitchesTakeTime(p: Policy, s: State, calls: seq<Call>, start: nat)
    requires Lawful(p.scoring)
    requires Clocked(calls, start) && AdoptedBy(s, start)
    ensures
      var n, after := VoluntarySwitches(p, s, calls), After(p, s, calls);
      n > 0 ==> after.current.Some? && (n - 1) * p.stability.dwell <= after.current.value.since - start
    decreases |calls|
  {
    if calls == [] {
    } else {
      var init, last := calls[..|calls| - 1], calls[|calls| - 1];
      var before := After(p, s, init);
      SwitchesTakeTime(p, s, init, start);
      AdoptedInThePast(p, s, init, start);
      if last.SelectCall? {
        SelectKeeps(p.scoring, p.stability, before, last.candidates, last.now);
        if Voluntary(before, last.candidates, last.now, Step(p, before, last)) {
          VoluntarySwitch(p.scoring, p.stability, before, last.candidates, last.now);
          OneMore(VoluntarySwitches(p, s, init), p.stability.dwell);
        }
      }
    }
  }

  lemma OneMore(n: nat, dwell: nat)
    ensures n * dwell == (n - 1) * dwell + dwell
  {
  }

  /**
   * In any window of any run, from the first call on, the voluntary switches
   * after the first take at least the dwell time each.
   */
  lemma VoluntarySwitchesBounded(p: Policy, before: seq<Call>, window: seq<Call>, start: nat)
    requires Lawful(p.scoring)
    requires Clocked(before, 0) && Latest(before, 0) <= start && Clocked(window, start)
    ensures
      var n := VoluntarySwitches(p, After(p, FRESH, before), window);
      n > 0 ==> (n - 1) * p.stability.dwell <= Latest(window, start) - start
  {
    var s := After(p, FRESH, before);
    AdoptedInThePast(p, FRESH, before, 0);
    SwitchesTakeTime(p, s, window, start);
    AdoptedInThePast(p, s, window, start);
  }

  // --- Stability under fixed candidates -------------------------------------

  ghost function Changes(p: Policy, s: State, calls: seq<Call>): nat {
    if calls == [] then 0
    else
      var init := calls[..|calls| - 1];
      Changes(p, s, init) + (if After(p, s, calls).current != After(p, s, init).current then 1 else 0)
  }

  /** Every selection is among the same candidates, none of which is suspended at the time. */
  ghost predicate Steady(p: Policy, s: State, calls: seq<Call>, cs: seq<Candidate>) {
    calls == [] ||
    (var init, last := calls[..|calls| - 1], calls[|calls| - 1];
     && Steady(p, s, init, cs)
     && (last.SelectCall? ==>
           last.candidates == cs && forall c :: c in cs ==> !IsOpen(After(p, s, init).circuits, c.id, last.now)))
  }

  lemma {:induction false} EligibleAll(cs: seq<Candidate>, m: Breakers, now: nat)
    requires forall c :: c in cs ==> !IsOpen(m, c.id, now)
    ensures Eligible(cs, m, now) == cs
    decreases |cs|
  {
    if cs == [] {
    } else {
      EligibleAll(cs[..|cs| - 1], m, now);
    }
  }

  /** A selection among nodes that are all eligible keeps the current node or adopts the best of them. */
  lemma SteadyStep(p: Policy, s: State, cs: seq<Candidate>, now: nat)
    requires Lawful(p.scoring) && forall c :: c in cs ==> !IsOpen(s.circuits, c.id, now)
    ensures
      var next := Step(p, s, SelectCall(cs, now)).current;
      next != s.current ==>
        && p.scoring.select(cs).Ok? && next == Some(Current(p.scoring.select(cs).value.id, now))
        && !(s.current.Some? && s.current.value.id == p.scoring.select(cs).value.id)
  {
    EligibleAll(cs, s.circuits, now);
    SelectAdopts(p.scoring, p.stability, s, cs, now);
    if p.scoring.select(cs).Ok? {
      FindMeaning(cs, p.scoring.select(cs).value.id);
    }
  }

  /** From any state, fixed candidates that stay eligible cause at most one change, to the best of them. */
  lemma {:induction false} SteadySettles(p: Policy, s: State, calls: seq<Call>, cs: seq<Candidate>)
    requires Lawful(p.scoring)
    requires Steady(p, s, calls, cs)
    ensures Changes(p, s, calls) <= 1
    ensures Changes(p, s, calls) == 1 ==>
      && p.scoring.select(cs).Ok? && After(p, s, calls).current.Some?
      && After(p, s, calls).current.value.id == p.scoring.select(cs).value.id
    decreases |calls|
  {
    if calls == [] {
    } else {
      var init, last := calls[..|calls| - 1], calls[|calls| - 1];
      SteadySettles(p, s, init, cs);
      if last.SelectCall? {
        SteadyStep(p, After(p, s, init), cs, last.now);
      }
    }
  }

  // --- Repeated IDs ---------------------------------------------------------

  /** In every state a run can reach, and at any time from then on, only available nodes are returned. */
  ghost predicate AlwaysAvailable(p: Policy, cs: seq<Candidate>) {
    forall calls: seq<Call>, now: nat :: Clocked(calls, 0) && now >= Latest(calls, 0) ==> AvailableAt(p, calls, cs, now)
  }

  ghost predicate AvailableAt(p: Policy, calls: seq<Call>, cs: seq<Candidate>, now: nat) {
    var r := SelectRoute(p.scoring, p.stability, After(p, FRESH, calls), cs, now).0;
    r.Ok? ==> r.value.measurements.available
  }

  /** Circuits can open: the cooldown is not empty and fits the clock. */
  predicate Opens(b: BreakerPolicy) {
    0 < b.cooldown <= b.horizon
  }

  function Needed(b: BreakerPolicy): nat {
    if b.threshold == 0 then 1 else b.threshold
  }

  /** Every node of these IDs failing just often enough, all at time zero. */
  function Outage(ids: seq<string>, times: nat): seq<Call> {
    if ids == [] then [] else Failing(Outage(ids[..|ids| - 1], times), ids[|ids| - 1], times)
  }

  /** These calls, and then a node failing so many times. */
  function Failing(calls: seq<Call>, id: string, times: nat): seq<Call> {
    if times == 0 then calls else Failing(calls, id, times - 1) + [FailureCall(id, 0)]
  }

  /** Only failures so far, all at time zero. */
  ghost predicate Idle(p: Policy, calls: seq<Call>) {
    Clocked(calls, 0) && Latest(calls, 0) == 0 && After(p, FRESH, calls).current.None?
  }

  lemma OneFailure(p: Policy, calls: seq<Call>, id: string, other: string)
    requires Idle(p, calls)
    ensures Idle(p, calls + [FailureCall(id, 0)])
    ensures Failures(Attempts(calls + [FailureCall(id, 0)]), other) ==
            Failures(Attempts(calls), other) + if other == id then 1 else 0
  {
    var all := calls + [FailureCall(id, 0)];
    assert all[..|all| - 1] == calls;
    var h := Attempts(all);
    assert h[..|h| - 1] == Attempts(calls);
  }

  lemma {:induction false} FailingCounts(p: Policy, calls: seq<Call>, id: string, times: nat, other: string)
    requires Idle(p, calls)
    ensures Idle(p, Failing(calls, id, times))
    ensures Failures(Attempts(Failing(calls, id, times)), other) ==
            Failures(Attempts(calls), other) + if other == id then times else 0
    decreases times
  {
    if times == 0 {
    } else {
      FailingCounts(p, calls, id, times - 1, other);
      OneFailure(p, Failing(calls, id, times - 1), id, other);
    }
  }

  lemma {:induction false} OutageEffect(p: Policy, ids: seq<string>, times: nat, id: string)
    requires times > 0
    ensures Idle(p, Outage(ids, times))
    ensures id in ids ==> Failures(Attempts(Outage(ids, times)), id) >= times
    ensures id !in ids ==> Failures(Attempts(Outage(ids, times)), id) == 0
    decreases |ids|
  {
    if ids == [] {
    } else {
      var init, last := ids[..|ids| - 1], ids[|ids| - 1];
      assert ids == init + [last];
      OutageEffect(p, init, times, id);
      FailingCounts(p, Outage(init, times), last, times, id);
    }
  }

  /** No failure is later than the last call. */
  lemma {:induction false} FailedInThePast(calls: seq<Call>, id: string)
    requires Clocked(calls, 0) && Failures(Attempts(calls), id) > 0
    ensures LastFailure(Attempts(calls), id) <= Latest(calls, 0)
    decreases |calls|
  {
    if calls == [] {
    } else {
      var init, last := calls[..|calls| - 1], calls[|calls| - 1];
      var h := Attempts(calls);
      if last.SelectCall? {
        assert h == Attempts(init);
        FailedInThePast(init, id);
      } else {
        assert h[..|h| - 1] == Attempts(init);
        if last.id != id { FailedInThePast(init, id); }
      }
    }
  }

  /** The IDs of the other candidates, in order. */
  function OtherIds(cs: seq<Candidate>, id: string): seq<string> {
    if cs == [] then []
    else OtherIds(cs[..|cs| - 1], id) + if cs[|cs| - 1].id == id then [] else [cs[|cs| - 1].id]
  }

  lemma {:induction false} OtherIdsMeaning(cs: seq<Candidate>, id: string)
    ensures id !in OtherIds(cs, id) && forall c :: c in cs && c.id != id ==> c.id in OtherIds(cs, id)
    decreases |cs|
  {
    if cs == [] {
    } else {
      assert cs == cs[..|cs| - 1] + [cs[|cs| - 1]];
      OtherIdsMeaning(cs[..|cs| - 1], id);
    }
  }

  /** A run after which only one ID is eligible, so that its first node is returned. */
  lemma OutageIsolates(p: Policy, cs: seq<Candidate>, id: string)
    requires Lawful(p.scoring) && Selectable(p.scoring, cs, id) && Opens(p.stability.breaker)
    ensures
      var calls := Outage(OtherIds(cs, id), Needed(p.stability.breaker));
      && Clocked(calls, 0) && Latest(calls, 0) == 0 && Find(cs, id).Some?
      && SelectRoute(p.scoring, p.stability, After(p, FRESH, calls), cs, 0).0 == Ok(Find(cs, id).value)
  {
    var b, ids := p.stability.breaker, OtherIds(cs, id);
    var calls := Outage(ids, Needed(b));
    OtherIdsMeaning(cs, id);
    OutageEffect(p, ids, Needed(b), id);
    CircuitsRecordAttempts(p, calls);
    OpenExact(b, Attempts(calls), id, 0);
    forall d | d in cs && d.id != id
      ensures IsOpen(After(p, FRESH, calls).circuits, d.id, 0)
    {
      OutageEffect(p, ids, Needed(b), d.id);
      FailedInThePast(calls, d.id);
      OpenExact(b, Attempts(calls), d.id, 0);
    }
    IsolatedFirst(p.scoring, p.stability, After(p, FRESH, calls), cs, 0, id);
  }

  /**
   * Lookup by ID takes the first match, so with repeated IDs an unavailable node
   * can be returned. Where circuits can open, no run ever returns one if and only
   * if the first node of every ID that can be selected at all is available.
   */
  lemma AvailableExactly(p: Policy, cs: seq<Candidate>)
    requires Lawful(p.scoring) && Grouped(p.scoring) && Opens(p.stability.breaker)
    ensures AlwaysAvailable(p, cs) <==> Decided(p.scoring, cs)
  {
    if Decided(p.scoring, cs) {
      forall calls: seq<Call>, now: nat
        ensures AvailableAt(p, calls, cs, now)
      {
        SelectedIsAvailable(p.scoring, p.stability, After(p, FRESH, calls), cs, now);
      }
    }
    if AlwaysAvailable(p, cs) {
      forall id | Selectable(p.scoring, cs, id)
        ensures Find(cs, id).Some? && Find(cs, id).value.measurements.available
      {
        OutageIsolates(p, cs, id);
        assert AvailableAt(p, Outage(OtherIds(cs, id), Needed(p.stability.breaker)), cs, 0);
      }
    }
  }

  /** Where circuits cannot open, they never are. */
  lemma NeverOpens(p: Policy, calls: seq<Call>, id: string, now: nat)
    requires Lawful(p.scoring) && !Opens(p.stability.breaker) && Clocked(calls, 0) && now >= Latest(calls, 0)
    ensures !IsOpen(After(p, FRESH, calls).circuits, id, now)
  {
    CircuitsRecordAttempts(p, calls);
    OpenExact(p.stability.breaker, Attempts(calls), id, now);
    if Failures(Attempts(calls), id) > 0 { FailedInThePast(calls, id); }
  }

  /** If any node is chosen among all of them, the first of its ID is available. */
  ghost predicate ChosenFirst(z: Scorer, cs: seq<Candidate>) {
    z.select(cs).Ok? ==>
      Find(cs, z.select(cs).value.id).Some? && Find(cs, z.select(cs).value.id).value.measurements.available
  }

  /** Where circuits cannot open, what matters is only the first node of the one ID that is always chosen. */
  lemma AvailableWithoutCircuits(p: Policy, cs: seq<Candidate>)
    requires Lawful(p.scoring) && !Opens(p.stability.breaker)
    ensures AlwaysAvailable(p, cs) <==> ChosenFirst(p.scoring, cs)
  {
    if p.scoring.select(cs).Ok? {
      FindMeaning(cs, p.scoring.select(cs).value.id);
      assert p.scoring.select(cs).value in cs;
    }
    forall calls: seq<Call>, now: nat | Clocked(calls, 0) && now >= Latest(calls, 0)
      ensures Eligible(cs, After(p, FRESH, calls).circuits, now) == cs
    {
      forall c | c in cs
        ensures !IsOpen(After(p, FRESH, calls).circuits, c.id, now)
      {
        NeverOpens(p, calls, c.id, now);
      }
      EligibleAll(cs, After(p, FRESH, calls).circuits, now);
    }
    if AlwaysAvailable(p, cs) {
      assert Clocked([], 0) && Latest([], 0) == 0;
      assert AvailableAt(p, [], cs, 0);
    }
  }
}
