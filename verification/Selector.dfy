/** The stateful route selector (core/routing/src/selector.rs). */
module Selectors {
  import opened Results
  import opened Integers
  import opened Scoring
  import opened Selection
  import opened Circuits

  datatype Stability = Stability(dwell: nat, margin: u32, breaker: BreakerPolicy)

  datatype Current = Current(id: string, since: nat)

  datatype State = State(current: Option<Current>, circuits: Breakers)

  /** What the selector needs of a scoring policy. */
  datatype Scorer = Scorer(
    select: seq<Candidate> -> Result<Candidate, RoutingError>,
    score: Measurements -> Result<u32, RoutingError>)

  function ScorerOf(p: RoutingPolicy): Scorer {
    Scorer(cs => Select(p, cs), m => Score(p, m))
  }

  /** Only an available candidate is chosen, and scores keep to their range. */
  ghost predicate Lawful(z: Scorer) {
    && (forall cs :: z.select(cs).Ok? ==> z.select(cs).value in cs && z.select(cs).value.measurements.available)
    && (forall m :: z.score(m).Ok? ==> z.score(m).value <= QUALITY_MAX)
  }

  lemma PolicyIsLawful(p: RoutingPolicy)
    ensures Lawful(ScorerOf(p))
  {
    var z := ScorerOf(p);
    forall cs | z.select(cs).Ok?
      ensures z.select(cs).value in cs && z.select(cs).value.measurements.available
    {
      SelectExact(p, cs);
    }
    forall m | z.score(m).Ok?
      ensures z.score(m).value <= QUALITY_MAX
    {
      ScoreBounded(p, m);
    }
  }

  /** The first candidate with this ID. */
  function Find(cs: seq<Candidate>, id: string): Option<Candidate> {
    if cs == [] then None else if cs[0].id == id then Some(cs[0]) else Find(cs[1..], id)
  }

  lemma {:induction false} FindMeaning(cs: seq<Candidate>, id: string)
    ensures Find(cs, id).Some? ==> Find(cs, id).value in cs && Find(cs, id).value.id == id
    ensures Find(cs, id).None? ==> forall c :: c in cs ==> c.id != id
    decreases |cs|
  {
    if cs == [] {
    } else {
      assert cs == [cs[0]] + cs[1..];
      FindMeaning(cs[1..], id);
    }
  }

  /** The candidates whose circuit is not open, in order. */
  function Eligible(cs: seq<Candidate>, m: Breakers, now: nat): seq<Candidate> {
    if cs == [] then []
    else
      var init, last := cs[..|cs| - 1], cs[|cs| - 1];
      Eligible(init, m, now) + (if IsOpen(m, last.id, now) then [] else [last])
  }

  lemma {:induction false} EligibleMeaning(cs: seq<Candidate>, m: Breakers, now: nat, c: Candidate)
    ensures c in Eligible(cs, m, now) <==> c in cs && !IsOpen(m, c.id, now)
    decreases |cs|
  {
    if cs == [] {
    } else {
      assert cs == cs[..|cs| - 1] + [cs[|cs| - 1]];
      EligibleMeaning(cs[..|cs| - 1], m, now, c);
    }
  }

  /** The current node may be kept: it is a candidate, available, and its circuit is closed. */
  predicate Keepable(s: State, cs: seq<Candidate>, now: nat) {
    && s.current.Some?
    && Find(cs, s.current.value.id).Some?
    && Find(cs, s.current.value.id).value.measurements.available
    && !IsOpen(s.circuits, s.current.value.id, now)
  }

  /** Long enough on the current node, by a clock that may stand still but counts from zero if it runs backwards. */
  predicate Dwelt(p: Stability, since: nat, now: nat) {
    (if now >= since then now - since else 0) >= p.dwell
  }

  /** Adopts a node unless it is the current one already. */
  function Adopt(s: State, id: string, now: nat): State {
    if s.current.Some? && s.current.value.id == id then s else s.(current := Some(Current(id, now)))
  }

  function SelectRoute(z: Scorer, p: Stability, s: State, cs: seq<Candidate>, now: nat)
    : (Result<Candidate, RoutingError>, State)
  {
    var chosen := z.select(Eligible(cs, s.circuits, now));
    if chosen.Err? then (chosen, s)
    else
      var best := Find(cs, chosen.value.id);
      if best.None? then (Err(NoAvailableNodes), s)
      else if Keepable(s, cs, now) then
        var current := Find(cs, s.current.value.id).value;
        var currentScore := z.score(current.measurements);
        var bestScore := z.score(best.value.measurements);
        if currentScore.Err? then (Err(currentScore.error), s)
        else if bestScore.Err? then (Err(bestScore.error), s)
        else if Dwelt(p, s.current.value.since, now)
                && bestScore.value >= SaturatingAdd(currentScore.value, p.margin)
        then (Ok(best.value), Adopt(s, best.value.id, now))
        else (Ok(current), s)
      else (Ok(best.value), Adopt(s, best.value.id, now))
  }

  // --- What a selection promises --------------------------------------------

  /** What is chosen among the eligible is a candidate with a closed circuit. */
  lemma ChosenIsEligible(z: Scorer, cs: seq<Candidate>, m: Breakers, now: nat)
    requires Lawful(z) && z.select(Eligible(cs, m, now)).Ok?
    ensures
      var c := z.select(Eligible(cs, m, now)).value;
      && c in cs && c.measurements.available && !IsOpen(m, c.id, now)
      && Find(cs, c.id).Some? && Find(cs, c.id).value in cs && Find(cs, c.id).value.id == c.id
  {
    var c := z.select(Eligible(cs, m, now)).value;
    EligibleMeaning(cs, m, now, c);
    FindMeaning(cs, c.id);
  }

  /** A returned node is a candidate with a closed circuit, and the current node from now on. */
  ghost predicate Selected(s: State, cs: seq<Candidate>, now: nat, c: Candidate, next: State) {
    && c in cs && Find(cs, c.id) == Some(c) && !IsOpen(s.circuits, c.id, now)
    && next.current.Some? && next.current.value.id == c.id
    && (next.current == s.current || next.current.value.since == now)
  }

  /** Every call keeps the circuits; a failed one changes nothing at all. */
  lemma SelectKeeps(z: Scorer, p: Stability, s: State, cs: seq<Candidate>, now: nat)
    requires Lawful(z)
    ensures
      var (r, next) := SelectRoute(z, p, s, cs, now);
      next.circuits == s.circuits && (r.Err? ==> next == s) && (r.Ok? ==> Selected(s, cs, now, r.value, next))
  {
    if z.select(Eligible(cs, s.circuits, now)).Ok? {
      ChosenIsEligible(z, cs, s.circuits, now);
    }
    if s.current.Some? {
      FindMeaning(cs, s.current.value.id);
    }
  }

  /** The current node changes only to the chosen ID, and only if that is another one. */
  lemma SelectAdopts(z: Scorer, p: Stability, s: State, cs: seq<Candidate>, now: nat)
    ensures
      var chosen := z.select(Eligible(cs, s.circuits, now));
      var next := SelectRoute(z, p, s, cs, now).1.current;
      next != s.current ==>
        && chosen.Ok? && Find(cs, chosen.value.id).Some?
        && next == Some(Current(Find(cs, chosen.value.id).value.id, now))
        && !(s.current.Some? && s.current.value.id == next.value.id)
  {
  }

  // --- Repeated IDs ---------------------------------------------------------

  /** The candidates of one ID, in order. */
  function Own(cs: seq<Candidate>, id: string): seq<Candidate> {
    if cs == [] then []
    else Own(cs[..|cs| - 1], id) + (if cs[|cs| - 1].id == id then [cs[|cs| - 1]] else [])
  }

  lemma {:induction false} OwnMeaning(cs: seq<Candidate>, id: string, c: Candidate)
    ensures c in Own(cs, id) <==> c in cs && c.id == id
    decreases |cs|
  {
    if cs == [] {
    } else {
      assert cs == cs[..|cs| - 1] + [cs[|cs| - 1]];
      OwnMeaning(cs[..|cs| - 1], id, c);
    }
  }

  /** The nodes of this ID alone would be chosen from. */
  ghost predicate Selectable(z: Scorer, cs: seq<Candidate>, id: string) {
    z.select(Own(cs, id)).Ok?
  }

  /** What is chosen among several would also be chosen among its own ID. */
  ghost predicate GroupedAt(z: Scorer, cs: seq<Candidate>) {
    z.select(cs).Ok? ==> Selectable(z, cs, z.select(cs).value.id)
  }

  ghost predicate Grouped(z: Scorer) {
    forall cs :: GroupedAt(z, cs)
  }

  /** An ID is selectable exactly when it has available nodes, none of them with a loss out of range. */
  lemma SelectableMeaning(p: RoutingPolicy, cs: seq<Candidate>, id: string)
    ensures Selectable(ScorerOf(p), cs, id) <==>
      && p.Valid() && (exists c :: c in cs && c.id == id && c.measurements.available)
      && forall c :: c in cs && c.id == id && c.measurements.available ==> c.measurements.loss <= 10_000
  {
    var own := Own(cs, id);
    forall c
      ensures c in own <==> c in cs && c.id == id
    {
      OwnMeaning(cs, id, c);
    }
    SelectExact(p, own);
  }

  lemma PolicyIsGrouped(p: RoutingPolicy)
    ensures Grouped(ScorerOf(p))
  {
    forall cs
      ensures GroupedAt(ScorerOf(p), cs)
    {
      SelectExact(p, cs);
      if Select(p, cs).Ok? { SelectableMeaning(p, cs, Select(p, cs).value.id); }
    }
  }

  lemma {:induction false} OwnAmongEligible(cs: seq<Candidate>, m: Breakers, now: nat, id: string)
    requires !IsOpen(m, id, now)
    ensures Own(Eligible(cs, m, now), id) == Own(cs, id)
    decreases |cs|
  {
    if cs == [] {
    } else {
      var init, last := cs[..|cs| - 1], cs[|cs| - 1];
      OwnAmongEligible(init, m, now, id);
      var e := Eligible(cs, m, now);
      if IsOpen(m, last.id, now) {
        assert e == Eligible(init, m, now);
      } else {
        assert e[..|e| - 1] == Eligible(init, m, now);
      }
    }
  }

  /** With every other circuit open only the nodes of one ID are eligible. */
  lemma {:induction false} EligibleIsOwn(cs: seq<Candidate>, m: Breakers, now: nat, id: string)
    requires !IsOpen(m, id, now)
    requires forall c :: c in cs && c.id != id ==> IsOpen(m, c.id, now)
    ensures Eligible(cs, m, now) == Own(cs, id)
    decreases |cs|
  {
    if cs == [] {
    } else {
      assert cs[|cs| - 1] in cs;
      EligibleIsOwn(cs[..|cs| - 1], m, now, id);
    }
  }

  /** The first node of every selectable ID is available. */
  ghost predicate Decided(z: Scorer, cs: seq<Candidate>) {
    forall id :: Selectable(z, cs, id) ==> Find(cs, id).Some? && Find(cs, id).value.measurements.available
  }

  lemma DistinctIdsDecide(z: Scorer, cs: seq<Candidate>)
    requires Lawful(z) && DistinctIds(cs)
    ensures Decided(z, cs)
  {
    forall id | Selectable(z, cs, id)
      ensures Find(cs, id).Some? && Find(cs, id).value.measurements.available
    {
      var c := z.select(Own(cs, id)).value;
      OwnMeaning(cs, id, c);
      FindMeaning(cs, id);
      var i :| 0 <= i < |cs| && cs[i] == c;
      var j :| 0 <= j < |cs| && cs[j] == Find(cs, id).value;
    }
  }

  lemma SelectedIsAvailable(z: Scorer, p: Stability, s: State, cs: seq<Candidate>, now: nat)
    requires Lawful(z) && Grouped(z) && Decided(z, cs)
    ensures
      var r := SelectRoute(z, p, s, cs, now).0;
      r.Ok? ==> r.value.measurements.available
  {
    var eligible := Eligible(cs, s.circuits, now);
    if z.select(eligible).Ok? {
      var id := z.select(eligible).value.id;
      ChosenIsEligible(z, cs, s.circuits, now);
      assert GroupedAt(z, eligible);
      OwnAmongEligible(cs, s.circuits, now, id);
      assert Selectable(z, cs, id);
    }
  }

  /**
   * With every other circuit open and no current node, the first node of the
   * remaining ID is returned, available or not.
   */
  lemma IsolatedFirst(z: Scorer, p: Stability, s: State, cs: seq<Candidate>, now: nat, id: string)
    requires Lawful(z) && Selectable(z, cs, id)
    requires s.current.None? && !IsOpen(s.circuits, id, now)
    requires forall d :: d in cs && d.id != id ==> IsOpen(s.circuits, d.id, now)
    ensures Find(cs, id).Some?
    ensures SelectRoute(z, p, s, cs, now).0 == Ok(Find(cs, id).value)
  {
    EligibleIsOwn(cs, s.circuits, now, id);
    OwnMeaning(cs, id, z.select(Own(cs, id)).value);
    FindMeaning(cs, id);
  }

  /** A fresh selector given an unavailable and an available node of one ID returns the unavailable one. */
  lemma RepeatedIdIsReturnedUnavailable(scoring: RoutingPolicy, p: Stability, id: string, m: Measurements)
    requires scoring.Valid() && m.available && m.loss <= 10_000
    ensures
      var cs := [Candidate(id, m.(available := false)), Candidate(id, m)];
      SelectRoute(ScorerOf(scoring), p, State(None, map[]), cs, 0).0 == Ok(cs[0])
  {
    var cs := [Candidate(id, m.(available := false)), Candidate(id, m)];
    PolicyIsLawful(scoring);
    SelectableMeaning(scoring, cs, id);
    assert cs[1] in cs;
    IsolatedFirst(ScorerOf(scoring), p, State(None, map[]), cs, 0, id);
  }

  // --- Switches -------------------------------------------------------------

  /** The first candidate of an ID: the one at a position before which no other has it. */
  ghost predicate FirstWith(cs: seq<Candidate>, id: string, c: Candidate) {
    exists i :: 0 <= i < |cs| && cs[i] == c && c.id == id && forall j :: 0 <= j < i ==> cs[j].id != id
  }

  lemma {:induction false} FindFirst(cs: seq<Candidate>, id: string, c: Candidate)
    ensures Find(cs, id) == Some(c) <==> FirstWith(cs, id, c)
    decreases |cs|
  {
    if cs == [] {
    } else if cs[0].id == id {
      if FirstWith(cs, id, c) { assert cs[0] == c; }
    } else {
      var rest := cs[1..];
      FindFirst(rest, id, c);
      if FirstWith(rest, id, c) {
        var i :| 0 <= i < |rest| && rest[i] == c && c.id == id && forall j :: 0 <= j < i ==> rest[j].id != id;
        forall j | 0 <= j < i + 1 ensures cs[j].id != id { assert j > 0 ==> rest[j - 1] == cs[j]; }
        assert cs[i + 1] == c;
      }
      if FirstWith(cs, id, c) {
        var i :| 0 <= i < |cs| && cs[i] == c && c.id == id && forall j :: 0 <= j < i ==> cs[j].id != id;
        forall j | 0 <= j < i - 1 ensures rest[j].id != id { assert rest[j] == cs[j + 1]; }
        assert rest[i - 1] == c;
      }
    }
  }

  /** Nothing to choose among the eligible candidates is the answer, and changes nothing. */
  lemma NothingToChoose(z: Scorer, p: Stability, s: State, cs: seq<Candidate>, now: nat)
    requires z.select(Eligible(cs, s.circuits, now)).Err?
    ensures SelectRoute(z, p, s, cs, now) == (Err(z.select(Eligible(cs, s.circuits, now)).error), s)
  {
  }

  /**
   * With a current node that is listed, available and not suspended, exactly when
   * the best node is another one, the dwell time has passed and its score is
   * higher by the margin, the selector switches to it. Otherwise it stays.
   */
  lemma SwitchExactly(z: Scorer, p: Stability, s: State, cs: seq<Candidate>, now: nat,
                      best: Candidate, was: Candidate)
    requires Lawful(z) && z.select(Eligible(cs, s.circuits, now)).Ok?
    requires FirstWith(cs, z.select(Eligible(cs, s.circuits, now)).value.id, best)
    requires s.current.Some? && FirstWith(cs, s.current.value.id, was)
    requires was.measurements.available && !IsOpen(s.circuits, was.id, now)
    ensures
      var (r, next) := SelectRoute(z, p, s, cs, now);
      var (old_, new_) := (z.score(was.measurements), z.score(best.measurements));
      if old_.Err? then r == Err(old_.error) && next == s
      else if new_.Err? then r == Err(new_.error) && next == s
      else
        var waited := p.dwell == 0 || now - s.current.value.since >= p.dwell;
        var due := waited && new_.value >= old_.value + p.margin;
        && (next.current != s.current <==> due && best.id != was.id)
        && r == Ok(if due then best else was)
        && next == if due && best.id != was.id then s.(current := Some(Current(best.id, now))) else s
  {
    FindFirst(cs, s.current.value.id, was);
    FindFirst(cs, z.select(Eligible(cs, s.circuits, now)).value.id, best);
  }

  /** Without such a current node the best one is returned and is current from now on. */
  lemma ReplacedExactly(z: Scorer, p: Stability, s: State, cs: seq<Candidate>, now: nat, best: Candidate)
    requires z.select(Eligible(cs, s.circuits, now)).Ok?
    requires FirstWith(cs, z.select(Eligible(cs, s.circuits, now)).value.id, best)
    requires s.current.None? || forall c :: FirstWith(cs, s.current.value.id, c) ==>
      !c.measurements.available || IsOpen(s.circuits, c.id, now)
    ensures
      var since := if s.current.Some? && s.current.value.id == best.id then s.current.value.since else now;
      SelectRoute(z, p, s, cs, now) == (Ok(best), s.(current := Some(Current(best.id, since))))
  {
    FindFirst(cs, z.select(Eligible(cs, s.circuits, now)).value.id, best);
    if s.current.Some? && Find(cs, s.current.value.id).Some? {
      var c := Find(cs, s.current.value.id).value;
      FindFirst(cs, s.current.value.id, c);
    }
  }

  /** A switch away from a node that could have been kept. */
  ghost predicate Voluntary(s: State, cs: seq<Candidate>, now: nat, next: State) {
    Keepable(s, cs, now) && next.current != s.current
  }

  /** The new node beats the old one by the margin. */
  ghost predicate Gains(z: Scorer, p: Stability, was: Candidate, is_: Candidate) {
    && z.score(was.measurements).Ok? && z.score(is_.measurements).Ok?
    && z.score(is_.measurements).value >= z.score(was.measurements).value + p.margin
  }

  /**
   * A voluntary switch waits for the dwell time and gains at least the margin:
   * the saturating sum never shortens it, since no score reaches the maximum.
   */
  lemma VoluntarySwitch(z: Scorer, p: Stability, s: State, cs: seq<Candidate>, now: nat)
    requires Lawful(z) && Voluntary(s, cs, now, SelectRoute(z, p, s, cs, now).1)
    ensures
      var (r, next) := SelectRoute(z, p, s, cs, now);
      && r.Ok? && next.current == Some(Current(r.value.id, now)) && r.value.id != s.current.value.id
      && Dwelt(p, s.current.value.since, now)
      && Gains(z, p, Find(cs, s.current.value.id).value, r.value)
  {
  }

  /** A margin above the score range is never met. */
  lemma ExcessiveMarginPins(z: Scorer, p: Stability, s: State, cs: seq<Candidate>, now: nat)
    requires Lawful(z) && p.margin > QUALITY_MAX
    ensures !Voluntary(s, cs, now, SelectRoute(z, p, s, cs, now).1)
  {
  }

  // --- The selector ---------------------------------------------------------

  /** Scans for the first candidate with an ID. */
  method FindCandidate(cs: seq<Candidate>, id: string) returns (r: Option<Candidate>)
    ensures r == Find(cs, id)
  {
    for i := 0 to |cs|
      invariant Find(cs, id) == Find(cs[i..], id)
    {
      assert cs[i..][1..] == cs[i + 1..];
      if cs[i].id == id { return Some(cs[i]); }
    }
    r := None;
  }

  class RouteSelector {
    const scoring: RoutingPolicy
    const stability: Stability
    var current: Option<Current>
    var circuits: Breakers

    constructor (scoring: RoutingPolicy, stability: Stability)
      ensures this.scoring == scoring && this.stability == stability && Value() == State(None, map[])
    {
      this.scoring, this.stability := scoring, stability;
      current, circuits := None, map[];
    }

    function Value(): State
      reads this
    {
      State(current, circuits)
    }

    method CollectEligible(cs: seq<Candidate>, now: nat) returns (eligible: seq<Candidate>)
      ensures eligible == Eligible(cs, circuits, now)
    {
      eligible := [];
      for i := 0 to |cs|
        invariant eligible == Eligible(cs[..i], circuits, now)
      {
        assert cs[..i + 1][..i] == cs[..i];
        if !IsOpen(circuits, cs[i].id, now) { eligible := eligible + [cs[i]]; }
      }
      assert cs[..|cs|] == cs;
    }

    /** Keeps the current node unless it cannot be kept, or switching is due and pays. */
    method Choose(cs: seq<Candidate>, now: nat) returns (r: Result<Candidate, RoutingError>)
      modifies this`current
      ensures (r, Value()) == SelectRoute(ScorerOf(scoring), stability, old(Value()), cs, now)
    {
      var eligible := CollectEligible(cs, now);
      var chosen := SelectNode(scoring, eligible);
      if chosen.Err? { return chosen; }
      var best := FindCandidate(cs, chosen.value.id);
      if best.None? { return Err(NoAvailableNodes); }
      if current.Some? {
        var candidate := FindCandidate(cs, current.value.id);
        if candidate.Some? && candidate.value.measurements.available && !IsOpen(circuits, current.value.id, now) {
          var currentScore :- Score(scoring, candidate.value.measurements);
          var bestScore :- Score(scoring, best.value.measurements);
          if !Dwelt(stability, current.value.since, now) || bestScore < SaturatingAdd(currentScore, stability.margin) {
            return Ok(candidate.value);
          }
        }
      }
      if current.None? || current.value.id != best.value.id {
        current := Some(Current(best.value.id, now));
      }
      r := Ok(best.value);
    }

    method RecordFailure(id: string, now: nat)
      modifies this`circuits
      ensures circuits == Failed(stability.breaker, old(circuits), id, now)
    {
      var state := if id in circuits then circuits[id] else Circuit(0, None);
      state := state.(failures := SaturatingAdd(state.failures, 1));
      if state.failures >= stability.breaker.threshold {
        state := state.(openUntil := CheckedAdd(stability.breaker, now));
      }
      circuits := circuits[id := state];
    }

    method RecordSuccess(id: string)
      modifies this`circuits
      ensures circuits == Succeeded(old(circuits), id)
    {
      circuits := circuits - {id};
    }
  }
}
