/** Choosing the best of the available nodes (core/routing/src/lib.rs). */
module Selection {
  import opened Results
  import opened Integers
  import opened Scoring

  // --- The order of node IDs ------------------------------------------------

  /** Lexicographic order by code point, which is the byte order of the UTF-8 text. */
  predicate Before(a: string, b: string) {
    b != "" && (a == "" || a[0] < b[0] || (a[0] == b[0] && Before(a[1..], b[1..])))
  }

  lemma {:induction false} BeforeTotal(a: string, b: string)
    ensures a == b || Before(a, b) || Before(b, a)
    ensures !(Before(a, b) && Before(b, a)) && !Before(a, a)
    decreases |a|
  {
    if a == "" {
    } else {
      BeforeTotal(a[1..], a[1..]);
      if b != "" && a[0] == b[0] {
        BeforeTotal(a[1..], b[1..]);
        assert a == [a[0]] + a[1..] && b == [b[0]] + b[1..];
      }
    }
  }

  lemma {:induction false} BeforeTransitive(a: string, b: string, c: string)
    requires Before(a, b) && Before(b, c)
    ensures Before(a, c)
    decreases |a|
  {
    if a != "" && a[0] == b[0] == c[0] {
      BeforeTransitive(a[1..], b[1..], c[1..]);
    }
  }

  // --- Rank -----------------------------------------------------------------

  predicate Scored(p: RoutingPolicy, c: Candidate) {
    Scorable(p, c.measurements)
  }

  function ScoreOf(p: RoutingPolicy, c: Candidate): u32
    requires Scored(p, c)
  {
    Score(p, c.measurements).value
  }

  /** A higher score, or the same score and the smaller ID. */
  predicate Outranks(p: RoutingPolicy, a: Candidate, b: Candidate)
    requires Scored(p, a) && Scored(p, b)
  {
    ScoreOf(p, a) > ScoreOf(p, b) || (ScoreOf(p, a) == ScoreOf(p, b) && Before(a.id, b.id))
  }

  lemma NotOutrankedTransitive(p: RoutingPolicy, a: Candidate, b: Candidate, c: Candidate)
    requires Scored(p, a) && Scored(p, b) && Scored(p, c)
    requires !Outranks(p, b, a) && !Outranks(p, c, b)
    ensures !Outranks(p, c, a)
  {
    BeforeTotal(a.id, b.id);
    BeforeTotal(b.id, c.id);
    BeforeTotal(a.id, c.id);
    if Before(c.id, a.id) && Before(a.id, b.id) { BeforeTransitive(c.id, a.id, b.id); }
    if Before(a.id, b.id) && Before(b.id, c.id) { BeforeTransitive(a.id, b.id, c.id); }
  }

  /** Two nodes neither of which outranks the other have the same score and ID. */
  lemma RankIsAntisymmetric(p: RoutingPolicy, a: Candidate, b: Candidate)
    requires Scored(p, a) && Scored(p, b) && !Outranks(p, a, b) && !Outranks(p, b, a)
    ensures ScoreOf(p, a) == ScoreOf(p, b) && a.id == b.id
  {
    BeforeTotal(a.id, b.id);
  }

  // --- Selection ------------------------------------------------------------

  /** The best node so far: unavailable nodes are skipped, the first error stops the scan. */
  function Scan(p: RoutingPolicy, cs: seq<Candidate>): Result<Option<Candidate>, RoutingError> {
    if cs == [] then Ok(None)
    else
      var best :- Scan(p, cs[..|cs| - 1]);
      Improve(p, best, cs[|cs| - 1])
  }

  function Improve(p: RoutingPolicy, best: Option<Candidate>, c: Candidate): Result<Option<Candidate>, RoutingError> {
    if !c.measurements.available then Ok(best)
    else
      var score :- Score(p, c.measurements);
      if best.Some? && Scored(p, best.value) && !Outranks(p, c, best.value) then Ok(best) else Ok(Some(c))
  }

  function Select(p: RoutingPolicy, cs: seq<Candidate>): Result<Candidate, RoutingError> {
    var best :- Scan(p, cs);
    if best.None? then Err(NoAvailableNodes) else Ok(best.value)
  }

  /** The loop over the ranked nodes. */
  method SelectNode(p: RoutingPolicy, cs: seq<Candidate>) returns (r: Result<Candidate, RoutingError>)
    ensures r == Select(p, cs)
  {
    var best: Option<Candidate> := None;
    for i := 0 to |cs|
      invariant Scan(p, cs[..i]) == Ok(best)
    {
      assert cs[..i + 1][..i] == cs[..i];
      var next := Improve(p, best, cs[i]);
      if next.Err? {
        ScanStops(p, cs, i + 1);
        return Err(next.error);
      }
      best := next.value;
    }
    assert cs[..|cs|] == cs;
    r := if best.None? then Err(NoAvailableNodes) else Ok(best.value);
  }

  lemma {:induction false} ScanStops(p: RoutingPolicy, cs: seq<Candidate>, i: nat)
    requires i <= |cs| && Scan(p, cs[..i]).Err?
    ensures Scan(p, cs) == Scan(p, cs[..i])
    decreases |cs|
  {
    if i == |cs| {
      assert cs[..i] == cs;
    } else {
      assert cs[..|cs| - 1][..i] == cs[..i];
      ScanStops(p, cs[..|cs| - 1], i);
    }
  }

  ghost predicate AnyAvailable(cs: seq<Candidate>) {
    exists c :: c in cs && c.measurements.available
  }

  ghost predicate LossInRange(cs: seq<Candidate>) {
    forall c :: c in cs && c.measurements.available ==> c.measurements.loss <= 10_000
  }

  /** Available, in the list, and outranked by no available node of it. */
  ghost predicate IsBest(p: RoutingPolicy, cs: seq<Candidate>, c: Candidate) {
    && c in cs && Scored(p, c)
    && forall d :: d in cs && Scored(p, d) ==> !Outranks(p, d, c)
  }

  /** What the scan has found, and exactly when it stopped instead. */
  lemma {:induction false} ScanExact(p: RoutingPolicy, cs: seq<Candidate>)
    ensures !AnyAvailable(cs) ==> Scan(p, cs) == Ok(None)
    ensures AnyAvailable(cs) && !p.Valid() ==> Scan(p, cs) == Err(InvalidPolicy)
    ensures AnyAvailable(cs) && p.Valid() && !LossInRange(cs) ==> Scan(p, cs) == Err(InvalidMeasurements)
    ensures AnyAvailable(cs) && p.Valid() && LossInRange(cs) ==>
      Scan(p, cs).Ok? && Scan(p, cs).value.Some? && IsBest(p, cs, Scan(p, cs).value.value)
    decreases |cs|
  {
    if cs == [] {
    } else {
      var init, last := cs[..|cs| - 1], cs[|cs| - 1];
      assert cs == init + [last];
      assert forall c :: c in cs <==> c in init || c == last;
      ScanExact(p, init);
      ScoreBounded(p, last.measurements);
      if AnyAvailable(init) && p.Valid() && LossInRange(init) && Scored(p, last) {
        BestGrows(p, init, last, Scan(p, init).value.value);
      } else if !AnyAvailable(init) && Scored(p, last) {
        BestAlone(p, init, last);
      }
    }
  }

  lemma BestGrows(p: RoutingPolicy, init: seq<Candidate>, last: Candidate, best: Candidate)
    requires IsBest(p, init, best) && Scored(p, last)
    ensures IsBest(p, init + [last], if Outranks(p, last, best) then last else best)
  {
    BeforeTotal(last.id, last.id);
    if Outranks(p, last, best) {
      BeforeTotal(last.id, best.id);
      forall d | d in init && Scored(p, d)
        ensures !Outranks(p, d, last)
      {
        NotOutrankedTransitive(p, last, best, d);
      }
    }
  }

  lemma BestAlone(p: RoutingPolicy, init: seq<Candidate>, last: Candidate)
    requires !AnyAvailable(init) && Scored(p, last)
    ensures IsBest(p, init + [last], last)
  {
    BeforeTotal(last.id, last.id);
  }

  /** Selection fails exactly as stated, and otherwise yields the best available node. */
  lemma SelectExact(p: RoutingPolicy, cs: seq<Candidate>)
    ensures Select(p, cs) == Err(NoAvailableNodes) <==> !AnyAvailable(cs)
    ensures Select(p, cs) == Err(InvalidPolicy) <==> AnyAvailable(cs) && !p.Valid()
    ensures Select(p, cs) == Err(InvalidMeasurements) <==> AnyAvailable(cs) && p.Valid() && !LossInRange(cs)
    ensures Select(p, cs).Ok? <==> AnyAvailable(cs) && p.Valid() && LossInRange(cs)
    ensures Select(p, cs).Ok? ==> IsBest(p, cs, Select(p, cs).value)
  {
    ScanExact(p, cs);
  }

  ghost predicate DistinctIds(cs: seq<Candidate>) {
    forall i, j :: 0 <= i < j < |cs| ==> cs[i].id != cs[j].id
  }

  /**
   * The answer does not depend on the order of the candidates: the error is the
   * same, and so are the chosen ID and its score. When IDs are distinct, so is
   * the chosen node.
   */
  lemma SelectIgnoresOrder(p: RoutingPolicy, a: seq<Candidate>, b: seq<Candidate>)
    requires multiset(a) == multiset(b)
    ensures Select(p, a).Ok? == Select(p, b).Ok?
    ensures Select(p, a).Err? ==> Select(p, a) == Select(p, b)
    ensures Select(p, a).Ok? ==>
      && Scored(p, Select(p, a).value) && Scored(p, Select(p, b).value)
      && Select(p, a).value.id == Select(p, b).value.id
      && ScoreOf(p, Select(p, a).value) == ScoreOf(p, Select(p, b).value)
    ensures DistinctIds(a) ==> Select(p, a) == Select(p, b)
  {
    forall c
      ensures c in a <==> c in b
    {
      assert c in a <==> c in multiset(a);
      assert c in b <==> c in multiset(b);
    }
    SelectExact(p, a);
    SelectExact(p, b);
    if Select(p, a).Ok? {
      RankIsAntisymmetric(p, Select(p, a).value, Select(p, b).value);
    }
  }
}
