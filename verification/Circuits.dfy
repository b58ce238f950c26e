/** Circuit breakers and the history they stand for (core/routing/src/selector.rs). */
module Circuits {
  import opened Results
  import opened Integers

  datatype Circuit = Circuit(failures: u32, openUntil: Option<nat>)

  type Breakers = map<string, Circuit>

  /** When a circuit opens and for how long; `horizon` is the last representable instant. */
  datatype BreakerPolicy = BreakerPolicy(threshold: u32, cooldown: nat, horizon: nat)

  function CheckedAdd(p: BreakerPolicy, now: nat): Option<nat> {
    if now + p.cooldown <= p.horizon then Some(now + p.cooldown) else None
  }

  function Failed(p: BreakerPolicy, m: Breakers, id: string, now: nat): Breakers {
    var was := if id in m then m[id] else Circuit(0, None);
    var failures := SaturatingAdd(was.failures, 1);
    m[id := Circuit(failures, if failures >= p.threshold then CheckedAdd(p, now) else was.openUntil)]
  }

  function Succeeded(m: Breakers, id: string): Breakers {
    m - {id}
  }

  predicate IsOpen(m: Breakers, id: string, now: nat) {
    id in m && m[id].openUntil.Some? && now < m[id].openUntil.value
  }

  // --- The history ----------------------------------------------------------

  datatype Attempt = FailedAt(id: string, time: nat) | SucceededFor(id: string)

  function Recorded(p: BreakerPolicy, h: seq<Attempt>): Breakers {
    if h == [] then map[]
    else
      var m := Recorded(p, h[..|h| - 1]);
      match h[|h| - 1]
      case FailedAt(id, time) => Failed(p, m, id, time)
      case SucceededFor(id) => Succeeded(m, id)
  }

  /** Failures of a node since its last success. */
  function Failures(h: seq<Attempt>, id: string): nat {
    if h == [] then 0
    else if h[|h| - 1].id != id then Failures(h[..|h| - 1], id)
    else if h[|h| - 1].SucceededFor? then 0
    else Failures(h[..|h| - 1], id) + 1
  }

  /** When a node failed last. */
  function LastFailure(h: seq<Attempt>, id: string): nat
    requires Failures(h, id) > 0
  {
    if h[|h| - 1].id != id then LastFailure(h[..|h| - 1], id) else h[|h| - 1].time
  }

  /** Enough failures since the last success, and the last of them is within the cooldown. */
  predicate Suspended(p: BreakerPolicy, h: seq<Attempt>, id: string, now: nat) {
    var needed := if p.threshold == 0 then 1 else p.threshold;
    && Failures(h, id) >= needed
    && LastFailure(h, id) + p.cooldown <= p.horizon
    && now < LastFailure(h, id) + p.cooldown
  }

  /** The map holds the saturated count and the deadline set by the last failure that counted. */
  lemma {:induction false} RecordedExact(p: BreakerPolicy, h: seq<Attempt>, id: string)
    ensures id in Recorded(p, h) <==> Failures(h, id) > 0
    ensures Failures(h, id) > 0 ==>
      Recorded(p, h)[id] == Circuit(Min(Failures(h, id), U32_MAX),
                                    if Failures(h, id) >= p.threshold then CheckedAdd(p, LastFailure(h, id)) else None)
    decreases |h|
  {
    if h == [] {
    } else {
      RecordedExact(p, h[..|h| - 1], id);
    }
  }

  /** A circuit is open if and only if its history says so, despite the saturating counter. */
  lemma OpenExact(p: BreakerPolicy, h: seq<Attempt>, id: string, now: nat)
    ensures IsOpen(Recorded(p, h), id, now) <==> Suspended(p, h, id, now)
  {
    RecordedExact(p, h, id);
  }

  /** A failure whose cooldown ends beyond the last instant leaves the circuit closed at once. */
  lemma CooldownBeyondTheClock(id: string)
    ensures
      var p, h := BreakerPolicy(1, 10, 5), [FailedAt(id, 0)];
      Failures(h, id) >= p.threshold && 0 < LastFailure(h, id) + p.cooldown && !IsOpen(Recorded(p, h), id, 0)
  {
    OpenExact(BreakerPolicy(1, 10, 5), [FailedAt(id, 0)], id, 0);
    assert Failures([FailedAt(id, 0)], id) == 1;
  }

  /** Only failures open a circuit, and it closes by itself after the cooldown. */
  lemma ClosedAfterCooldown(p: BreakerPolicy, h: seq<Attempt>, id: string, now: nat)
    requires Failures(h, id) > 0 ==> now >= LastFailure(h, id) + p.cooldown
    ensures !IsOpen(Recorded(p, h), id, now)
  {
    OpenExact(p, h, id, now);
  }

  /** Outcomes of other nodes never matter. */
  lemma {:induction false} OthersDoNotMatter(p: BreakerPolicy, h: seq<Attempt>, e: Attempt, id: string, now: nat)
    requires e.id != id
    ensures IsOpen(Recorded(p, h + [e]), id, now) <==> IsOpen(Recorded(p, h), id, now)
  {
  }
}
