/** The token bucket with a concurrency cap
    (packages/llm-client/llm_client/rate_limiter.py, class _Bucket). */
module TokenBucket {
  import opened Basics

  function Max(a: real, b: real): real {
    if a < b then b else a
  }

  /** How `acquire` ends: with a permit and a place in the schedule; without a permit to take,
      still waiting for one; cancelled in its sleep; or with a ZeroDivisionError. */
  datatype Outcome = Acquired | Waiting | Cancelled | RateIsZero

  class Bucket {
    const rps: real
    var nextReady: real
    /** The semaphore's counter, if there is a semaphore. */
    var permits: Option<nat>

    /** No cap, and a cap of zero, both mean no semaphore. */
    constructor (rps: real, concurrency: Option<nat>)
      ensures this.rps == rps && nextReady == 0.0
      ensures permits.None? <==> concurrency.None? || concurrency.value == 0
      ensures permits.Some? ==> permits == concurrency
    {
      this.rps := rps;
      nextReady := 0.0;
      permits := if concurrency == Some(0) then None else concurrency;
    }

    /** `acquire`, up to the end of its sleep. `cancelled`: the caller is cancelled while it
        sleeps. A call that fails or is cancelled leaves the permits as they were, and only a
        call that got as far as its sleep has a place in the schedule. */
    method Acquire(now: real, cancelled: bool) returns (outcome: Outcome, wait: real)
      modifies this
      ensures outcome.Waiting? <==> old(permits) == Some(0)
      ensures outcome.RateIsZero? <==> old(permits) != Some(0) && rps == 0.0
      ensures outcome.Cancelled? <==> old(permits) != Some(0) && rps != 0.0 && cancelled && wait > 0.0
      ensures outcome.Acquired? || outcome.Cancelled? ==>
                nextReady == Max(now, old(nextReady)) + 1.0 / rps && wait == Max(now, old(nextReady)) - now
      ensures outcome.Waiting? || outcome.RateIsZero? ==> nextReady == old(nextReady) && wait >= 0.0
      ensures permits == if outcome.Acquired? && old(permits).Some? then Some(old(permits).value - 1) else old(permits)
    {
      wait := 0.0;
      if permits == Some(0) {
        return Waiting, wait;
      }
      if permits.Some? {
        permits := Some(permits.value - 1);
      }
      wait := Max(0.0, nextReady - now);
      if rps == 0.0 {
        Release();
        return RateIsZero, wait;
      }
      nextReady := Max(now, nextReady) + 1.0 / rps;
      outcome := Acquired;
      if wait > 0.0 && cancelled {
        Release();
        outcome := Cancelled;
      }
    }

    method Release()
      modifies this
      ensures permits == if old(permits).Some? then Some(old(permits).value + 1) else None
      ensures nextReady == old(nextReady)
    {
      if permits.Some? {
        permits := Some(permits.value + 1);
      }
    }
  }

  // ----- The schedule -----

  /** next_ready after the first n arrivals. */
  ghost function NextReady(arrivals: seq<real>, rps: real, n: nat): real
    requires rps > 0.0 && n <= |arrivals|
  {
    if n == 0 then 0.0 else Max(arrivals[n - 1], NextReady(arrivals, rps, n - 1)) + 1.0 / rps
  }

  /** When arrival n may start: its arrival plus the wait it is told. */
  ghost function Start(arrivals: seq<real>, rps: real, n: nat): real
    requires rps > 0.0 && n < |arrivals|
  {
    Max(arrivals[n], NextReady(arrivals, rps, n))
  }

  lemma {:induction false} Spacing(arrivals: seq<real>, rps: real, i: nat, j: nat)
    requires rps > 0.0 && i <= j < |arrivals|
    ensures Start(arrivals, rps, j) - Start(arrivals, rps, i) >= (j - i) as real * (1.0 / rps)
    decreases j
  {
    if i < j {
      Spacing(arrivals, rps, i, j - 1);
      var p := 1.0 / rps;
      assert Start(arrivals, rps, j) >= Start(arrivals, rps, j - 1) + p;
      assert (j - i) as real * p == (j - 1 - i) as real * p + p;
    }
  }

  lemma Reciprocal(k: int, rps: real, length: real)
    requires rps > 0.0 && k as real * (1.0 / rps) <= length
    ensures k <= (length * rps).Floor
  {
    var p := 1.0 / rps;
    assert p * rps == 1.0;
    assert k as real * p * rps <= length * rps;
    assert k as real * p * rps == k as real * (p * rps);
  }

  ghost function Started(arrivals: seq<real>, rps: real, lo: real, hi: real): set<int>
    requires rps > 0.0
  {
    set n | 0 <= n < |arrivals| && lo <= Start(arrivals, rps, n) <= hi
  }

  lemma PairApart(arrivals: seq<real>, rps: real, lo: real, length: real, i: nat, j: nat)
    requires rps > 0.0 && i <= j < |arrivals|
    requires lo <= Start(arrivals, rps, i) && Start(arrivals, rps, j) <= lo + length
    ensures j - i <= (length * rps).Floor
  {
    Spacing(arrivals, rps, i, j);
    Reciprocal(j - i, rps, length);
  }

  /** An interval of the given length holds at most floor(length * rps) + 1 scheduled
      starts, cancelled ones included. */
  lemma IntervalBound(arrivals: seq<real>, rps: real, lo: real, length: real)
    requires rps > 0.0 && length >= 0.0
    ensures |Started(arrivals, rps, lo, lo + length)| <= (length * rps).Floor + 1
  {
    var s := Started(arrivals, rps, lo, lo + length);
    var k := (length * rps).Floor;
    Reciprocal(0, rps, length);
    forall i, j | i in s && j in s ensures j - i <= k {
      if i <= j { PairApart(arrivals, rps, lo, length, i, j); }
    }
    NarrowSet(s, k);
  }

  /** A way of starting the calls, in arrival order, not before they arrive and at
      least 1/rps apart. */
  ghost predicate Admissible(arrivals: seq<real>, rps: real, u: seq<real>)
    requires rps > 0.0
  {
    && |u| == |arrivals|
    && (u != [] ==> u[0] >= 0.0)
    && (forall n :: 0 <= n < |u| ==> u[n] >= arrivals[n])
    && (forall n :: 0 < n < |u| ==> u[n] - u[n - 1] >= 1.0 / rps)
  }

  ghost function Starts(arrivals: seq<real>, rps: real): seq<real>
    requires rps > 0.0
  {
    seq(|arrivals|, n requires 0 <= n < |arrivals| => Start(arrivals, rps, n))
  }

  lemma {:induction false} StartIsEarliest(arrivals: seq<real>, rps: real, u: seq<real>, n: nat)
    requires rps > 0.0 && Admissible(arrivals, rps, u) && n < |arrivals|
    ensures Start(arrivals, rps, n) <= u[n]
  {
    if n > 0 { StartIsEarliest(arrivals, rps, u, n - 1); }
  }

  /** The schedule is admissible, and pointwise the earliest one that is. */
  lemma ScheduleIsLeast(arrivals: seq<real>, rps: real)
    requires rps > 0.0
    ensures Admissible(arrivals, rps, Starts(arrivals, rps))
    ensures forall u, n :: Admissible(arrivals, rps, u) && 0 <= n < |arrivals| ==> Starts(arrivals, rps)[n] <= u[n]
  {
    var s := Starts(arrivals, rps);
    forall n | 0 < n < |s| ensures s[n] - s[n - 1] >= 1.0 / rps {
      Spacing(arrivals, rps, n - 1, n);
    }
    forall u, n | Admissible(arrivals, rps, u) && 0 <= n < |arrivals| ensures s[n] <= u[n] {
      StartIsEarliest(arrivals, rps, u, n);
    }
  }

  // ----- Interleaved callers -----

  /** A capped bucket with the callers that wait for a permit, and those that hold one: asleep
      until their start, or running. */
  datatype System = System(nextReady: real, permits: int, waiting: nat, asleep: nat, running: nat)

  datatype Event = Arrive | CancelWaiting | Enter(at: real) | Wake | CancelAsleep | Leave

  predicate Enabled(s: System, e: Event) {
    match e
    case Arrive => true
    case CancelWaiting => s.waiting > 0
    case Enter(_) => s.waiting > 0 && s.permits > 0
    case Wake => s.asleep > 0
    case CancelAsleep => s.asleep > 0
    case Leave => s.running > 0
  }

  ghost function Step(rps: real, s: System, e: Event): System
    requires rps > 0.0 && Enabled(s, e)
  {
    match e
    case Arrive => s.(waiting := s.waiting + 1)
    case CancelWaiting => s.(waiting := s.waiting - 1)
    case Enter(at) =>
      System(Max(at, s.nextReady) + 1.0 / rps, s.permits - 1, s.waiting - 1, s.asleep + 1, s.running)
    case Wake => s.(asleep := s.asleep - 1, running := s.running + 1)
    case CancelAsleep => s.(asleep := s.asleep - 1, permits := s.permits + 1)
    case Leave => s.(running := s.running - 1, permits := s.permits + 1)
  }

  ghost predicate Feasible(rps: real, s: System, es: seq<Event>)
    requires rps > 0.0
    decreases |es|
  {
    es == [] || (Enabled(s, es[0]) && Feasible(rps, Step(rps, s, es[0]), es[1..]))
  }

  ghost function After(rps: real, s: System, es: seq<Event>): System
    requires rps > 0.0 && Feasible(rps, s, es)
    decreases |es|
  {
    if es == [] then s else After(rps, Step(rps, s, es[0]), es[1..])
  }

  ghost function Arrivals(es: seq<Event>): seq<real> {
    if es == [] then [] else (if es[0].Enter? then [es[0].at] else []) + Arrivals(es[1..])
  }

  /** In every interleaving, cancelled waits included, the permits and the callers that
      hold one always add up to the cap, so no more than `cap` callers are inside. */
  lemma {:induction false} PermitsConserved(rps: real, s: System, es: seq<Event>, cap: nat)
    requires rps > 0.0 && Feasible(rps, s, es)
    requires s.permits >= 0 && s.permits + s.asleep + s.running == cap
    ensures After(rps, s, es).permits + After(rps, s, es).asleep + After(rps, s, es).running == cap
    ensures After(rps, s, es).asleep + After(rps, s, es).running <= cap
    decreases |es|
  {
    if es != [] { PermitsConserved(rps, Step(rps, s, es[0]), es[1..], cap); }
  }

  lemma NextReadySnoc(before: seq<real>, at: real, rps: real)
    requires rps > 0.0
    ensures NextReady(before + [at], rps, |before| + 1) == Max(at, NextReady(before, rps, |before|)) + 1.0 / rps
  {
    SamePrefix(before + [at], before, rps, |before|);
  }

  /** next_ready is the schedule's, for the arrivals so far. */
  ghost predicate OnSchedule(rps: real, s: System, arrivals: seq<real>)
    requires rps > 0.0
  {
    s.nextReady == NextReady(arrivals, rps, |arrivals|)
  }

  lemma StepOnSchedule(rps: real, s: System, e: Event, before: seq<real>)
    requires rps > 0.0 && Enabled(s, e) && OnSchedule(rps, s, before)
    ensures OnSchedule(rps, Step(rps, s, e), if e.Enter? then before + [e.at] else before)
  {
    if e.Enter? { NextReadySnoc(before, e.at, rps); }
  }

  lemma ArrivalsCons(es: seq<Event>, before: seq<real>)
    requires es != []
    ensures (if es[0].Enter? then before + [es[0].at] else before) + Arrivals(es[1..]) == before + Arrivals(es)
  {}

  /** next_ready depends on the arrivals alone: a cancelled wait gives its permit back
      but keeps its place in the schedule. */
  lemma {:induction false} CancelledPlacesAreSpent(rps: real, s: System, es: seq<Event>, before: seq<real>)
    requires rps > 0.0 && Feasible(rps, s, es) && OnSchedule(rps, s, before)
    ensures OnSchedule(rps, After(rps, s, es), before + Arrivals(es))
    decreases |es|
  {
    if es == [] {
      assert before + [] == before;
    } else {
      StepOnSchedule(rps, s, es[0], before);
      var now := if es[0].Enter? then before + [es[0].at] else before;
      CancelledPlacesAreSpent(rps, Step(rps, s, es[0]), es[1..], now);
      ArrivalsCons(es, before);
    }
  }

  lemma {:induction false} SamePrefix(a: seq<real>, b: seq<real>, rps: real, n: nat)
    requires rps > 0.0 && n <= |a| && n <= |b| && a[..n] == b[..n]
    ensures NextReady(a, rps, n) == NextReady(b, rps, n)
  {
    if n > 0 {
      assert a[..n][n - 1] == b[..n][n - 1];
      assert a[..n - 1] == a[..n][..n - 1] && b[..n - 1] == b[..n][..n - 1];
      SamePrefix(a, b, rps, n - 1);
    }
  }
}
