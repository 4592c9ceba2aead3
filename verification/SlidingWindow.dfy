/** Two sliding-window limiters: the notifier's pruned deque
    (packages/notifier/notifier/ratelimit.py) and the advice merger's filtered list
    (apps/orchestrator/orchestrator/merge/advice_merger.py). Both are measured against
    a count over the full history of accepted events. */
module SlidingWindow {
  /** The elements that are at least c, in order. */
  function AtLeast(s: seq<real>, c: real): seq<real> {
    if s == [] then []
    else if s[|s| - 1] >= c then AtLeast(s[..|s| - 1], c) + [s[|s| - 1]]
    else AtLeast(s[..|s| - 1], c)
  }

  function Between(s: seq<real>, lo: real, hi: real): seq<real> {
    if s == [] then []
    else if lo <= s[|s| - 1] <= hi then Between(s[..|s| - 1], lo, hi) + [s[|s| - 1]]
    else Between(s[..|s| - 1], lo, hi)
  }

  /** Pop from the front while the front is older than the cutoff. */
  function Prune(d: seq<real>, cutoff: real): seq<real> {
    if d != [] && d[0] < cutoff then Prune(d[1..], cutoff) else d
  }

  /** One acquire on a deque: the deque afterwards and whether the event was let in. */
  function DequeStep(capacity: int, window: real, d: seq<real>, now: real): (seq<real>, bool) {
    var p := Prune(d, now - window);
    if |p| >= capacity then (p, false) else (p + [now], true)
  }

  /** One call of the list-filter limiter. */
  function ListStep(max: int, l: seq<real>, now: real): (seq<real>, bool) {
    var kept := AtLeast(l, now - 60.0);
    if |kept| >= max then (kept, false) else (kept + [now], true)
  }

  class RateLimiter {
    const limits: map<string, (int, real)>
    var windows: map<string, seq<real>>

    constructor (limits: map<string, (int, real)>)
      ensures this.limits == limits && windows == map[]
    {
      this.limits := limits;
      windows := map[];
    }

    function Limit(key: string): (int, real) {
      if key in limits then limits[key] else (0, 0.0)
    }

    function WindowOf(key: string): seq<real>
      reads this
    {
      if key in windows then windows[key] else []
    }

    /** False stands for AdapterRateLimit. A capacity of zero means uncapped. */
    method Acquire(key: string, now: real) returns (ok: bool)
      modifies this
      ensures key !in limits || limits[key].0 == 0 ==> ok && windows == old(windows)
      ensures key in limits && limits[key].0 != 0 ==>
                var (d, allowed) := DequeStep(limits[key].0, limits[key].1, old(WindowOf(key)), now);
                ok == allowed && windows == old(windows)[key := d]
    {
      var (capacity, window) := Limit(key);
      if capacity == 0 {
        return true;
      }
      var timestamps := WindowOf(key);
      var cutoff := now - window;
      while timestamps != [] && timestamps[0] < cutoff
        invariant Prune(timestamps, cutoff) == Prune(old(WindowOf(key)), cutoff)
      {
        timestamps := timestamps[1..];
      }
      ok := |timestamps| < capacity;
      if ok {
        timestamps := timestamps + [now];
      }
      windows := windows[key := timestamps];
    }
  }

  class PerAgentRateLimit {
    const max: int
    var buckets: map<string, seq<real>>

    constructor (max: int)
      ensures this.max == max && buckets == map[]
    {
      this.max := max;
      buckets := map[];
    }

    function BucketOf(agent: string): seq<real>
      reads this
    {
      if agent in buckets then buckets[agent] else []
    }

    method Allow(agent: string, now: real) returns (ok: bool)
      modifies this
      ensures var (l, allowed) := ListStep(max, old(BucketOf(agent)), now);
              ok == allowed && buckets == old(buckets)[agent := l]
    {
      var history := BucketOf(agent);
      var kept := [];
      for i := 0 to |history|
        invariant kept == AtLeast(history[..i], now - 60.0)
      {
        assert history[..i + 1][..i] == history[..i];
        if history[i] >= now - 60.0 {
          kept := kept + [history[i]];
        }
      }
      assert history[..|history|] == history;
      ok := |kept| < max;
      buckets := buckets[agent := if ok then kept + [now] else kept];
    }
  }

  // ----- Runs: one key, events at the given times -----

  ghost predicate Monotone(times: seq<real>) {
    forall i, j :: 0 <= i < j < |times| ==> times[i] <= times[j]
  }

  /** The reference limiter forgets nothing: an event is let in when fewer than
      `capacity` accepted events are at most `window` old. */
  ghost function Allowed(capacity: int, window: real, history: seq<real>, now: real): bool {
    |AtLeast(history, now - window)| < capacity
  }

  ghost function Extend(capacity: int, window: real, history: seq<real>, now: real): seq<real> {
    if Allowed(capacity, window, history, now) then history + [now] else history
  }

  /** The events accepted among the first n. */
  ghost function Accepted(capacity: int, window: real, times: seq<real>, n: nat): seq<real>
    requires n <= |times|
  {
    if n == 0 then [] else
      Extend(capacity, window, Accepted(capacity, window, times, n - 1), times[n - 1])
  }

  /** The deque after the first n events. */
  ghost function DequeAfter(capacity: int, window: real, times: seq<real>, n: nat): seq<real>
    requires n <= |times|
  {
    if n == 0 then [] else
      DequeStep(capacity, window, DequeAfter(capacity, window, times, n - 1), times[n - 1]).0
  }

  ghost function ListAfter(max: int, times: seq<real>, n: nat): seq<real>
    requires n <= |times|
  {
    if n == 0 then [] else ListStep(max, ListAfter(max, times, n - 1), times[n - 1]).0
  }

  /** What each limiter decides for event n. */
  ghost function ReferenceDecides(capacity: int, window: real, times: seq<real>, n: nat): bool
    requires n < |times|
  {
    Allowed(capacity, window, Accepted(capacity, window, times, n), times[n])
  }

  ghost function DequeDecides(capacity: int, window: real, times: seq<real>, n: nat): bool
    requires n < |times|
  {
    DequeStep(capacity, window, DequeAfter(capacity, window, times, n), times[n]).1
  }

  ghost function ListDecides(max: int, times: seq<real>, n: nat): bool
    requires n < |times|
  {
    ListStep(max, ListAfter(max, times, n), times[n]).1
  }

  lemma {:induction false} AtLeastMembers(s: seq<real>, c: real)
    ensures forall x :: x in AtLeast(s, c) ==> x in s && x >= c
    decreases |s|
  {
    if s != [] { AtLeastMembers(s[..|s| - 1], c); }
  }

  lemma MonotoneSnoc(s: seq<real>, x: real)
    requires Monotone(s) && forall y :: y in s ==> y <= x
    ensures Monotone(s + [x])
  {
    forall i | 0 <= i < |s| ensures s[i] <= x { assert s[i] in s; }
  }

  lemma {:induction false} AtLeastMonotone(s: seq<real>, c: real)
    requires Monotone(s)
    ensures Monotone(AtLeast(s, c))
    decreases |s|
  {
    if s != [] {
      var init, last := s[..|s| - 1], s[|s| - 1];
      AtLeastMonotone(init, c);
      AtLeastMembers(init, c);
      MonotoneSnoc(AtLeast(init, c), last);
    }
  }

  lemma {:induction false} AtLeastAll(s: seq<real>, c: real)
    requires forall x :: x in s ==> x >= c
    ensures AtLeast(s, c) == s
    decreases |s|
  {
    if s != [] {
      var init := s[..|s| - 1];
      forall x | x in init ensures x >= c { assert x in s; }
      AtLeastAll(init, c);
      assert s[|s| - 1] in s;
    }
  }

  lemma {:induction false} AtLeastCons(s: seq<real>, c: real)
    requires s != []
    ensures AtLeast(s, c) == (if s[0] >= c then [s[0]] else []) + AtLeast(s[1..], c)
    decreases |s|
  {
    if |s| > 1 {
      AtLeastCons(s[..|s| - 1], c);
      assert s[1..][..|s| - 2] == s[..|s| - 1][1..];
    }
  }

  /** On an ordered deque, popping from the front is filtering. */
  lemma {:induction false} PruneIsFilter(d: seq<real>, c: real)
    requires Monotone(d)
    ensures Prune(d, c) == AtLeast(d, c)
    decreases |d|
  {
    if d != [] {
      if d[0] < c {
        PruneIsFilter(d[1..], c);
        AtLeastCons(d, c);
      } else {
        AtLeastAll(d, c);
      }
    }
  }

  lemma AtLeastSnoc(s: seq<real>, x: real, c: real)
    ensures AtLeast(s + [x], c) == if x >= c then AtLeast(s, c) + [x] else AtLeast(s, c)
  {
    assert (s + [x])[..|s|] == s;
  }

  lemma {:induction false} FilterTwice(s: seq<real>, c: real, c': real)
    requires c <= c'
    ensures AtLeast(AtLeast(s, c), c') == AtLeast(s, c')
    decreases |s|
  {
    if s != [] {
      var init, last := s[..|s| - 1], s[|s| - 1];
      FilterTwice(init, c, c');
      AtLeastSnoc(AtLeast(init, c), last, c');
    }
  }

  lemma {:induction false} AcceptedOrdered(capacity: int, window: real, times: seq<real>, n: nat)
    requires Monotone(times) && n <= |times|
    ensures Monotone(Accepted(capacity, window, times, n))
    ensures forall x :: x in Accepted(capacity, window, times, n) ==> n > 0 && x <= times[n - 1]
  {
    if n > 0 {
      AcceptedOrdered(capacity, window, times, n - 1);
      MonotoneSnoc(Accepted(capacity, window, times, n - 1), times[n - 1]);
    }
  }

  /** One event: a deque that agrees with the history inside the window decides like it
      and agrees with it again afterwards. */
  lemma DequeStepExact(capacity: int, window: real, d: seq<real>, h: seq<real>, now: real)
    requires window >= 0.0 && Monotone(d) && AtLeast(d, now - window) == AtLeast(h, now - window)
    ensures DequeStep(capacity, window, d, now).1 == Allowed(capacity, window, h, now)
    ensures DequeStep(capacity, window, d, now).0 ==
            AtLeast(Extend(capacity, window, h, now), now - window)
  {
    PruneIsFilter(d, now - window);
    AtLeastSnoc(h, now, now - window);
  }

  lemma ListStepExact(max: int, l: seq<real>, h: seq<real>, now: real)
    requires AtLeast(l, now - 60.0) == AtLeast(h, now - 60.0)
    ensures ListStep(max, l, now).1 == Allowed(max, 60.0, h, now)
    ensures ListStep(max, l, now).0 == AtLeast(Extend(max, 60.0, h, now), now - 60.0)
  {
    AtLeastSnoc(h, now, now - 60.0);
  }

  /** What a limiter still holds after n events: the accepted ones inside the window. */
  ghost function Held(capacity: int, window: real, times: seq<real>, n: nat): seq<real>
    requires n <= |times|
  {
    if n == 0 then [] else AtLeast(Accepted(capacity, window, times, n), times[n - 1] - window)
  }

  lemma HeldMonotone(capacity: int, window: real, times: seq<real>, n: nat)
    requires Monotone(times) && n <= |times|
    ensures Monotone(Held(capacity, window, times, n))
  {
    if n > 0 {
      AcceptedOrdered(capacity, window, times, n);
      AtLeastMonotone(Accepted(capacity, window, times, n), times[n - 1] - window);
    }
  }

  lemma HeldLater(capacity: int, window: real, times: seq<real>, n: nat)
    requires n < |times| && (n > 0 ==> times[n - 1] <= times[n])
    ensures AtLeast(Held(capacity, window, times, n), times[n] - window)
            == AtLeast(Accepted(capacity, window, times, n), times[n] - window)
  {
    if n > 0 {
      FilterTwice(Accepted(capacity, window, times, n), times[n - 1] - window, times[n] - window);
    }
  }

  lemma DequeHoldsNext(capacity: int, window: real, times: seq<real>, n: nat)
    requires Monotone(times) && window >= 0.0 && n < |times|
    ensures DequeStep(capacity, window, Held(capacity, window, times, n), times[n]).0
            == Held(capacity, window, times, n + 1)
  {
    var d, h := Held(capacity, window, times, n), Accepted(capacity, window, times, n);
    HeldMonotone(capacity, window, times, n);
    HeldLater(capacity, window, times, n);
    DequeStepExact(capacity, window, d, h, times[n]);
    assert Accepted(capacity, window, times, n + 1) == Extend(capacity, window, h, times[n]);
  }

  lemma {:induction false} DequeHolds(capacity: int, window: real, times: seq<real>, n: nat)
    requires Monotone(times) && window >= 0.0 && n <= |times|
    ensures DequeAfter(capacity, window, times, n) == Held(capacity, window, times, n)
  {
    if n > 0 {
      DequeHolds(capacity, window, times, n - 1);
      DequeHoldsNext(capacity, window, times, n - 1);
    }
  }

  /** On a non-decreasing clock the deque holds exactly the accepted events that are
      still inside the window, and decides as the count over all of them does. */
  lemma DequeIsExact(capacity: int, window: real, times: seq<real>, n: nat)
    requires Monotone(times) && window >= 0.0 && n < |times|
    ensures DequeAfter(capacity, window, times, n) == Held(capacity, window, times, n)
    ensures DequeDecides(capacity, window, times, n) <==> ReferenceDecides(capacity, window, times, n)
  {
    DequeHolds(capacity, window, times, n);
    HeldMonotone(capacity, window, times, n);
    HeldLater(capacity, window, times, n);
    DequeStepExact(capacity, window, Held(capacity, window, times, n), Accepted(capacity, window, times, n), times[n]);
  }

  lemma ListHoldsNext(max: int, times: seq<real>, n: nat)
    requires Monotone(times) && n < |times|
    ensures ListStep(max, Held(max, 60.0, times, n), times[n]).0 == Held(max, 60.0, times, n + 1)
  {
    var l, h := Held(max, 60.0, times, n), Accepted(max, 60.0, times, n);
    HeldLater(max, 60.0, times, n);
    ListStepExact(max, l, h, times[n]);
    assert Accepted(max, 60.0, times, n + 1) == Extend(max, 60.0, h, times[n]);
  }

  lemma {:induction false} ListHolds(max: int, times: seq<real>, n: nat)
    requires Monotone(times) && n <= |times|
    ensures ListAfter(max, times, n) == Held(max, 60.0, times, n)
  {
    if n > 0 {
      ListHolds(max, times, n - 1);
      ListHoldsNext(max, times, n - 1);
    }
  }

  lemma ListIsExact(max: int, times: seq<real>, n: nat)
    requires Monotone(times) && n < |times|
    ensures ListDecides(max, times, n) <==> ReferenceDecides(max, 60.0, times, n)
  {
    ListHolds(max, times, n);
    HeldLater(max, 60.0, times, n);
    ListStepExact(max, Held(max, 60.0, times, n), Accepted(max, 60.0, times, n), times[n]);
  }

  /** A notifier key and the list-filter limiter with the same capacity and a window of
      60 s make the same decisions on every non-decreasing clock, unless the capacity is
      zero: then the notifier lets everything in and the list nothing. */
  lemma LimitersAgree(capacity: int, times: seq<real>, n: nat)
    requires Monotone(times) && n < |times|
    ensures DequeDecides(capacity, 60.0, times, n) == ListDecides(capacity, times, n)
    ensures capacity == 0 ==> !ListDecides(capacity, times, n)
  {
    DequeIsExact(capacity, 60.0, times, n);
    ListIsExact(capacity, times, n);
  }

  lemma {:induction false} CountMonotone(s: seq<real>, lo: real, hi: real, c: real)
    requires c <= lo
    ensures |Between(s, lo, hi)| <= |AtLeast(s, c)|
    decreases |s|
  {
    if s != [] { CountMonotone(s[..|s| - 1], lo, hi, c); }
  }

  lemma BetweenSnoc(s: seq<real>, x: real, lo: real, hi: real)
    ensures Between(s + [x], lo, hi) == if lo <= x <= hi then Between(s, lo, hi) + [x] else Between(s, lo, hi)
  {
    assert (s + [x])[..|s|] == s;
  }

  /** One more event does not break the bound. */
  lemma ExtendBound(capacity: int, window: real, h: seq<real>, now: real, lo: real)
    requires capacity >= 0 && |Between(h, lo, lo + window)| <= capacity
    ensures |Between(Extend(capacity, window, h, now), lo, lo + window)| <= capacity
  {
    BetweenSnoc(h, now, lo, lo + window);
    if now <= lo + window {
      CountMonotone(h, lo, lo + window, now - window);
    }
  }

  /** Any closed interval of the window's length holds at most `capacity` of the events
      accepted by the count. */
  lemma {:induction false} WindowBound(capacity: int, window: real, times: seq<real>, n: nat, lo: real)
    requires capacity >= 0 && n <= |times|
    ensures |Between(Accepted(capacity, window, times, n), lo, lo + window)| <= capacity
  {
    if n > 0 {
      WindowBound(capacity, window, times, n - 1, lo);
      ExtendBound(capacity, window, Accepted(capacity, window, times, n - 1), times[n - 1], lo);
    }
  }

  /** The times at which the deque let an event in, among the first n. */
  ghost function LetIn(capacity: int, window: real, times: seq<real>, n: nat): seq<real>
    requires n <= |times|
  {
    if n == 0 then []
    else if DequeDecides(capacity, window, times, n - 1) then LetIn(capacity, window, times, n - 1) + [times[n - 1]]
    else LetIn(capacity, window, times, n - 1)
  }

  /** And so at most `capacity` of those the deque let in. */
  lemma DequeBound(capacity: int, window: real, times: seq<real>, n: nat, lo: real)
    requires capacity >= 0 && window >= 0.0 && Monotone(times) && n <= |times|
    ensures |Between(LetIn(capacity, window, times, n), lo, lo + window)| <= capacity
  {
    LetInIsAccepted(capacity, window, times, n);
    WindowBound(capacity, window, times, n, lo);
  }

  lemma {:induction false} LetInIsAccepted(capacity: int, window: real, times: seq<real>, n: nat)
    requires window >= 0.0 && Monotone(times) && n <= |times|
    ensures LetIn(capacity, window, times, n) == Accepted(capacity, window, times, n)
  {
    if n > 0 {
      LetInIsAccepted(capacity, window, times, n - 1);
      DequeIsExact(capacity, window, times, n - 1);
    }
  }
}
