/** The slot semaphore over a shared key store
    (apps/orchestrator/orchestrator/execute/concurrency.py): a slot is claimed by
    SET NX with a time to live, and released by deleting its key, whoever set it. */
module SlotSemaphore {
  import opened Basics

  const SLOT_TTL_S := 300.0

  /** A stored key. `owner` tells claims apart; the code itself never reads it. */
  datatype Key = Key(holder: string, owner: nat, expires: real)

  type Store = map<nat, Key>

  predicate Live(store: Store, slot: nat, now: real) {
    slot in store && now < store[slot].expires
  }

  function SetNx(store: Store, slot: nat, holder: string, owner: nat, now: real): Store {
    if Live(store, slot, now) then store else store[slot := Key(holder, owner, now + SLOT_TTL_S)]
  }

  class SemaphoreBackend {
    var store: Store

    constructor ()
      ensures store == map[]
    {
      store := map[];
    }

    method Set(slot: nat, holder: string, owner: nat, now: real) returns (ok: bool)
      modifies this
      ensures ok <==> !Live(old(store), slot, now)
      ensures store == SetNx(old(store), slot, holder, owner, now)
    {
      ok := !(slot in store && now < store[slot].expires);
      if ok {
        store := store[slot := Key(holder, owner, now + SLOT_TTL_S)];
      }
    }

    method Delete(slot: nat)
      modifies this
      ensures store == old(store) - {slot}
    {
      store := store - {slot};
    }
  }

  /** Whatever other callers and expiry do to the store while this one awaits. */
  method Others(backend: SemaphoreBackend)
    modifies backend
  {
    backend.store := *;
  }

  /** One SET NX: the slot tried, the time, and the store it met. */
  datatype Try = Try(slot: nat, at: real, seen: Store)

  predicate Refused(t: Try) {
    Live(t.seen, t.slot, t.at)
  }

  /** The slots from 1 on were tried in order, and each was held when it was tried. */
  ghost predicate AllRefused(scan: seq<Try>) {
    forall i :: 0 <= i < |scan| ==> scan[i].slot == i + 1 && Refused(scan[i])
  }

  /** The last try of the scan met a free slot, and all before it held ones. */
  ghost predicate WonAt(scan: seq<Try>, slot: nat) {
    && scan != [] && AllRefused(scan[..|scan| - 1])
    && scan[|scan| - 1].slot == slot == |scan| && !Refused(scan[|scan| - 1])
  }

  /** One pass over the slots, with other writers before each try. The clock is read for each
      try and need not stand still. */
  method ScanSlots(backend: SemaphoreBackend, capacity: nat, holder: string, owner: nat,
                   clock: nat -> real, reading: nat)
    returns (slot: Option<nat>, readings: nat, ghost scan: seq<Try>)
    modifies backend
    ensures slot.None? ==> |scan| == capacity && AllRefused(scan)
    ensures slot.Some? ==> WonAt(scan, slot.value) && slot.value <= capacity
    ensures slot.Some? ==>
              var t := scan[|scan| - 1];
              backend.store == t.seen[slot.value := Key(holder, owner, t.at + SLOT_TTL_S)]
  {
    scan, readings := [], reading;
    for k := 1 to capacity + 1
      invariant |scan| == k - 1 && AllRefused(scan)
    {
      Others(backend);
      var now := clock(readings);
      readings := readings + 1;
      ghost var t := Try(k, now, backend.store);
      var ok := backend.Set(k, holder, owner, now);
      assert (scan + [t])[..|scan|] == scan;
      scan := scan + [t];
      if ok {
        return Some(k), readings, scan;
      }
    }
    slot := None;
  }

  datatype Claim = Claimed(slot: nat) | TimedOut | StillWaiting

  /** `_claim`, for up to `patience` passes: it takes the first slot that is free when it is
      tried, and gives up only after a full pass of held slots that ends past the deadline.
      `ends` are the clock readings behind the full passes. */
  method ClaimSlot(backend: SemaphoreBackend, capacity: nat, holder: string, owner: nat,
                   clock: nat -> real, deadline: real, patience: nat)
    returns (r: Claim, ghost scans: seq<seq<Try>>, ghost ends: seq<real>)
    modifies backend
    ensures |ends| == if r.Claimed? then |scans| - 1 else |scans|
    ensures forall i :: 0 <= i < |ends| ==> |scans[i]| == capacity && AllRefused(scans[i])
    ensures forall i :: 0 <= i < |ends| ==> (ends[i] > deadline <==> r.TimedOut? && i == |ends| - 1)
    ensures r.TimedOut? ==> ends != []
    ensures r.StillWaiting? ==> |scans| == patience
    ensures r.Claimed? ==>
              var last := scans[|scans| - 1];
              WonAt(last, r.slot) && r.slot <= capacity
              && backend.store
                 == last[|last| - 1].seen[r.slot := Key(holder, owner, last[|last| - 1].at + SLOT_TTL_S)]
  {
    scans, ends := [], [];
    var readings := 0;
    for n := 0 to patience
      invariant |scans| == |ends| == n
      invariant forall i :: 0 <= i < n ==> |scans[i]| == capacity && AllRefused(scans[i]) && ends[i] <= deadline
    {
      var slot;
      ghost var scan;
      slot, readings, scan := ScanSlots(backend, capacity, holder, owner, clock, readings);
      scans := scans + [scan];
      if slot.Some? {
        return Claimed(slot.value), scans, ends;
      }
      var now := clock(readings);
      readings := readings + 1;
      ends := ends + [now];
      if now > deadline {
        return TimedOut, scans, ends;
      }
    }
    r := StillWaiting;
  }

  // ----- Interleavings -----

  datatype Hold = Hold(slot: nat, since: real)

  /** `holders`: the claims inside the context manager. `used`: every claim that ever
      got a slot; claims are told apart by fresh numbers. */
  datatype System = System(now: real, store: Store, holders: map<nat, Hold>, used: set<nat>)

  const START := System(0.0, map[], map[], {})

  /** A SET NX attempt on one slot, a release, a crash of a holder, time passing. */
  datatype Event = Attempt(claim: nat, slot: nat) | Release(claim: nat) | Crash(claim: nat) | Tick(to: real)

  predicate Enabled(capacity: nat, s: System, e: Event) {
    match e
    case Attempt(claim, slot) => claim !in s.used && 1 <= slot <= capacity
    case Release(claim) => claim in s.holders
    case Crash(claim) => claim in s.holders
    case Tick(to) => s.now <= to
  }

  function Step(capacity: nat, s: System, e: Event): System
    requires Enabled(capacity, s, e)
  {
    match e
    case Attempt(claim, slot) =>
      if Live(s.store, slot, s.now) then s
      else System(s.now, SetNx(s.store, slot, "orch", claim, s.now),
                  s.holders[claim := Hold(slot, s.now)], s.used + {claim})
    case Release(claim) => s.(store := s.store - {s.holders[claim].slot}, holders := s.holders - {claim})
    case Crash(claim) => s.(holders := s.holders - {claim})
    case Tick(to) => s.(now := to)
  }

  ghost predicate Feasible(capacity: nat, s: System, es: seq<Event>)
    decreases |es|
  {
    es == [] || (Enabled(capacity, s, es[0]) && Feasible(capacity, Step(capacity, s, es[0]), es[1..]))
  }

  /** No holder has held its slot for the time to live or longer. */
  ghost predicate Prompt(s: System) {
    forall c :: c in s.holders ==> s.now < s.holders[c].since + SLOT_TTL_S
  }

  /** Every holder's slot key is live and its own. */
  ghost predicate Exclusive(s: System) {
    forall c :: c in s.holders ==>
      Live(s.store, s.holders[c].slot, s.now) && s.store[s.holders[c].slot].owner == c
  }

  ghost predicate PromptAlong(capacity: nat, s: System, es: seq<Event>)
    requires Feasible(capacity, s, es)
    decreases |es|
  {
    Prompt(s) && (es == [] || PromptAlong(capacity, Step(capacity, s, es[0]), es[1..]))
  }

  ghost predicate ExclusiveAlong(capacity: nat, s: System, es: seq<Event>)
    requires Feasible(capacity, s, es)
    decreases |es|
  {
    Exclusive(s) && (es == [] || ExclusiveAlong(capacity, Step(capacity, s, es[0]), es[1..]))
  }

  ghost predicate BoundedAlong(capacity: nat, s: System, es: seq<Event>)
    requires Feasible(capacity, s, es)
    decreases |es|
  {
    |s.holders| <= capacity && (es == [] || BoundedAlong(capacity, Step(capacity, s, es[0]), es[1..]))
  }

  ghost predicate HoldRecorded(capacity: nat, s: System, c: nat)
    requires c in s.holders
  {
    var h := s.holders[c];
    && 1 <= h.slot <= capacity && h.slot in s.store
    && s.store[h.slot].owner == c && s.store[h.slot].expires == h.since + SLOT_TTL_S
  }

  ghost predicate Inv(capacity: nat, s: System) {
    && (forall c :: c in s.holders ==> c in s.used && HoldRecorded(capacity, s, c))
  }

  lemma StepKeepsInv(capacity: nat, s: System, e: Event)
    requires Inv(capacity, s) && Prompt(s) && Enabled(capacity, s, e)
    ensures Inv(capacity, Step(capacity, s, e))
  {
    var s' := Step(capacity, s, e);
    forall c | c in s'.holders ensures c in s'.used && HoldRecorded(capacity, s', c) {
      if c in s.holders { assert HoldRecorded(capacity, s, c); }
      if e.Release? { assert HoldRecorded(capacity, s, e.claim); }
    }
  }

  lemma PromptIsExclusive(capacity: nat, s: System)
    requires Inv(capacity, s)
    ensures Prompt(s) <==> Exclusive(s)
  {
    forall c | c in s.holders
      ensures s.now < s.holders[c].since + SLOT_TTL_S <==>
              Live(s.store, s.holders[c].slot, s.now) && s.store[s.holders[c].slot].owner == c
    {
      assert HoldRecorded(capacity, s, c);
    }
  }

  lemma HoldersFit(capacity: nat, s: System)
    requires Inv(capacity, s)
    ensures |s.holders| <= capacity
  {
    var slots := SlotsOf(s.holders);
    forall c, d | c in s.holders && d in s.holders && s.holders[c].slot == s.holders[d].slot ensures c == d {
      assert HoldRecorded(capacity, s, c) && HoldRecorded(capacity, s, d);
    }
    DistinctSlots(s.holders);
    forall x | x in slots ensures x in Range(1, capacity + 1) {
      var c :| c in s.holders && s.holders[c].slot == x;
      assert HoldRecorded(capacity, s, c);
    }
    SubsetSize(slots, Range(1, capacity + 1));
  }

  ghost function SlotsOf(holders: map<nat, Hold>): set<int> {
    set c | c in holders :: holders[c].slot
  }

  lemma SlotsOfOneMore(holders: map<nat, Hold>, c: nat)
    requires c in holders
    requires forall d :: d in holders && holders[c].slot == holders[d].slot ==> c == d
    ensures SlotsOf(holders) == SlotsOf(holders - {c}) + {holders[c].slot}
    ensures holders[c].slot !in SlotsOf(holders - {c})
  {
    forall x | x in SlotsOf(holders) ensures x in SlotsOf(holders - {c}) + {holders[c].slot} {
      var d :| d in holders && holders[d].slot == x;
      assert d == c || d in holders - {c};
    }
  }

  lemma {:induction false} DistinctSlots(holders: map<nat, Hold>)
    requires forall c, d :: c in holders && d in holders && holders[c].slot == holders[d].slot ==> c == d
    ensures |SlotsOf(holders)| == |holders|
    decreases |holders|
  {
    if holders == map[] {
      assert SlotsOf(holders) == {};
    } else {
      var c := Pick(holders.Keys);
      var rest := holders - {c};
      assert holders.Keys == rest.Keys + {c};
      DistinctSlots(rest);
      SlotsOfOneMore(holders, c);
    }
  }

  /** In every interleaving of claims, releases, crashes and expiry: all holders own a
      live key at all times exactly when none ever holds its slot as long as the time to
      live; and then there are never more holders than slots. */
  lemma {:induction false} SlotsAreExact(capacity: nat, s: System, es: seq<Event>)
    requires Inv(capacity, s) && Feasible(capacity, s, es)
    ensures PromptAlong(capacity, s, es) <==> ExclusiveAlong(capacity, s, es)
    ensures PromptAlong(capacity, s, es) ==> BoundedAlong(capacity, s, es)
    decreases |es|
  {
    PromptIsExclusive(capacity, s);
    HoldersFit(capacity, s);
    if Prompt(s) && es != [] {
      StepKeepsInv(capacity, s, es[0]);
      SlotsAreExact(capacity, Step(capacity, s, es[0]), es[1..]);
    }
  }

  lemma FromStart(capacity: nat, es: seq<Event>)
    requires Feasible(capacity, START, es)
    ensures PromptAlong(capacity, START, es) <==> ExclusiveAlong(capacity, START, es)
    ensures PromptAlong(capacity, START, es) ==> BoundedAlong(capacity, START, es)
  {
    SlotsAreExact(capacity, START, es);
  }

  // ----- One holder that overstays -----

  ghost function After(capacity: nat, s: System, es: seq<Event>): System
    requires Feasible(capacity, s, es)
    decreases |es|
  {
    if es == [] then s else After(capacity, Step(capacity, s, es[0]), es[1..])
  }

  /** The run from s starts with e. */
  lemma Prepend(capacity: nat, s: System, e: Event, es: seq<Event>) returns (more: seq<Event>)
    requires Enabled(capacity, s, e) && Feasible(capacity, Step(capacity, s, e), es)
    ensures more == [e] + es && Feasible(capacity, s, more)
    ensures After(capacity, s, more) == After(capacity, Step(capacity, s, e), es)
    ensures PromptAlong(capacity, s, more) ==> PromptAlong(capacity, Step(capacity, s, e), es)
  {
    more := [e] + es;
    assert more[1..] == es;
  }

  /** Claims lo to hi are fresh and their slots are free. */
  ghost predicate Claimable(s: System, lo: nat, hi: nat) {
    forall i :: lo <= i <= hi ==> i !in s.used && i !in s.holders && !Live(s.store, i, s.now)
  }

  /** s' is s after claims lo to hi have taken the slots of the same numbers. */
  ghost predicate AllClaimed(s: System, s': System, lo: nat, hi: nat) {
    && s'.now == s.now
    && |s'.holders| == |s.holders| + (hi + 1 - lo)
    && (forall c :: c in s'.used <==> c in s.used || lo <= c <= hi)
    && (forall c :: c in s'.holders <==> c in s.holders || lo <= c <= hi)
    && (forall c :: c in s.holders ==> s'.holders[c] == s.holders[c])
    && (forall c :: lo <= c <= hi ==> s'.holders[c] == Hold(c, s.now))
  }

  lemma ClaimOne(capacity: nat, s: System, lo: nat, hi: nat)
    requires 1 <= lo <= hi <= capacity && Claimable(s, lo, hi)
    ensures Enabled(capacity, s, Attempt(lo, lo))
    ensures var s1 := Step(capacity, s, Attempt(lo, lo));
            AllClaimed(s, s1, lo, lo) && Claimable(s1, lo + 1, hi)
  {
    var s1 := Step(capacity, s, Attempt(lo, lo));
    assert s1.holders == s.holders[lo := Hold(lo, s.now)];
  }

  lemma ClaimedThen(s: System, s1: System, s': System, lo: nat, hi: nat)
    requires lo <= hi && AllClaimed(s, s1, lo, lo) && AllClaimed(s1, s', lo + 1, hi)
    ensures AllClaimed(s, s', lo, hi)
  {}

  lemma {:induction false} ClaimAll(capacity: nat, s: System, lo: nat, hi: nat) returns (es: seq<Event>)
    requires 1 <= lo <= hi + 1 && hi <= capacity && Claimable(s, lo, hi)
    ensures Feasible(capacity, s, es) && AllClaimed(s, After(capacity, s, es), lo, hi)
    decreases hi + 1 - lo
  {
    if lo > hi {
      es := [];
    } else {
      ClaimOne(capacity, s, lo, hi);
      var s1 := Step(capacity, s, Attempt(lo, lo));
      var rest := ClaimAll(capacity, s1, lo + 1, hi);
      es := Prepend(capacity, s, Attempt(lo, lo), rest);
      ClaimedThen(s, s1, After(capacity, s, es), lo, hi);
    }
  }

  lemma {:induction false} JoinRuns(capacity: nat, s: System, a: seq<Event>, b: seq<Event>)
    requires Feasible(capacity, s, a) && Feasible(capacity, After(capacity, s, a), b)
    ensures Feasible(capacity, s, a + b)
    ensures After(capacity, s, a + b) == After(capacity, After(capacity, s, a), b)
    decreases |a|
  {
    if a == [] {
      assert a + b == b;
    } else {
      assert (a + b)[1..] == a[1..] + b;
      JoinRuns(capacity, Step(capacity, s, a[0]), a[1..], b);
    }
  }

  /** The first holder of slot 1 has outlived its key. */
  ghost function Overstayed(): System {
    System(SLOT_TTL_S, map[1 := Key("orch", 0, SLOT_TTL_S)], map[0 := Hold(1, 0.0)], {0})
  }

  /** What a late release leaves: the key of slot 1 is gone, its new holder is not. */
  lemma Released(capacity: nat, full: System)
    requires capacity > 0 && AllClaimed(Overstayed(), full, 1, capacity)
    ensures Enabled(capacity, full, Release(0))
    ensures var s := Step(capacity, full, Release(0));
            && s.now == SLOT_TTL_S && 1 !in s.store && |s.holders| == capacity
            && capacity + 1 !in s.used && capacity + 1 !in s.holders
            && forall c :: c in s.holders ==> s.holders[c].since == SLOT_TTL_S
  {
    assert 0 in Overstayed().holders && full.holders[0] == Hold(1, 0.0);
    var s := Step(capacity, full, Release(0));
    assert full.holders.Keys == s.holders.Keys + {0};
    assert |full.holders| == |full.holders.Keys| && |s.holders| == |s.holders.Keys|;
  }

  /** The late release deletes a key that is not the releaser's own, and one more claim gets
      slot 1. */
  lemma LateRelease(capacity: nat, full: System) returns (es: seq<Event>)
    requires capacity > 0 && AllClaimed(Overstayed(), full, 1, capacity)
    ensures Feasible(capacity, full, es)
    ensures |After(capacity, full, es).holders| == capacity + 1 && Prompt(After(capacity, full, es))
  {
    Released(capacity, full);
    var released := Step(capacity, full, Release(0));
    var crowded := Step(capacity, released, Attempt(capacity + 1, 1));
    assert crowded.holders == released.holders[capacity + 1 := Hold(1, SLOT_TTL_S)];
    es := Prepend(capacity, released, Attempt(capacity + 1, 1), []);
    es := Prepend(capacity, full, Release(0), es);
  }

  /** For any number of slots one holder that overstays is enough to let in more holders than
      there are slots, and they stay too many when it is gone: at the end of the run nobody
      overstays, and one slot has two holders. */
  lemma OverstayingBreaksTheCap(capacity: nat) returns (es: seq<Event>)
    requires capacity > 0
    ensures Feasible(capacity, START, es) && !PromptAlong(capacity, START, es)
    ensures |After(capacity, START, es).holders| == capacity + 1 && Prompt(After(capacity, START, es))
  {
    var claims := ClaimAll(capacity, Overstayed(), 1, capacity);
    var late := LateRelease(capacity, After(capacity, Overstayed(), claims));
    JoinRuns(capacity, Overstayed(), claims, late);
    var s1 := Step(capacity, START, Attempt(0, 1));
    assert s1.store == map[1 := Key("orch", 0, SLOT_TTL_S)];
    assert Step(capacity, s1, Tick(SLOT_TTL_S)) == Overstayed();
    assert 0 in Overstayed().holders && !Prompt(Overstayed());
    var rest := Prepend(capacity, s1, Tick(SLOT_TTL_S), claims + late);
    es := Prepend(capacity, START, Attempt(0, 1), rest);
  }
}
