/** The spend breaker (packages/llm-client/llm_client/cost_meter.py) and the order in
    which the router consults it (packages/llm-client/llm_client/router.py, chat). */
module CostMeter {
  import opened Basics

  type Day = int

  datatype Tier = Flash | Pro | Embed

  datatype RowKey = RowKey(day: Day, tier: Tier, fallback: bool)

  datatype Spend = Spend(key: RowKey, cost: real)

  type Table = map<RowKey, real>

  predicate Counts(key: RowKey, since: Day, fallbackOnly: bool) {
    key.day >= since && (!fallbackOnly || key.fallback)
  }

  function Share(key: RowKey, cost: real, since: Day, fallbackOnly: bool): real {
    if Counts(key, since, fallbackOnly) then cost else 0.0
  }

  // ----- The table against the full log of records -----

  function Put(rows: Table, r: Spend): Table {
    rows[r.key := (if r.key in rows then rows[r.key] else 0.0) + r.cost]
  }

  ghost function TableOf(log: seq<Spend>): Table {
    if log == [] then map[] else Put(TableOf(log[..|log| - 1]), log[|log| - 1])
  }

  ghost function LogSum(log: seq<Spend>, since: Day, fallbackOnly: bool): real {
    if log == [] then 0.0 else
      var last := log[|log| - 1];
      LogSum(log[..|log| - 1], since, fallbackOnly) + Share(last.key, last.cost, since, fallbackOnly)
  }

  /** The sum is that of the costs of the records that count, one by one: those of the day
      `since` and later, and only fallback ones when these are asked for. */
  lemma {:induction false} SumIsThatOfItsRecords(log: seq<Spend>, more: seq<Spend>, r: Spend,
                                                 since: Day, fallback: bool)
    ensures LogSum([r], since, fallback) == if r.key.day < since || (fallback && !r.key.fallback) then 0.0 else r.cost
    ensures LogSum(log + more, since, fallback) == LogSum(log, since, fallback) + LogSum(more, since, fallback)
    decreases |more|
  {
    assert [r][..0] == [];
    if more == [] {
      assert log + more == log;
    } else {
      var init := more[..|more| - 1];
      SumIsThatOfItsRecords(log, init, r, since, fallback);
      assert (log + more)[..|log + more| - 1] == log + init;
    }
  }

  /** The sum over the table's rows, taken in some order. */
  ghost function TableSum(rows: Table, since: Day, fallbackOnly: bool): real {
    if rows == map[] then 0.0 else
      var k :| k in rows;
      Share(k, rows[k], since, fallbackOnly) + TableSum(rows - {k}, since, fallbackOnly)
  }

  lemma {:induction false} SumInAnyOrder(rows: Table, k: RowKey, since: Day, fallbackOnly: bool)
    requires k in rows
    ensures TableSum(rows, since, fallbackOnly)
            == Share(k, rows[k], since, fallbackOnly) + TableSum(rows - {k}, since, fallbackOnly)
    decreases |rows|
  {
    var first :| first in rows && TableSum(rows, since, fallbackOnly)
      == Share(first, rows[first], since, fallbackOnly) + TableSum(rows - {first}, since, fallbackOnly);
    if first != k {
      SumInAnyOrder(rows - {first}, k, since, fallbackOnly);
      SumInAnyOrder(rows - {k}, first, since, fallbackOnly);
      assert rows - {first} - {k} == rows - {k} - {first};
    }
  }

  lemma PutAdds(rows: Table, r: Spend, since: Day, fallbackOnly: bool)
    ensures TableSum(Put(rows, r), since, fallbackOnly)
            == TableSum(rows, since, fallbackOnly) + Share(r.key, r.cost, since, fallbackOnly)
  {
    var rows' := Put(rows, r);
    SumInAnyOrder(rows', r.key, since, fallbackOnly);
    if r.key in rows {
      SumInAnyOrder(rows, r.key, since, fallbackOnly);
      assert rows' - {r.key} == rows - {r.key};
    } else {
      assert rows' - {r.key} == rows;
    }
  }

  /** The (day, tier, fallback) table always sums to the full log of records, for every
      window and both ways of counting. */
  lemma {:induction false} TableSumsToLog(log: seq<Spend>, since: Day, fallbackOnly: bool)
    ensures TableSum(TableOf(log), since, fallbackOnly) == LogSum(log, since, fallbackOnly)
    decreases |log|
  {
    if log != [] {
      TableSumsToLog(log[..|log| - 1], since, fallbackOnly);
      PutAdds(TableOf(log[..|log| - 1]), log[|log| - 1], since, fallbackOnly);
    }
  }

  class InMemorySpendStore {
    var rows: Table
    ghost var log: seq<Spend>

    ghost predicate Valid()
      reads this
    {
      rows == TableOf(log)
    }

    constructor ()
      ensures Valid() && log == []
    {
      rows, log := map[], [];
    }

    /** Adds the matching rows up in whatever order the dictionary gives them. */
    method TotalSpend(since: Day, fallbackOnly: bool) returns (total: real)
      requires Valid()
      ensures total == LogSum(log, since, fallbackOnly)
    {
      total := 0.0;
      var rest := rows;
      while rest != map[]
        invariant total + TableSum(rest, since, fallbackOnly) == TableSum(rows, since, fallbackOnly)
        decreases |rest|
      {
        var k :| k in rest;
        SumInAnyOrder(rest, k, since, fallbackOnly);
        if k.day >= since && (!fallbackOnly || k.fallback) {
          total := total + rest[k];
        }
        rest := rest - {k};
      }
      TableSumsToLog(log, since, fallbackOnly);
    }

    method Record(r: Spend)
      requires Valid()
      modifies this
      ensures Valid() && log == old(log) + [r] && rows == Put(old(rows), r)
      ensures r.key in rows && rows[r.key] == (if r.key in old(rows) then old(rows)[r.key] else 0.0) + r.cost
      ensures forall k :: k != r.key ==> (k in rows <==> k in old(rows)) && (k in rows ==> rows[k] == old(rows)[k])
    {
      rows := rows[r.key := (if r.key in rows then rows[r.key] else 0.0) + r.cost];
      log := log + [r];
      assert log[..|log| - 1] == old(log);
    }
  }

  // ----- The breaker -----

  datatype BreakerState = Closed | Open | HalfOpen

  /** A cap of None is the default, infinity. */
  datatype Config = Config(monthlyCap: Option<real>, fallbackCap: Option<real>, cooldown: real)

  datatype Meter = Meter(state: BreakerState, openedAt: real)

  const WINDOW_DAYS := 30

  predicate BelowCap(cap: Option<real>, spent: real) {
    cap.None? || spent < cap.value
  }

  predicate Reached(cap: Option<real>, spent: real) {
    cap.Some? && spent >= cap.value
  }

  /** Reading the `state` property. */
  function Touch(cfg: Config, m: Meter, now: real): Meter {
    if m.state == Open && now - m.openedAt >= cfg.cooldown then m.(state := HalfOpen) else m
  }

  function Gate(cfg: Config, m: Meter, now: real, spent: real, fallbackSpent: real, fallback: bool): (Meter, bool) {
    var m' := Touch(cfg, m, now);
    if m'.state == Open then (m', false)
    else if Reached(cfg.monthlyCap, spent) then (Meter(Open, now), false)
    else if fallback && Reached(cfg.fallbackCap, fallbackSpent) then (Meter(Open, now), false)
    else (m', true)
  }

  class CostMeter {
    const cfg: Config
    const store: InMemorySpendStore
    var state: BreakerState
    var openedAt: real

    constructor (cfg: Config, store: InMemorySpendStore)
      ensures this.cfg == cfg && this.store == store && View() == Meter(Closed, 0.0)
    {
      this.cfg, this.store := cfg, store;
      state, openedAt := Closed, 0.0;
    }

    function View(): Meter
      reads this
    {
      Meter(state, openedAt)
    }

    method ReadState(now: real) returns (s: BreakerState)
      modifies this
      ensures s == state && openedAt == old(openedAt)
      ensures state == if old(state) == Open && now - old(openedAt) >= cfg.cooldown then HalfOpen else old(state)
      ensures View() == Touch(cfg, old(View()), now)
    {
      if state == Open && now - openedAt >= cfg.cooldown {
        state := HalfOpen;
      }
      s := state;
    }

    method Allow(fallback: bool, now: real, today: Day) returns (ok: bool)
      requires store.Valid()
      modifies this
      ensures var cooling := old(state) == Open && now - old(openedAt) < cfg.cooldown;
              var below := BelowCap(cfg.monthlyCap, LogSum(store.log, today - WINDOW_DAYS, false));
              var fallbackBelow := BelowCap(cfg.fallbackCap, LogSum(store.log, today - WINDOW_DAYS, true));
              && (ok <==> !cooling && below && (fallback ==> fallbackBelow))
              && (ok || cooling ==> openedAt == old(openedAt))
              && (!ok && !cooling ==> state == Open && openedAt == now)
      ensures ok ==> state == if old(state) == Open then HalfOpen else old(state)
      ensures (View(), ok) == Gate(cfg, old(View()), now, LogSum(store.log, today - WINDOW_DAYS, false),
                                   LogSum(store.log, today - WINDOW_DAYS, true), fallback)
    {
      var s := ReadState(now);
      if s == Open {
        return false;
      }
      var spent := store.TotalSpend(today - WINDOW_DAYS, false);
      if cfg.monthlyCap.Some? && spent >= cfg.monthlyCap.value {
        OpenBreaker(now);
        return false;
      }
      if fallback {
        var fallbackSpent := store.TotalSpend(today - WINDOW_DAYS, true);
        if cfg.fallbackCap.Some? && fallbackSpent >= cfg.fallbackCap.value {
          OpenBreaker(now);
          return false;
        }
      }
      ok := true;
    }

    method OpenBreaker(now: real)
      modifies this
      ensures View() == Meter(Open, now)
    {
      state, openedAt := Open, now;
    }

    method Reset()
      modifies this
      ensures View() == Meter(Closed, 0.0)
    {
      state, openedAt := Closed, 0.0;
    }

    method Record(tier: Tier, fallbackUsed: bool, cost: real, today: Day)
      requires store.Valid()
      modifies store
      ensures store.Valid() && store.log == old(store.log) + [Spend(RowKey(today, tier, fallbackUsed), cost)]
    {
      store.Record(Spend(RowKey(today, tier, fallbackUsed), cost));
    }
  }

  // ----- Interleaved chats -----

  /** Where a chat of one caller can be. At the gate it has found the breaker not open and
      waits for the sum; then the sum it read lets it pass or makes it open the breaker. It
      queues at the caller's semaphore, is at the primary provider, and after a failure there at
      the second gate, which reads two sums; then at the fallback provider. Done means that the
      provider answered and the record is still to come. */
  datatype Stage =
    | Asking | Passing | Refused
    | Queued | AtPrimary
    | AskingAgain | AskingFallback | PassingFallback | RefusedFallback
    | AtFallback
    | DonePrimary | DoneFallback

  /** How many chats are where. */
  datatype Chats = Chats(asking: nat, passing: nat, refused: nat, queued: nat, atPrimary: nat,
                         askingAgain: nat, askingFallback: nat, passingFallback: nat, refusedFallback: nat,
                         atFallback: nat, donePrimary: nat, doneFallback: nat)

  const NO_CHATS := Chats(0, 0, 0, 0, 0, 0, 0, 0, 0, 0, 0, 0)

  function At(c: Chats, stage: Stage): nat {
    match stage
    case Asking => c.asking
    case Passing => c.passing
    case Refused => c.refused
    case Queued => c.queued
    case AtPrimary => c.atPrimary
    case AskingAgain => c.askingAgain
    case AskingFallback => c.askingFallback
    case PassingFallback => c.passingFallback
    case RefusedFallback => c.refusedFallback
    case AtFallback => c.atFallback
    case DonePrimary => c.donePrimary
    case DoneFallback => c.doneFallback
  }

  function With(c: Chats, stage: Stage, n: nat): Chats {
    match stage
    case Asking => c.(asking := n)
    case Passing => c.(passing := n)
    case Refused => c.(refused := n)
    case Queued => c.(queued := n)
    case AtPrimary => c.(atPrimary := n)
    case AskingAgain => c.(askingAgain := n)
    case AskingFallback => c.(askingFallback := n)
    case PassingFallback => c.(passingFallback := n)
    case RefusedFallback => c.(refusedFallback := n)
    case AtFallback => c.(atFallback := n)
    case DonePrimary => c.(donePrimary := n)
    case DoneFallback => c.(doneFallback := n)
  }

  datatype System = System(log: seq<Spend>, meter: Meter, chats: Chats, today: Day, now: real)

  /** Drop is any way in which a chat ends early: an error, a cancellation. */
  datatype Event =
    | Enter(at: real)
    | ReadSpend
    | Pass
    | Refuse(at: real)
    | Start
    | PrimaryDone
    | EnterFallback(at: real)
    | ReadSpendAgain
    | ReadFallbackSpend
    | PassFallback
    | RefuseFallback(at: real)
    | FallbackDone
    | RecordPrimary(tier: Tier, cost: real)
    | RecordFallback(tier: Tier, cost: real)
    | Drop(stage: Stage)
    | Midnight(day: Day)
    | Reset

  /** The chats that were let through the gate, from the sum they read on, and have not
      recorded. */
  function Pending(c: Chats): nat {
    c.passing + c.queued + c.atPrimary + c.askingAgain + c.askingFallback + c.passingFallback
    + c.atFallback + c.donePrimary + c.doneFallback
  }

  /** The same for the second gate and the fallback sum. */
  function PendingFallback(c: Chats): nat {
    c.passingFallback + c.atFallback + c.doneFallback
  }

  /** The chats that hold a permit of the caller's semaphore: from Start until the provider
      round trip is over, before the record. */
  function Holding(c: Chats): nat {
    c.atPrimary + c.askingAgain + c.askingFallback + c.passingFallback + c.refusedFallback + c.atFallback
  }

  function Come(c: Chats, to: Stage): Chats {
    With(c, to, At(c, to) + 1)
  }

  function Gone(c: Chats, from: Stage): Chats
    requires At(c, from) > 0
  {
    With(c, from, At(c, from) - 1)
  }

  function Move(c: Chats, from: Stage, to: Stage): Chats
    requires At(c, from) > 0
  {
    Come(Gone(c, from), to)
  }

  ghost function Sum(s: System, fallbackOnly: bool): real {
    LogSum(s.log, s.today - WINDOW_DAYS, fallbackOnly)
  }

  ghost function Spent(s: System): real {
    Sum(s, false)
  }

  ghost function SpentFallback(s: System): real {
    Sum(s, true)
  }

  ghost predicate Enabled(permits: nat, s: System, e: Event) {
    var c := s.chats;
    match e
    case Enter(at) => s.now <= at
    case ReadSpend => At(c, Asking) > 0
    case Pass => At(c, Passing) > 0
    case Refuse(at) => At(c, Refused) > 0 && s.now <= at
    case Start => At(c, Queued) > 0 && Holding(c) < permits
    case PrimaryDone => At(c, AtPrimary) > 0
    case EnterFallback(at) => At(c, AtPrimary) > 0 && s.now <= at
    case ReadSpendAgain => At(c, AskingAgain) > 0
    case ReadFallbackSpend => At(c, AskingFallback) > 0
    case PassFallback => At(c, PassingFallback) > 0
    case RefuseFallback(at) => At(c, RefusedFallback) > 0 && s.now <= at
    case FallbackDone => At(c, AtFallback) > 0
    case RecordPrimary(_, _) => At(c, DonePrimary) > 0
    case RecordFallback(_, _) => At(c, DoneFallback) > 0
    case Drop(stage) => At(c, stage) > 0
    case Midnight(day) => s.today <= day
    case Reset => true
  }

  ghost function Step(cfg: Config, permits: nat, s: System, e: Event): System
    requires Enabled(permits, s, e)
  {
    var c := s.chats;
    match e
    case Enter(at) =>
      var m := Touch(cfg, s.meter, at);
      s.(meter := m, now := at, chats := if m.state == Open then c else Come(c, Asking))
    case ReadSpend => s.(chats := Move(c, Asking, if Reached(cfg.monthlyCap, Spent(s)) then Refused else Passing))
    case Pass => s.(chats := Move(c, Passing, Queued))
    case Refuse(at) => s.(meter := Meter(Open, at), now := at, chats := Gone(c, Refused))
    case Start => s.(chats := Move(c, Queued, AtPrimary))
    case PrimaryDone => s.(chats := Move(c, AtPrimary, DonePrimary))
    case EnterFallback(at) =>
      var m := Touch(cfg, s.meter, at);
      s.(meter := m, now := at,
         chats := if m.state == Open then Gone(c, AtPrimary) else Move(c, AtPrimary, AskingAgain))
    case ReadSpendAgain =>
      s.(chats := Move(c, AskingAgain, if Reached(cfg.monthlyCap, Spent(s)) then RefusedFallback else AskingFallback))
    case ReadFallbackSpend =>
      s.(chats := Move(c, AskingFallback,
                       if Reached(cfg.fallbackCap, SpentFallback(s)) then RefusedFallback else PassingFallback))
    case PassFallback => s.(chats := Move(c, PassingFallback, AtFallback))
    case RefuseFallback(at) => s.(meter := Meter(Open, at), now := at, chats := Gone(c, RefusedFallback))
    case FallbackDone => s.(chats := Move(c, AtFallback, DoneFallback))
    case RecordPrimary(tier, cost) =>
      s.(log := s.log + [Spend(RowKey(s.today, tier, false), cost)], chats := Gone(c, DonePrimary))
    case RecordFallback(tier, cost) =>
      s.(log := s.log + [Spend(RowKey(s.today, tier, true), cost)], chats := Gone(c, DoneFallback))
    case Drop(stage) => s.(chats := Gone(c, stage))
    case Midnight(day) => s.(today := day)
    case Reset => s.(meter := Meter(Closed, 0.0))
  }

  /** A gate that nothing interrupts is `allow` in one piece, whatever other chats do. */
  lemma GateInOnePiece(cfg: Config, permits: nat, s: System, at: real)
    requires s.now <= at
    ensures var (m, ok) := Gate(cfg, s.meter, at, Spent(s), SpentFallback(s), false);
            var s1 := Step(cfg, permits, s, Enter(at));
            if s1.meter.state == Open then !ok && m == s1.meter && s1.chats == s.chats
            else var s2 := Step(cfg, permits, s1, ReadSpend);
              if ok then s2.meter == m && s2.chats == Come(s.chats, Passing)
              else IsRefused(s, s2, Refused) && Step(cfg, permits, s2, Refuse(at)) == s.(meter := m, now := at)
  {}

  /** The chat is about to open the breaker. */
  ghost predicate IsRefused(s: System, s': System, stage: Stage) {
    s'.chats == Come(s.chats, stage) && s'.log == s.log && s'.today == s.today
  }

  /** The same for the gate in front of the fallback provider, which asks for both sums. */
  lemma FallbackGateInOnePiece(cfg: Config, permits: nat, s: System, at: real)
    requires s.now <= at && s.chats.atPrimary > 0
    ensures var (m, ok) := Gate(cfg, s.meter, at, Spent(s), SpentFallback(s), true);
            var left := s.(chats := Gone(s.chats, AtPrimary));
            var s1 := Step(cfg, permits, s, EnterFallback(at));
            if s1.meter.state == Open then !ok && m == s1.meter && s1.chats == left.chats
            else
              var s2 := Step(cfg, permits, s1, ReadSpendAgain);
              if Reached(cfg.monthlyCap, Spent(s)) then
                !ok && IsRefused(left, s2, RefusedFallback)
                && Step(cfg, permits, s2, RefuseFallback(at)) == left.(meter := m, now := at)
              else
                var s3 := Step(cfg, permits, s2, ReadFallbackSpend);
                if ok then s3.meter == m && s3.chats == Come(left.chats, PassingFallback)
                else IsRefused(left, s3, RefusedFallback)
                     && Step(cfg, permits, s3, RefuseFallback(at)) == left.(meter := m, now := at)
  {}

  ghost predicate Feasible(cfg: Config, permits: nat, s: System, es: seq<Event>)
    decreases |es|
  {
    es == [] || (Enabled(permits, s, es[0]) && Feasible(cfg, permits, Step(cfg, permits, s, es[0]), es[1..]))
  }

  ghost function After(cfg: Config, permits: nat, s: System, es: seq<Event>): System
    requires Feasible(cfg, permits, s, es)
    decreases |es|
  {
    if es == [] then s else After(cfg, permits, Step(cfg, permits, s, es[0]), es[1..])
  }

  predicate CostWithin(e: Event, most: real) {
    match e
    case RecordPrimary(_, cost) => 0.0 <= cost <= most
    case RecordFallback(_, cost) => 0.0 <= cost <= most
    case _ => true
  }

  /** Along the run at most k chats, and kf fallback chats, are past their gate and not
      yet recorded, and each costs at most `most`. */
  ghost predicate LoadWithin(cfg: Config, permits: nat, s: System, es: seq<Event>, k: nat, kf: nat, most: real)
    requires Feasible(cfg, permits, s, es)
    decreases |es|
  {
    && Pending(s.chats) <= k && PendingFallback(s.chats) <= kf
    && (es != [] ==> CostWithin(es[0], most)
                     && LoadWithin(cfg, permits, Step(cfg, permits, s, es[0]), es[1..], k, kf, most))
  }

  ghost predicate NonNegative(log: seq<Spend>) {
    forall i :: 0 <= i < |log| ==> log[i].cost >= 0.0
  }

  /** n times the same cost. */
  ghost function Times(n: nat, cost: real): real {
    if n == 0 then 0.0 else Times(n - 1, cost) + cost
  }

  lemma {:induction false} TimesIsProduct(n: nat, cost: real)
    ensures Times(n, cost) == n as real * cost
  {
    if n > 0 { TimesIsProduct(n - 1, cost); }
  }

  lemma {:induction false} TimesGrows(m: nat, n: nat, cost: real)
    requires m <= n && cost >= 0.0
    ensures 0.0 <= Times(m, cost) <= Times(n, cost)
    decreases n
  {
    if m < n { TimesGrows(m, n - 1, cost); } else if n > 0 { TimesGrows(m - 1, n - 1, cost); }
  }

  /** What a gate passage leaves room for: the spend, plus everything pending at the
      highest price, stays below the cap plus k full-price chats. */
  ghost predicate RoomLeft(cap: Option<real>, spent: real, pending: nat, k: nat, most: real) {
    cap.Some? ==> spent + Times(pending, most) < cap.value + Times(k, most)
  }

  ghost predicate Inv(cfg: Config, s: System, k: nat, kf: nat, most: real) {
    && NonNegative(s.log)
    && RoomLeft(cfg.monthlyCap, Spent(s), Pending(s.chats), k, most)
    && RoomLeft(cfg.fallbackCap, SpentFallback(s), PendingFallback(s.chats), kf, most)
  }

  lemma LogSumSnoc(log: seq<Spend>, r: Spend, since: Day, fallbackOnly: bool)
    ensures LogSum(log + [r], since, fallbackOnly)
            == LogSum(log, since, fallbackOnly) + Share(r.key, r.cost, since, fallbackOnly)
  {
    assert (log + [r])[..|log|] == log;
  }

  lemma {:induction false} WindowOnlySheds(log: seq<Spend>, since: Day, later: Day, fallbackOnly: bool)
    requires NonNegative(log) && since <= later
    ensures LogSum(log, later, fallbackOnly) <= LogSum(log, since, fallbackOnly)
    decreases |log|
  {
    if log != [] { WindowOnlySheds(log[..|log| - 1], since, later, fallbackOnly); }
  }

  lemma RoomAfterGate(cap: Option<real>, spent: real, pending: nat, k: nat, most: real)
    requires !Reached(cap, spent) && pending <= k && most >= 0.0
    ensures RoomLeft(cap, spent, pending, k, most)
  {
    TimesGrows(pending, k, most);
  }

  lemma RoomAfterLess(cap: Option<real>, spent: real, pending: nat, spent': real, pending': nat, k: nat, most: real)
    requires RoomLeft(cap, spent, pending, k, most) && most >= 0.0
    requires pending' <= pending && spent' <= spent
    ensures RoomLeft(cap, spent', pending', k, most)
  {
    TimesGrows(pending', pending, most);
  }

  lemma RoomAfterRecord(cap: Option<real>, spent: real, pending: nat, spent': real, k: nat, most: real)
    requires RoomLeft(cap, spent, pending, k, most) && pending > 0 && spent' <= spent + most
    ensures RoomLeft(cap, spent', pending - 1, k, most)
  {
    assert Times(pending, most) == Times(pending - 1, most) + most;
  }

  lemma RoomBounds(cap: Option<real>, spent: real, pending: nat, k: nat, most: real)
    requires RoomLeft(cap, spent, pending, k, most) && most >= 0.0
    ensures cap.Some? ==> spent < cap.value + k as real * most
  {
    TimesGrows(0, pending, most);
    TimesIsProduct(k, most);
  }

  lemma RecordedRoom(s: System, s': System, r: Spend)
    requires s'.log == s.log + [r] && s'.today == s.today == r.key.day
    ensures Spent(s') == Spent(s) + r.cost
    ensures SpentFallback(s') == SpentFallback(s) + if r.key.fallback then r.cost else 0.0
  {
    LogSumSnoc(s.log, r, s.today - WINDOW_DAYS, false);
    LogSumSnoc(s.log, r, s.today - WINDOW_DAYS, true);
  }

  /** How one step can change a spend and the number of chats pending behind its gate:
      one more chat, let in below the cap; or one fewer, recorded; or neither grows. */
  ghost predicate Moves(cap: Option<real>, spent: real, pending: nat, spent': real, pending': nat, most: real) {
    || (spent' == spent && pending' == pending + 1 && !Reached(cap, spent))
    || (spent' <= spent + most && pending > 0 && pending' == pending - 1)
    || (spent' <= spent && pending' <= pending)
  }

  lemma StepNonNegative(cfg: Config, permits: nat, s: System, e: Event, most: real)
    requires NonNegative(s.log) && Enabled(permits, s, e) && CostWithin(e, most)
    ensures NonNegative(Step(cfg, permits, s, e).log)
  {}

  // The two budgets are alike: fallbackOnly chooses the sum, its cap and the chats counted.

  function Cap(cfg: Config, fallbackOnly: bool): Option<real> {
    if fallbackOnly then cfg.fallbackCap else cfg.monthlyCap
  }

  predicate Past(stage: Stage, fallbackOnly: bool) {
    if fallbackOnly then stage.PassingFallback? || stage.AtFallback? || stage.DoneFallback?
    else !stage.Asking? && !stage.Refused? && !stage.RefusedFallback?
  }

  function Count(c: Chats, fallbackOnly: bool): nat {
    if fallbackOnly then PendingFallback(c) else Pending(c)
  }

  lemma CountCome(c: Chats, to: Stage, f: bool)
    ensures Count(Come(c, to), f) == Count(c, f) + if Past(to, f) then 1 else 0
  {}

  lemma CountGone(c: Chats, from: Stage, f: bool)
    requires At(c, from) > 0
    ensures Count(Gone(c, from), f) == Count(c, f) - if Past(from, f) then 1 else 0
    ensures Past(from, f) ==> Count(c, f) > 0
  {
    assert Come(Gone(c, from), from) == c;
    CountCome(Gone(c, from), from, f);
  }

  lemma CountMove(c: Chats, from: Stage, to: Stage, f: bool)
    requires At(c, from) > 0
    ensures Count(Move(c, from, to), f)
            == Count(c, f) - (if Past(from, f) then 1 else 0) + if Past(to, f) then 1 else 0
  {
    CountGone(c, from, f);
    CountCome(Gone(c, from), to, f);
  }

  /** Moves, for the sum and the chats of one budget. */
  ghost predicate StepIs(cfg: Config, s: System, s': System, most: real, f: bool) {
    Moves(Cap(cfg, f), Sum(s, f), Count(s.chats, f), Sum(s', f), Count(s'.chats, f), most)
  }

  lemma MoveMoves(cfg: Config, s: System, s': System, from: Stage, to: Stage, most: real, f: bool)
    requires most >= 0.0 && At(s.chats, from) > 0 && s'.chats == Move(s.chats, from, to)
    requires s'.log == s.log && s'.today == s.today
    requires Past(to, f) ==> Past(from, f) || !Reached(Cap(cfg, f), Sum(s, f))
    ensures StepIs(cfg, s, s', most, f)
  {
    CountMove(s.chats, from, to, f);
  }

  lemma GoneMoves(cfg: Config, s: System, s': System, from: Stage, most: real, f: bool)
    requires most >= 0.0 && At(s.chats, from) > 0 && s'.chats == Gone(s.chats, from)
    requires Sum(s', f) <= Sum(s, f) || (Past(from, f) && Sum(s', f) <= Sum(s, f) + most)
    ensures StepIs(cfg, s, s', most, f)
  {
    CountGone(s.chats, from, f);
  }

  /** A chat that only changes its place. */
  function Change(cfg: Config, e: Event, reached: bool, fallbackReached: bool): Option<(Stage, Stage)> {
    match e
    case ReadSpend => Some((Asking, if reached then Refused else Passing))
    case Pass => Some((Passing, Queued))
    case Start => Some((Queued, AtPrimary))
    case PrimaryDone => Some((AtPrimary, DonePrimary))
    case ReadSpendAgain => Some((AskingAgain, if reached then RefusedFallback else AskingFallback))
    case ReadFallbackSpend => Some((AskingFallback, if fallbackReached then RefusedFallback else PassingFallback))
    case PassFallback => Some((PassingFallback, AtFallback))
    case FallbackDone => Some((AtFallback, DoneFallback))
    case _ => None
  }

  lemma StepChanges(cfg: Config, permits: nat, s: System, e: Event, most: real, f: bool)
    requires most >= 0.0 && Enabled(permits, s, e)
    requires var reached := Reached(cfg.monthlyCap, Spent(s));
             Change(cfg, e, reached, Reached(cfg.fallbackCap, SpentFallback(s))).Some?
    ensures StepIs(cfg, s, Step(cfg, permits, s, e), most, f)
  {
    var change := Change(cfg, e, Reached(cfg.monthlyCap, Spent(s)), Reached(cfg.fallbackCap, SpentFallback(s))).value;
    MoveMoves(cfg, s, Step(cfg, permits, s, e), change.0, change.1, most, f);
  }

  lemma StepRecords(cfg: Config, permits: nat, s: System, e: Event, most: real, f: bool)
    requires most >= 0.0 && Enabled(permits, s, e) && CostWithin(e, most) && (e.RecordPrimary? || e.RecordFallback?)
    ensures StepIs(cfg, s, Step(cfg, permits, s, e), most, f)
  {
    var s' := Step(cfg, permits, s, e);
    RecordedRoom(s, s', Spend(RowKey(s.today, e.tier, e.RecordFallback?), e.cost));
    GoneMoves(cfg, s, s', if e.RecordFallback? then DoneFallback else DonePrimary, most, f);
  }

  lemma StepLeaves(cfg: Config, permits: nat, s: System, e: Event, most: real, f: bool)
    requires most >= 0.0 && Enabled(permits, s, e) && (e.Refuse? || e.RefuseFallback? || e.Drop?)
    ensures StepIs(cfg, s, Step(cfg, permits, s, e), most, f)
  {
    var stage := if e.Refuse? then Refused else if e.RefuseFallback? then RefusedFallback else e.stage;
    GoneMoves(cfg, s, Step(cfg, permits, s, e), stage, most, f);
  }

  lemma StepEnters(cfg: Config, permits: nat, s: System, e: Event, most: real, f: bool)
    requires most >= 0.0 && Enabled(permits, s, e) && (e.Enter? || e.EnterFallback?)
    ensures StepIs(cfg, s, Step(cfg, permits, s, e), most, f)
  {
    var s' := Step(cfg, permits, s, e);
    if e.Enter? {
      CountCome(s.chats, Asking, f);
    } else if s'.meter.state == Open {
      GoneMoves(cfg, s, s', AtPrimary, most, f);
    } else {
      MoveMoves(cfg, s, s', AtPrimary, AskingAgain, most, f);
    }
  }

  lemma StepMoves(cfg: Config, permits: nat, s: System, e: Event, most: real, f: bool)
    requires most >= 0.0 && NonNegative(s.log) && Enabled(permits, s, e) && CostWithin(e, most)
    ensures StepIs(cfg, s, Step(cfg, permits, s, e), most, f)
  {
    if e.Enter? || e.EnterFallback? {
      StepEnters(cfg, permits, s, e, most, f);
    } else if e.Refuse? || e.RefuseFallback? || e.Drop? {
      StepLeaves(cfg, permits, s, e, most, f);
    } else if e.RecordPrimary? || e.RecordFallback? {
      StepRecords(cfg, permits, s, e, most, f);
    } else if e.Midnight? {
      WindowOnlySheds(s.log, s.today - WINDOW_DAYS, e.day - WINDOW_DAYS, f);
    } else if !e.Reset? {
      StepChanges(cfg, permits, s, e, most, f);
    }
  }

  lemma RoomKept(cap: Option<real>, spent: real, pending: nat, spent': real, pending': nat, k: nat, most: real)
    requires most >= 0.0 && RoomLeft(cap, spent, pending, k, most) && pending' <= k
    requires Moves(cap, spent, pending, spent', pending', most)
    ensures RoomLeft(cap, spent', pending', k, most)
  {
    if spent' <= spent && pending' <= pending {
      RoomAfterLess(cap, spent, pending, spent', pending', k, most);
    } else if pending' == pending + 1 {
      RoomAfterGate(cap, spent, pending', k, most);
    } else {
      RoomAfterRecord(cap, spent, pending, spent', k, most);
    }
  }

  lemma StepKeepsInv(cfg: Config, permits: nat, s: System, e: Event, k: nat, kf: nat, most: real)
    requires most >= 0.0 && Inv(cfg, s, k, kf, most) && Enabled(permits, s, e) && CostWithin(e, most)
    requires Pending(Step(cfg, permits, s, e).chats) <= k && PendingFallback(Step(cfg, permits, s, e).chats) <= kf
    ensures Inv(cfg, Step(cfg, permits, s, e), k, kf, most)
  {
    var s' := Step(cfg, permits, s, e);
    StepNonNegative(cfg, permits, s, e, most);
    StepMoves(cfg, permits, s, e, most, false);
    StepMoves(cfg, permits, s, e, most, true);
    RoomKept(cfg.monthlyCap, Spent(s), Pending(s.chats), Spent(s'), Pending(s'.chats), k, most);
    RoomKept(cfg.fallbackCap, SpentFallback(s), PendingFallback(s.chats),
             SpentFallback(s'), PendingFallback(s'.chats), kf, most);
  }

  /** Nothing is past the gate, and neither cap is reached. */
  ghost predicate BelowCaps(cfg: Config, s: System) {
    && NonNegative(s.log) && Pending(s.chats) == 0
    && !Reached(cfg.monthlyCap, Spent(s)) && !Reached(cfg.fallbackCap, SpentFallback(s))
  }

  lemma InvAtStart(cfg: Config, s: System, k: nat, kf: nat, most: real)
    requires most >= 0.0 && BelowCaps(cfg, s)
    ensures Inv(cfg, s, k, kf, most)
  {
    assert PendingFallback(s.chats) == 0;
    RoomAfterGate(cfg.monthlyCap, Spent(s), 0, k, most);
    RoomAfterGate(cfg.fallbackCap, SpentFallback(s), 0, kf, most);
  }

  /** Spend below the cap plus k full-price chats, for both budgets. */
  ghost predicate WithinBudget(cfg: Config, s: System, k: nat, kf: nat, most: real) {
    && (cfg.monthlyCap.Some? ==> Spent(s) < cfg.monthlyCap.value + k as real * most)
    && (cfg.fallbackCap.Some? ==> SpentFallback(s) < cfg.fallbackCap.value + kf as real * most)
  }

  lemma InvBounds(cfg: Config, s: System, k: nat, kf: nat, most: real)
    requires most >= 0.0 && Inv(cfg, s, k, kf, most)
    ensures WithinBudget(cfg, s, k, kf, most)
  {
    RoomBounds(cfg.monthlyCap, Spent(s), Pending(s.chats), k, most);
    RoomBounds(cfg.fallbackCap, SpentFallback(s), PendingFallback(s.chats), kf, most);
  }

  ghost predicate WithinBudgetAlong(cfg: Config, permits: nat, s: System, es: seq<Event>, k: nat, kf: nat, most: real)
    requires Feasible(cfg, permits, s, es)
    decreases |es|
  {
    && WithinBudget(cfg, s, k, kf, most)
    && (es != [] ==> WithinBudgetAlong(cfg, permits, Step(cfg, permits, s, es[0]), es[1..], k, kf, most))
  }

  lemma {:induction false} RunStaysWithin(cfg: Config, permits: nat, s: System, es: seq<Event>,
                                          k: nat, kf: nat, most: real)
    requires most >= 0.0 && Inv(cfg, s, k, kf, most) && Feasible(cfg, permits, s, es)
    requires LoadWithin(cfg, permits, s, es, k, kf, most)
    ensures WithinBudgetAlong(cfg, permits, s, es, k, kf, most)
    decreases |es|
  {
    InvBounds(cfg, s, k, kf, most);
    if es != [] {
      StepKeepsInv(cfg, permits, s, es[0], k, kf, most);
      RunStaysWithin(cfg, permits, Step(cfg, permits, s, es[0]), es[1..], k, kf, most);
    }
  }

  /** From any spend below the caps, rolling spend stays below the cap plus k full-price chats
      at every moment of every interleaving, where k bounds the chats that the gate let through,
      from the sum they read on, and that have not recorded; and fallback spend likewise. */
  lemma SpendBound(cfg: Config, permits: nat, s: System, es: seq<Event>, k: nat, kf: nat, most: real)
    requires most >= 0.0 && BelowCaps(cfg, s)
    requires Feasible(cfg, permits, s, es) && LoadWithin(cfg, permits, s, es, k, kf, most)
    ensures WithinBudgetAlong(cfg, permits, s, es, k, kf, most)
  {
    InvAtStart(cfg, s, k, kf, most);
    RunStaysWithin(cfg, permits, s, es, k, kf, most);
  }

  // ----- The caller's semaphore does not bound the overshoot -----

  /** m chats queued, nothing else in flight. */
  ghost function Waiting(today: Day, log: seq<Spend>, m: nat): System {
    System(log, Meter(Closed, 0.0), NO_CHATS.(queued := m), today, 0.0)
  }

  /** A run behind one permit, with at most k chats past the gate at this price. */
  ghost predicate Queues(cfg: Config, s: System, es: seq<Event>, k: nat, most: real) {
    Feasible(cfg, 1, s, es) && (most >= 0.0 ==> LoadWithin(cfg, 1, s, es, k, 0, most))
  }

  /** A run with one more event in front. */
  lemma Head(cfg: Config, s: System, e: Event, s1: System, es: seq<Event>, k: nat, most: real)
    returns (more: seq<Event>)
    requires Enabled(1, s, e) && s1 == Step(cfg, 1, s, e) && Queues(cfg, s1, es, k, most)
    requires Pending(s.chats) <= k && PendingFallback(s.chats) == 0 && (most >= 0.0 ==> CostWithin(e, most))
    ensures Queues(cfg, s, more, k, most) && After(cfg, 1, s, more) == After(cfg, 1, s1, es)
  {
    more := [e] + es;
    assert more[1..] == es;
  }

  /** One chat gets through the gate and queues; then the run goes on. */
  lemma EnterOne(cfg: Config, today: Day, log: seq<Spend>, m: nat, es: seq<Event>, k: nat, most: real)
    returns (more: seq<Event>)
    requires !Reached(cfg.monthlyCap, LogSum(log, today - WINDOW_DAYS, false)) && m < k
    requires Queues(cfg, Waiting(today, log, m + 1), es, k, most)
    ensures Queues(cfg, Waiting(today, log, m), more, k, most)
    ensures After(cfg, 1, Waiting(today, log, m), more) == After(cfg, 1, Waiting(today, log, m + 1), es)
  {
    var s := Waiting(today, log, m);
    var s1 := s.(chats := s.chats.(asking := 1));
    var s2 := s.(chats := s.chats.(passing := 1));
    more := Head(cfg, s2, Pass, Waiting(today, log, m + 1), es, k, most);
    more := Head(cfg, s1, ReadSpend, s2, more, k, most);
    more := Head(cfg, s, Enter(0.0), s1, more, k, most);
  }

  /** n chats queue up behind one permit before any of them records; then the run goes on. */
  lemma {:induction false} QueueUp(cfg: Config, today: Day, log: seq<Spend>, n: nat, m: nat, es: seq<Event>,
                                   k: nat, most: real) returns (more: seq<Event>)
    requires !Reached(cfg.monthlyCap, LogSum(log, today - WINDOW_DAYS, false)) && m + n <= k
    requires Queues(cfg, Waiting(today, log, m + n), es, k, most)
    ensures Queues(cfg, Waiting(today, log, m), more, k, most)
    ensures After(cfg, 1, Waiting(today, log, m), more) == After(cfg, 1, Waiting(today, log, m + n), es)
    decreases n
  {
    if n == 0 {
      more := es;
    } else {
      more := QueueUp(cfg, today, log, n - 1, m + 1, es, k, most);
      more := EnterOne(cfg, today, log, m, more, k, most);
    }
  }

  /** One chat is served and recorded; then the run goes on. */
  lemma ServeOne(cfg: Config, today: Day, log: seq<Spend>, m: nat, r: Spend, es: seq<Event>, k: nat)
    returns (more: seq<Event>)
    requires 0 < m <= k && r.key == RowKey(today, Pro, false)
    requires Queues(cfg, Waiting(today, log + [r], m - 1), es, k, r.cost)
    ensures Queues(cfg, Waiting(today, log, m), more, k, r.cost)
    ensures After(cfg, 1, Waiting(today, log, m), more) == After(cfg, 1, Waiting(today, log + [r], m - 1), es)
  {
    var s, rest := Waiting(today, log, m), NO_CHATS.(queued := m - 1);
    var s1 := s.(chats := rest.(atPrimary := 1));
    var s2 := s.(chats := rest.(donePrimary := 1));
    more := Head(cfg, s2, RecordPrimary(Pro, r.cost), Waiting(today, log + [r], m - 1), es, k, r.cost);
    more := Head(cfg, s1, PrimaryDone, s2, more, k, r.cost);
    more := Head(cfg, s, Start, s1, more, k, r.cost);
  }

  /** The log after m more records like r. */
  ghost function Billed(log: seq<Spend>, m: nat, r: Spend): seq<Spend>
    decreases m
  {
    if m == 0 then log else Billed(log + [r], m - 1, r)
  }

  lemma {:induction false} BilledSum(log: seq<Spend>, m: nat, r: Spend, since: Day)
    requires r.key.day >= since
    ensures LogSum(Billed(log, m, r), since, false) == LogSum(log, since, false) + Times(m, r.cost)
    decreases m
  {
    if m > 0 {
      LogSumSnoc(log, r, since, false);
      BilledSum(log + [r], m - 1, r, since);
    }
  }

  /** The m chats in the queue are served one after the other, at the same price. */
  lemma {:induction false} Serve(cfg: Config, today: Day, log: seq<Spend>, m: nat, r: Spend, k: nat)
    returns (es: seq<Event>)
    requires r.key == RowKey(today, Pro, false) && m <= k
    ensures Queues(cfg, Waiting(today, log, m), es, k, r.cost)
    ensures After(cfg, 1, Waiting(today, log, m), es) == Waiting(today, Billed(log, m, r), 0)
    decreases m
  {
    if m == 0 {
      es := [];
    } else {
      es := Serve(cfg, today, log + [r], m - 1, r, k);
      es := ServeOne(cfg, today, log, m, r, es, k);
    }
  }

  /** The gate comes before the caller's semaphore, so even a semaphore of one lets any
      number of chats through as long as the recorded spend is below the cap: n of them then
      add n full prices to it. */
  lemma QueueOvershoots(cfg: Config, today: Day, log: seq<Spend>, n: nat, cost: real) returns (es: seq<Event>)
    requires !Reached(cfg.monthlyCap, LogSum(log, today - WINDOW_DAYS, false))
    ensures Queues(cfg, Waiting(today, log, 0), es, n, cost)
    ensures Spent(After(cfg, 1, Waiting(today, log, 0), es))
            == LogSum(log, today - WINDOW_DAYS, false) + n as real * cost
  {
    var r := Spend(RowKey(today, Pro, false), cost);
    var serve := Serve(cfg, today, log, n, r, n);
    es := QueueUp(cfg, today, log, n, 0, serve, n, cost);
    BilledSum(log, n, r, today - WINDOW_DAYS);
    TimesIsProduct(n, cost);
  }

  /** The bound cannot be lowered: for every cap, load, price and margin some run that meets
      what `SpendBound` asks for comes closer to cap + k * price than the margin. */
  lemma SpendBoundIsTight(cfg: Config, today: Day, k: nat, most: real, margin: real)
    returns (s: System, es: seq<Event>)
    requires cfg.monthlyCap.Some? && cfg.monthlyCap.value > 0.0 && !Reached(cfg.fallbackCap, 0.0)
    requires most >= 0.0 && margin > 0.0
    ensures BelowCaps(cfg, s) && Feasible(cfg, 1, s, es) && LoadWithin(cfg, 1, s, es, k, 0, most)
    ensures Spent(After(cfg, 1, s, es)) > cfg.monthlyCap.value + k as real * most - margin
  {
    var below := JustBelow(cfg.monthlyCap.value, margin);
    var log := OneRecord(cfg, today, below);
    es := QueueOvershoots(cfg, today, log, k, most);
    s := Waiting(today, log, 0);
  }

  lemma JustBelow(cap: real, margin: real) returns (below: real)
    requires cap > 0.0 && margin > 0.0
    ensures 0.0 < below < cap && below > cap - margin
  {
    below := if margin < cap then cap - margin / 2.0 else cap / 2.0;
  }

  lemma OneRecord(cfg: Config, today: Day, cost: real) returns (log: seq<Spend>)
    requires cost >= 0.0 && !Reached(cfg.monthlyCap, cost) && !Reached(cfg.fallbackCap, 0.0)
    ensures BelowCaps(cfg, Waiting(today, log, 0)) && LogSum(log, today - WINDOW_DAYS, false) == cost
  {
    var r := Spend(RowKey(today, Pro, false), cost);
    log := [r];
    OneRecordSum(r, today - WINDOW_DAYS, false);
    OneRecordSum(r, today - WINDOW_DAYS, true);
    StartsBelow(cfg, today, log);
  }

  lemma StartsBelow(cfg: Config, today: Day, log: seq<Spend>)
    requires NonNegative(log)
    requires !Reached(cfg.monthlyCap, LogSum(log, today - WINDOW_DAYS, false))
    requires !Reached(cfg.fallbackCap, LogSum(log, today - WINDOW_DAYS, true))
    ensures BelowCaps(cfg, Waiting(today, log, 0))
  {
    var s := Waiting(today, log, 0);
    assert s.chats == NO_CHATS;
    assert Spent(s) == LogSum(log, today - WINDOW_DAYS, false);
    assert SpentFallback(s) == LogSum(log, today - WINDOW_DAYS, true);
  }

  lemma OneRecordSum(r: Spend, since: Day, fallbackOnly: bool)
    ensures LogSum([r], since, fallbackOnly) == Share(r.key, r.cost, since, fallbackOnly)
  {
    assert [] + [r] == [r];
    LogSumSnoc([], r, since, fallbackOnly);
  }
}
