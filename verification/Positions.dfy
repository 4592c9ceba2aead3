/** The life of a paper position: opened from an advice at a slipped price
    (apps/agent_backtest/backtest/opener.py, slippage.py), marked on every tick
    (mtm/scheduler.py), closed at a band edge or at expiry (exits.py). */
module Positions {
  import opened Basics
  import opened AdviceSchema
  import RiskShape

  datatype Advice = Advice(id: string, ticker: string, venue: string, direction: Direction,
                           entry: Band, target: Band, stopLoss: real, sizingPctNav: real, expiresAt: real)

  datatype State = Opened | Closed

  datatype ExitReason = TargetHit | StopHit | Expired

  datatype Position = Position(adviceId: string, ticker: string, direction: Direction, entry: Band, target: Band,
                               stopLoss: real, expiresAt: real, openedAt: real, fillPx: real, state: State,
                               closedAt: Option<real>, exitPx: Option<real>, exitReason: Option<ExitReason>,
                               pnlUsd: real, pnlR: real, marks: seq<(real, real)>)

  // ----- Slippage -----

  const LIQUID_VENUES := {"NASDAQ", "NYSE", "HKEX", "SSE", "SZSE"}
  const BASE_LIQUID_BPS := 5.0
  const BASE_OTHER_BPS := 15.0
  const SIZE_FACTOR_BPS := 5.0
  const SIZE_THRESHOLD_PCT := 0.005

  /** What the opener is told about the market. */
  datatype Conditions = Conditions(dollarVolume: real, realizedVolPct: real)

  function SlippageBps(venue: string, sizeUsd: real, k: Conditions): real {
    var base := if venue in LIQUID_VENUES then BASE_LIQUID_BPS else BASE_OTHER_BPS;
    var sizeFactor :=
      if k.dollarVolume > 0.0 && sizeUsd > SIZE_THRESHOLD_PCT * k.dollarVolume then SIZE_FACTOR_BPS else 0.0;
    base + sizeFactor + 0.05 * k.realizedVolPct
  }

  function Midpoint(b: Band): real {
    (b.lo + b.hi) / 2.0
  }

  function FillPrice(entry: Band, direction: Direction, bps: real): real {
    Midpoint(entry) * (1.0 + (if direction == Long then 1.0 else -1.0) * bps / 10000.0)
  }

  // ----- Exits -----

  function CheckExit(p: Position, mark: real, asof: real): (bool, Option<ExitReason>, real) {
    if p.state != Opened then
      (false, None, if p.exitPx.Some? && p.exitPx.value != 0.0 then p.exitPx.value else p.fillPx)
    else if p.direction == Long && mark >= p.target.lo then (true, Some(TargetHit), p.target.lo)
    else if p.direction == Long && mark <= p.stopLoss then (true, Some(StopHit), p.stopLoss)
    else if p.direction != Long && mark <= p.target.hi then (true, Some(TargetHit), p.target.hi)
    else if p.direction != Long && mark >= p.stopLoss then (true, Some(StopHit), p.stopLoss)
    else if asof >= p.expiresAt then (true, Some(Expired), mark)
    else (false, None, mark)
  }

  function RiskUnit(p: Position): real {
    var d := if p.fillPx >= p.stopLoss then p.fillPx - p.stopLoss else p.stopLoss - p.fillPx;
    if d == 0.0 then 1.0 else d
  }

  function PnlUsd(p: Position, exitPx: real): real {
    if p.direction == Long then exitPx - p.fillPx else p.fillPx - exitPx
  }

  function RealizePnl(p: Position, exitPx: real): (real, real) {
    (PnlUsd(p, exitPx), PnlUsd(p, exitPx) / RiskUnit(p))
  }

  // ----- Opening and ticking, on the store's dictionary -----

  type Book = map<string, Position>

  function NewPosition(a: Advice, k: Conditions, now: real): Position {
    var px := FillPrice(a.entry, a.direction, SlippageBps(a.venue, a.sizingPctNav * 1000000.0 / 100.0, k));
    Position(a.id, a.ticker, a.direction, a.entry, a.target, a.stopLoss, a.expiresAt, now, px,
             Opened, None, None, None, 0.0, 0.0, [])
  }

  /** A position as it is opened: the terms of the advice, the present time, no mark yet, and
      the midpoint of the entry band slipped against the trade. */
  ghost predicate OpenedFrom(p: Position, a: Advice, k: Conditions, now: real) {
    && p.adviceId == a.id && p.ticker == a.ticker && p.direction == a.direction
    && p.entry == a.entry && p.target == a.target && p.stopLoss == a.stopLoss && p.expiresAt == a.expiresAt
    && p.openedAt == now && p.state == Opened && p.marks == []
    && p.closedAt.None? && p.exitPx.None? && p.exitReason.None? && p.pnlUsd == p.pnlR == 0.0
    && var slip := Midpoint(a.entry) * SlippageBps(a.venue, a.sizingPctNav * 10000.0, k) / 10000.0;
       p.fillPx == if a.direction == Long then Midpoint(a.entry) + slip else Midpoint(a.entry) - slip
  }

  lemma NewIsOpenedFrom(a: Advice, k: Conditions, now: real)
    ensures OpenedFrom(NewPosition(a, k, now), a, k, now)
  {
    var m, bps := Midpoint(a.entry), SlippageBps(a.venue, a.sizingPctNav * 10000.0, k);
    assert a.sizingPctNav * 1000000.0 / 100.0 == a.sizingPctNav * 10000.0;
    assert m * (1.0 + bps / 10000.0) == m + m * (bps / 10000.0);
    assert m * (1.0 - bps / 10000.0) == m - m * (bps / 10000.0);
    assert m * (bps / 10000.0) == m * bps / 10000.0;
  }

  /** What slippage depends on: ten basis points for a venue off the liquid list, five for a
      size above half a percent of a known dollar volume, and a twentieth of the volatility. */
  lemma SlippageGrows(venue: string, other: string, size: real, larger: real, k: Conditions, vol: real)
    requires venue in LIQUID_VENUES && other !in LIQUID_VENUES && size <= larger
    ensures SlippageBps(other, size, k) == SlippageBps(venue, size, k) + 10.0
    ensures SlippageBps(venue, larger, k) - SlippageBps(venue, size, k)
            == if k.dollarVolume > 0.0 && size <= k.dollarVolume / 200.0 < larger then 5.0 else 0.0
    ensures SlippageBps(venue, size, k.(realizedVolPct := vol)) - SlippageBps(venue, size, k)
            == (vol - k.realizedVolPct) / 20.0
    ensures SlippageBps(venue, 0.0, Conditions(k.dollarVolume, 0.0)) == 5.0
  {}

  function OpenIn(book: Book, a: Advice, k: Conditions, now: real): Book {
    if a.id in book || a.direction == Flat then book else book[a.id := NewPosition(a, k, now)]
  }

  /** What one tick does to one position; prices holds the marks that were found. */
  function TickOne(p: Position, prices: map<string, real>, asof: real): Position {
    if p.state != Opened || p.ticker !in prices then p
    else
      var px := prices[p.ticker];
      var marked := p.(marks := p.marks + [(asof, px)]);
      var (exited, reason, exitPx) := CheckExit(marked, px, asof);
      if exited then Close(marked, asof, reason, exitPx) else marked
  }

  function Close(p: Position, asof: real, reason: Option<ExitReason>, exitPx: real): Position {
    p.(state := Closed, closedAt := Some(asof), exitPx := Some(exitPx), exitReason := reason,
       pnlUsd := RealizePnl(p, exitPx).0, pnlR := RealizePnl(p, exitPx).1)
  }

  /** A tick that gets to the given positions; TickOne leaves closed ones alone. */
  function TickSome(book: Book, ids: set<string>, prices: map<string, real>, asof: real): Book {
    map id | id in book :: if id in ids then TickOne(book[id], prices, asof) else book[id]
  }

  function OpenIds(book: Book): set<string> {
    set id | id in book && book[id].state == Opened
  }

  ghost predicate WellKeyed(book: Book) {
    forall id :: id in book ==> book[id].adviceId == id
  }

  class InMemoryPositionStore {
    var byId: Book

    constructor ()
      ensures byId == map[]
    {
      byId := map[];
    }

    method Upsert(p: Position) returns (isNew: bool)
      modifies this
      ensures isNew <==> p.adviceId !in old(byId)
      ensures byId == old(byId)[p.adviceId := p]
    {
      isNew := p.adviceId !in byId;
      byId := byId[p.adviceId := p];
    }

    function Get(adviceId: string): Option<Position>
      reads this
    {
      if adviceId in byId then Some(byId[adviceId]) else None
    }
  }

  /** None stands for the ValueError of a flat advice. */
  method OpenPosition(a: Advice, store: InMemoryPositionStore, k: Conditions, now: real) returns (p: Option<Position>)
    modifies store
    ensures store.byId == OpenIn(old(store.byId), a, k, now)
    ensures p == if a.id in store.byId then Some(store.byId[a.id]) else None
    ensures a.id in old(store.byId) ==> p == Some(old(store.byId)[a.id])
    ensures a.id !in old(store.byId) ==> (p.None? <==> a.direction == Flat)
    ensures a.id !in old(store.byId) && p.Some? ==> OpenedFrom(p.value, a, k, now)
  {
    var existing := store.Get(a.id);
    if existing.Some? {
      return existing;
    }
    if a.direction == Flat {
      return None;
    }
    var pos := NewPosition(a, k, now);
    NewIsOpenedFrom(a, k, now);
    var _ := store.Upsert(pos);
    p := Some(pos);
  }

  /** The body of the loop, for one open position. */
  method TickPosition(store: InMemoryPositionStore, id: string, prices: map<string, real>, asof: real)
    returns (exited: bool)
    requires id in store.byId && store.byId[id].state == Opened && store.byId[id].adviceId == id
    modifies store
    ensures store.byId == old(store.byId)[id := TickOne(old(store.byId)[id], prices, asof)]
    ensures exited <==> store.byId[id].state == Closed
    ensures Truthful(old(store.byId)[id]) ==> Truthful(store.byId[id])
  {
    exited := false;
    var pos := store.byId[id];
    if Truthful(pos) { TickKeepsTruthful(pos, prices, asof); }
    if pos.ticker in prices {
      var px := prices[pos.ticker];
      pos := pos.(marks := pos.marks + [(asof, px)]);
      var (out, reason, exitPx) := CheckExit(pos, px, asof);
      if out {
        var (usd, r) := RealizePnl(pos, exitPx);
        pos := pos.(state := Closed, closedAt := Some(asof), exitPx := Some(exitPx), exitReason := reason,
                    pnlUsd := usd, pnlR := r);
        exited := true;
      }
      var _ := store.Upsert(pos);
    } else {
      assert store.byId == store.byId[id := pos];
    }
  }

  /** One more position in a tick. */
  lemma TickOneMore(book: Book, done: set<string>, id: string, prices: map<string, real>, asof: real)
    requires WellKeyed(book) && id in OpenIds(book) && id !in done
    ensures var before := TickSome(book, done, prices, asof);
            && id in OpenIds(before) && before[id].adviceId == id
            && TickSome(book, done + {id}, prices, asof) == before[id := TickOne(before[id], prices, asof)]
  {}

  /** One pass of the loop: `book` is the store as the tick found it, `done` are the positions
      it has got to. */
  method TickNext(store: InMemoryPositionStore, book: Book, done: set<string>, id: string,
                  prices: map<string, real>, asof: real) returns (exited: bool)
    requires WellKeyed(book) && id in OpenIds(book) && id !in done
    requires store.byId == TickSome(book, done, prices, asof)
    modifies store
    ensures store.byId == TickSome(book, done + {id}, prices, asof)
    ensures |OpenIds(store.byId)| == |OpenIds(old(store.byId))| - if exited then 1 else 0
  {
    TickOneMore(book, done, id, prices, asof);
    ghost var before := store.byId;
    exited := TickPosition(store, id, prices, asof);
    OpenIdsAfter(before, id, store.byId[id]);
  }

  /** The loop of `tick` over the open positions, in the order the dictionary gives. After a
      close the callback runs; if it raises, the tick ends there (None) and the positions not
      yet visited are left as they were. */
  method Tick(store: InMemoryPositionStore, prices: map<string, real>, asof: real)
    returns (closed: Option<nat>, visited: set<string>)
    requires WellKeyed(store.byId)
    modifies store
    ensures visited <= OpenIds(old(store.byId))
    ensures store.byId == TickSome(old(store.byId), visited, prices, asof)
    ensures closed.Some? ==> visited == OpenIds(old(store.byId))
    ensures closed.Some? ==> closed.value == |OpenIds(old(store.byId))| - |OpenIds(store.byId)|
    ensures closed.None? ==> |OpenIds(store.byId)| < |OpenIds(old(store.byId))|
  {
    var count: nat := 0;
    var book := store.byId;
    var todo := OpenIds(store.byId);
    visited := {};
    TickNone(book, prices, asof);
    while todo != {}
      invariant visited !! todo && visited + todo == OpenIds(book)
      invariant store.byId == TickSome(book, visited, prices, asof)
      invariant count + |OpenIds(store.byId)| == |OpenIds(book)|
      decreases todo
    {
      var id :| id in todo;
      VisitOne(visited, todo, id, OpenIds(book));
      var exited := TickNext(store, book, visited, id, prices, asof);
      todo, visited := todo - {id}, visited + {id};
      if exited {
        count := count + 1;
        var raised: bool := *;
        if raised {
          return None, visited;
        }
      }
    }
    closed := Some(count);
  }

  /** One of those to do becomes one of those visited. */
  lemma VisitOne(visited: set<string>, todo: set<string>, id: string, all: set<string>)
    requires visited !! todo && visited + todo == all && id in todo
    ensures id in all && id !in visited && todo - {id} < todo
    ensures visited + {id} !! todo - {id} && visited + {id} + (todo - {id}) == all
  {}

  lemma TickNone(book: Book, prices: map<string, real>, asof: real)
    ensures TickSome(book, {}, prices, asof) == book
  {}

  lemma OpenIdsAfter(book: Book, id: string, p: Position)
    requires id in book && book[id].state == Opened
    ensures |OpenIds(book[id := p])| == |OpenIds(book)| - if p.state == Opened then 0 else 1
  {
    assert id in OpenIds(book);
    assert OpenIds(book[id := p]) == if p.state == Opened then OpenIds(book) else OpenIds(book) - {id};
  }

  // ----- The loss bound -----

  /** The fill lies on the side of the stop where the position has something to lose. */
  predicate OnRiskSide(p: Position) {
    if p.direction == Long then p.fillPx > p.stopLoss else p.fillPx < p.stopLoss
  }

  predicate WellFormed(p: Position) {
    p.direction != Flat && PricesValid(p.direction, p.entry, p.target, p.stopLoss)
  }

  lemma RatioBound(x: real, r: real)
    requires r > 0.0
    ensures x / r >= -1.0 <==> x >= -r
    ensures x / r == -1.0 <==> x == -r
  {
    assert x / r * r == x;
    if x / r >= -1.0 { assert x / r * r >= -1.0 * r; }
    if x / r < -1.0 { assert x / r * r < -1.0 * r; }
  }

  /** An exit at this mark loses at most one unit of risk, and exactly one exactly when
      it is a stop exit. */
  ghost predicate LossBounded(p: Position, mark: real, asof: real) {
    var (exited, reason, exitPx) := CheckExit(p, mark, asof);
    exited ==> var r := RealizePnl(p, exitPx).1;
               r >= -1.0 && (r == -1.0 <==> reason == Some(StopHit))
  }

  lemma RiskSideBoundsLoss(p: Position, mark: real, asof: real)
    requires WellFormed(p) && OnRiskSide(p)
    ensures LossBounded(p, mark, asof)
  {
    var (exited, reason, exitPx) := CheckExit(p, mark, asof);
    if exited { RatioBound(PnlUsd(p, exitPx), RiskUnit(p)); }
  }

  /** The loss bound holds at every mark exactly when the fill is on the risk side of the
      stop. */
  lemma LossBoundIsExact(p: Position)
    requires WellFormed(p) && p.state == Opened
    ensures (forall mark, asof :: LossBounded(p, mark, asof)) <==> OnRiskSide(p)
  {
    if OnRiskSide(p) {
      forall mark, asof ensures LossBounded(p, mark, asof) { RiskSideBoundsLoss(p, mark, asof); }
    } else {
      var (exited, reason, exitPx) := CheckExit(p, p.stopLoss, 0.0);
      assert exited && reason == Some(StopHit) && exitPx == p.stopLoss;
      RatioBound(PnlUsd(p, exitPx), RiskUnit(p));
      assert !LossBounded(p, p.stopLoss, 0.0);
    }
  }

  lemma SlippageIsAgainstUs(entry: Band, direction: Direction, bps: real)
    requires Midpoint(entry) >= 0.0 && bps >= 0.0
    ensures direction == Long ==> FillPrice(entry, direction, bps) >= Midpoint(entry)
    ensures direction != Long ==> FillPrice(entry, direction, bps) <= Midpoint(entry)
  {
    var m := Midpoint(entry);
    assert m * (bps / 10000.0) >= 0.0;
    assert m * (1.0 + bps / 10000.0) == m + m * (bps / 10000.0);
    assert m * (1.0 - bps / 10000.0) == m - m * (bps / 10000.0);
  }

  predicate AdviceValid(a: Advice) {
    PricesValid(a.direction, a.entry, a.target, a.stopLoss)
  }

  /** What the opener assumes of its inputs: a price level and a volatility that are not
      negative. */
  predicate Sensible(a: Advice, k: Conditions) {
    Midpoint(a.entry) >= 0.0 && k.realizedVolPct >= 0.0
  }

  /** A position opened from valid advice is on the risk side. */
  lemma OpenedOnRiskSide(a: Advice, k: Conditions, now: real)
    requires AdviceValid(a) && a.direction != Flat && Sensible(a, k)
    ensures WellFormed(NewPosition(a, k, now)) && OnRiskSide(NewPosition(a, k, now))
  {
    SlippageIsAgainstUs(a.entry, a.direction, SlippageBps(a.venue, a.sizingPctNav * 1000000.0 / 100.0, k));
  }

  /** So are positions opened, at any slippage, on the bands the risk allocator attaches,
      as long as the volatility figure behind the bands is positive. */
  lemma ShapedTradeOnRiskSide(m: RiskShape.Market, c: RiskShape.Candidate, weight: real, a: Advice,
                              k: Conditions, now: real)
    requires RiskShape.Atr(m, c.ticker) > 0.0 && k.realizedVolPct >= 0.0
    requires var t := RiskShape.WithBands(m, c, weight);
             a.direction == (if c.long then Long else Short)
             && a.entry == t.entry && a.target == t.target && a.stopLoss == t.stopLoss
    ensures AdviceValid(a) && OnRiskSide(NewPosition(a, k, now))
  {
    RiskShape.ShapedBandsAreValid(m, c, weight);
    OpenedOnRiskSide(a, k, now);
  }

  /** Without a non-negative midpoint it need not be: a valid long advice whose stop exit
      is booked as a gain of one unit of risk. */
  lemma NegativeMidpointBreaksTheBound()
    ensures exists a: Advice, k: Conditions :: AdviceValid(a) && a.direction == Long && k.realizedVolPct >= 0.0
              && CheckExit(NewPosition(a, k, 0.0), a.stopLoss, 0.0).1 == Some(StopHit)
              && RealizePnl(NewPosition(a, k, 0.0), a.stopLoss).1 == 1.0
  {
    var a := Advice("id", "T", "OTC", Long, Band(-100.0, -100.0), Band(-50.0, -50.0), -100.01, 0.0, 1.0);
    var k := Conditions(0.0, 0.0);
    var p := NewPosition(a, k, 0.0);
    assert p.fillPx == -100.0 * (1.0 + 15.0 / 10000.0);
    assert p.fillPx < p.stopLoss;
    assert PnlUsd(p, p.stopLoss) == RiskUnit(p);
  }

  // ----- Every run of opens and ticks -----

  datatype Operation =
    | Open(advice: Advice, conditions: Conditions, at: real)
    | Mark(visited: set<string>, prices: map<string, real>, asof: real)

  function Apply(book: Book, op: Operation): Book {
    match op
    case Open(a, k, at) => OpenIn(book, a, k, at)
    case Mark(visited, prices, asof) => TickSome(book, visited, prices, asof)
  }

  function ApplyAll(book: Book, ops: seq<Operation>): Book
    decreases |ops|
  {
    if ops == [] then book else ApplyAll(Apply(book, ops[0]), ops[1..])
  }

  ghost predicate InputsValid(ops: seq<Operation>) {
    forall i :: 0 <= i < |ops| && ops[i].Open? ==>
      AdviceValid(ops[i].advice) && Sensible(ops[i].advice, ops[i].conditions)
  }

  /** An open position can still lose at most one unit; a closed one has lost no more,
      and exactly one exactly if it was stopped out. */
  ghost predicate Sound(p: Position) {
    && WellFormed(p) && OnRiskSide(p)
    && (p.state == Closed ==>
          p.exitReason.Some? && p.pnlR >= -1.0 && (p.pnlR == -1.0 <==> p.exitReason == Some(StopHit)))
  }

  ghost predicate AllSound(book: Book) {
    WellKeyed(book) && forall id :: id in book ==> Sound(book[id])
  }

  lemma TickKeepsSound(p: Position, prices: map<string, real>, asof: real)
    requires Sound(p)
    ensures Sound(TickOne(p, prices, asof))
  {
    if p.state == Opened && p.ticker in prices {
      RiskSideBoundsLoss(p.(marks := p.marks + [(asof, prices[p.ticker])]), prices[p.ticker], asof);
    }
  }

  lemma ApplyKeepsSound(book: Book, op: Operation)
    requires AllSound(book)
    requires op.Open? ==> AdviceValid(op.advice) && Sensible(op.advice, op.conditions)
    ensures AllSound(Apply(book, op))
  {
    match op {
      case Open(a, k, at) =>
        if a.id !in book && a.direction != Flat { OpenedOnRiskSide(a, k, at); }
      case Mark(visited, prices, asof) =>
        forall id | id in book ensures Sound(TickOne(book[id], prices, asof)) {
          TickKeepsSound(book[id], prices, asof);
        }
    }
  }

  /** Over every run of opens and ticks from valid advice, ticks cut short included, each closed position has lost
      at most one unit of risk, with equality exactly on a stop exit. */
  lemma {:induction false} RunsBoundLosses(book: Book, ops: seq<Operation>)
    requires AllSound(book) && InputsValid(ops)
    ensures AllSound(ApplyAll(book, ops))
    decreases |ops|
  {
    if ops != [] {
      ApplyKeepsSound(book, ops[0]);
      forall i | 0 <= i < |ops[1..]| && ops[1..][i].Open?
        ensures AdviceValid(ops[1..][i].advice) && Sensible(ops[1..][i].advice, ops[1..][i].conditions)
      {
        assert ops[1..][i] == ops[i + 1];
      }
      RunsBoundLosses(Apply(book, ops[0]), ops[1..]);
    }
  }

  /** The terms a position was opened on. */
  function Terms(p: Position): (string, string, Direction, Band, Band, real, real, real, real) {
    (p.adviceId, p.ticker, p.direction, p.entry, p.target, p.stopLoss, p.expiresAt, p.openedAt, p.fillPx)
  }

  /** Whatever happens later, a position keeps the terms it was opened on, also when its
      advice is replayed; and once closed it never changes again. */
  lemma {:induction false} PositionsAreKept(book: Book, ops: seq<Operation>, id: string)
    requires id in book
    ensures id in ApplyAll(book, ops) && Terms(ApplyAll(book, ops)[id]) == Terms(book[id])
    ensures book[id].state == Closed ==> ApplyAll(book, ops)[id] == book[id]
    decreases |ops|
  {
    if ops != [] {
      PositionsAreKept(Apply(book, ops[0]), ops[1..], id);
    }
  }

  // ----- What every position tells -----

  /** The edge of the target band that the market reaches first. */
  function NearEdge(p: Position): real {
    if p.direction == Long then p.target.lo else p.target.hi
  }

  /** For valid prices it is the edge nearer the entry. */
  lemma NearEdgeIsNear(p: Position)
    requires WellFormed(p)
    ensures p.target.lo <= NearEdge(p) <= p.target.hi
    ensures p.direction == Long ==> NearEdge(p) - p.entry.hi == Gap(p.entry, p.target)
    ensures p.direction == Short ==> p.entry.lo - NearEdge(p) == Gap(p.entry, p.target)
  {}

  /** How far two bands are apart. */
  function Gap(a: Band, b: Band): real {
    if a.hi < b.lo then b.lo - a.hi else if b.hi < a.lo then a.lo - b.hi else 0.0
  }

  /** A price the position lives through: it has reached neither the stop nor the target. */
  predicate Inside(p: Position, px: real) {
    if p.direction == Long then p.stopLoss < px < p.target.lo else p.target.hi < px < p.stopLoss
  }

  predicate AtTarget(p: Position, px: real) {
    if p.direction == Long then px >= p.target.lo else px <= p.target.hi
  }

  predicate AtStop(p: Position, px: real) {
    if p.direction == Long then px <= p.stopLoss else px >= p.stopLoss
  }

  /** The first n marks found the position inside its band and before its expiry. */
  ghost predicate LivedThrough(p: Position, n: nat)
    requires n <= |p.marks|
  {
    forall i :: 0 <= i < n ==> Inside(p, p.marks[i].1) && p.marks[i].0 < p.expiresAt
  }

  /** A target is booked at its near edge and a stop at the stop, each only when the market is
      there; an expiry at the market, inside the band, when the time has come. */
  predicate FairExit(p: Position, reason: ExitReason, exitPx: real, at: real, px: real) {
    match reason
    case TargetHit => exitPx == NearEdge(p) && AtTarget(p, px)
    case StopHit => exitPx == p.stopLoss && AtStop(p, px) && !AtTarget(p, px)
    case Expired => exitPx == px && Inside(p, px) && p.expiresAt <= at
  }

  /** A closed position against its last mark, taken at its closing time. */
  ghost predicate ClosedFairly(p: Position) {
    && p.marks != [] && p.exitReason.Some? && p.exitPx.Some?
    && var (at, px) := p.marks[|p.marks| - 1];
       && p.closedAt == Some(at)
       && FairExit(p, p.exitReason.value, p.exitPx.value, at, px)
  }

  /** Profit is the signed distance from the fill to the exit, and in units of risk its ratio to
      the distance from the fill to the stop. */
  ghost predicate BookedFairly(p: Position) {
    && p.exitPx.Some?
    && p.pnlUsd == (if p.direction == Long then p.exitPx.value - p.fillPx else p.fillPx - p.exitPx.value)
    && (p.fillPx > p.stopLoss ==> p.pnlR * (p.fillPx - p.stopLoss) == p.pnlUsd)
    && (p.fillPx < p.stopLoss ==> p.pnlR * (p.stopLoss - p.fillPx) == p.pnlUsd)
    && (p.fillPx == p.stopLoss ==> p.pnlR == p.pnlUsd)
  }

  ghost predicate Truthful(p: Position) {
    if p.state == Opened then LivedThrough(p, |p.marks|) && p.closedAt.None? && p.exitPx.None? && p.exitReason.None?
    else ClosedFairly(p) && BookedFairly(p) && LivedThrough(p, |p.marks| - 1)
  }

  ghost predicate AllTruthful(book: Book) {
    forall id :: id in book ==> Truthful(book[id])
  }

  lemma BookingIsFair(p: Position, exitPx: real)
    ensures BookedFairly(p.(exitPx := Some(exitPx), pnlUsd := RealizePnl(p, exitPx).0, pnlR := RealizePnl(p, exitPx).1))
  {
    var x, r := PnlUsd(p, exitPx), RiskUnit(p);
    assert x / r * r == x;
  }

  lemma MarkedLivedThrough(p: Position, asof: real, px: real)
    requires p.state == Opened && LivedThrough(p, |p.marks|)
    ensures LivedThrough(p.(marks := p.marks + [(asof, px)]), |p.marks|)
  {}

  lemma ExitIsFair(p: Position, px: real, at: real)
    requires p.state == Opened
    ensures var (exited, reason, exitPx) := CheckExit(p, px, at);
            if exited then reason.Some? && FairExit(p, reason.value, exitPx, at, px)
            else Inside(p, px) && at < p.expiresAt
  {}

  lemma CloseIsTruthful(p: Position, at: real, px: real, reason: ExitReason, exitPx: real)
    requires p.marks != [] && p.marks[|p.marks| - 1] == (at, px)
    requires LivedThrough(p, |p.marks| - 1) && FairExit(p, reason, exitPx, at, px)
    ensures Truthful(Close(p, at, Some(reason), exitPx))
  {
    BookingIsFair(p, exitPx);
  }

  lemma StillOpenIsTruthful(p: Position, at: real, px: real)
    requires p.state == Opened && Truthful(p) && Inside(p, px) && at < p.expiresAt
    ensures Truthful(p.(marks := p.marks + [(at, px)]))
  {}

  lemma TickKeepsTruthful(p: Position, prices: map<string, real>, asof: real)
    requires Truthful(p)
    ensures Truthful(TickOne(p, prices, asof))
  {
    if p.state == Opened && p.ticker in prices {
      var px := prices[p.ticker];
      var marked := p.(marks := p.marks + [(asof, px)]);
      var (exited, reason, exitPx) := CheckExit(marked, px, asof);
      ExitIsFair(marked, px, asof);
      if exited {
        MarkedLivedThrough(p, asof, px);
        CloseIsTruthful(marked, asof, px, reason.value, exitPx);
      } else {
        StillOpenIsTruthful(p, asof, px);
      }
    }
  }

  /** Over every run of opens and ticks, whatever the advice and the prices: an open position
      has never been marked at its stop or its target, nor after its expiry, and a closed one
      was closed at the first mark that was, at the price that its reason says. */
  lemma {:induction false} RunsAreTruthful(book: Book, ops: seq<Operation>)
    requires AllTruthful(book)
    ensures AllTruthful(ApplyAll(book, ops))
    decreases |ops|
  {
    if ops != [] {
      if ops[0].Mark? {
        forall id | id in book ensures Truthful(TickOne(book[id], ops[0].prices, ops[0].asof)) {
          TickKeepsTruthful(book[id], ops[0].prices, ops[0].asof);
        }
      }
      RunsAreTruthful(Apply(book, ops[0]), ops[1..]);
    }
  }

  /** The prices a run of ticks finds for a position while it is open. */
  function Found(book: Book, ops: seq<Operation>, id: string): seq<(real, real)>
    requires id in book
    decreases |ops|
  {
    if ops == [] then [] else
      var p := book[id];
      (if ops[0].Mark? && id in ops[0].visited && p.state == Opened && p.ticker in ops[0].prices
       then [(ops[0].asof, ops[0].prices[p.ticker])] else [])
      + Found(Apply(book, ops[0]), ops[1..], id)
  }

  /** Every visit with a price leaves one mark, in order, until the position closes. */
  lemma {:induction false} MarksAreFound(book: Book, ops: seq<Operation>, id: string)
    requires id in book
    ensures id in ApplyAll(book, ops) && ApplyAll(book, ops)[id].marks == book[id].marks + Found(book, ops, id)
    decreases |ops|
  {
    if ops == [] {
      assert book[id].marks + [] == book[id].marks;
    } else {
      var next := Apply(book, ops[0]);
      MarksAreFound(next, ops[1..], id);
      MarkAdded(book, ops[0], id, Found(next, ops[1..], id));
    }
  }

  lemma MarkAdded(book: Book, op: Operation, id: string, rest: seq<(real, real)>)
    requires id in book
    ensures var p := book[id];
            var added := if op.Mark? && id in op.visited && p.state == Opened && p.ticker in op.prices
                         then [(op.asof, op.prices[p.ticker])] else [];
            Apply(book, op)[id].marks + rest == p.marks + (added + rest)
  {}
}
