/** The greedy risk allocator (apps/agent_quant/quant/risk.py). */
module RiskShape {
  import opened AdviceSchema

  const VOL_TARGET := 0.12
  const PER_POSITION_MAX_PCT := 5.0
  const SECTOR_CAP_PCT := 25.0
  const REGION_CAP_PCT := 50.0
  const CORRELATION_CAP := 0.85
  const LIQUIDITY_RATIO_MIN := 10.0

  datatype Candidate = Candidate(ticker: string, region: string, sector: string, long: bool,
                                 combinedZ: real, realizedVol: real, dollarVolume: real, lastClose: real)

  datatype SizedTrade = SizedTrade(candidate: Candidate, weight: real, entry: Band, target: Band, stopLoss: real)

  /** The other arguments of `shape`. */
  datatype Market = Market(nav: real, correlations: map<(string, string), real>, atr: map<string, real>)

  function Abs(x: real): real {
    if x < 0.0 then -x else x
  }

  function VolTargetWeight(c: Candidate): real {
    if c.realizedVol <= 0.0 then 0.0 else (VOL_TARGET / c.realizedVol) * 100.0 / 10.0
  }

  function Weight(c: Candidate): real {
    var w := VolTargetWeight(c);
    if w <= PER_POSITION_MAX_PCT then w else PER_POSITION_MAX_PCT
  }

  predicate PassesLiquidity(c: Candidate, nav: real, weight: real) {
    c.dollarVolume <= 0.0 || c.dollarVolume >= nav * (weight / 100.0) * LIQUIDITY_RATIO_MIN
  }

  /** Lexicographic order of strings. */
  predicate StringLe(a: string, b: string) {
    a == [] || (b != [] && (a[0] < b[0] || (a[0] == b[0] && StringLe(a[1..], b[1..]))))
  }

  function PairKey(a: string, b: string): (string, string) {
    if StringLe(a, b) then (a, b) else (b, a)
  }

  function Rho(m: Market, a: string, b: string): real {
    if PairKey(a, b) in m.correlations then m.correlations[PairKey(a, b)] else 0.0
  }

  lemma {:induction false} StringOrder(a: string, b: string)
    ensures StringLe(a, b) || StringLe(b, a)
    ensures StringLe(a, b) && StringLe(b, a) ==> a == b
    decreases |a|
  {
    if a != [] && b != [] && a[0] == b[0] {
      StringOrder(a[1..], b[1..]);
      assert a == [a[0]] + a[1..] && b == [b[0]] + b[1..];
    }
  }

  lemma RhoSymmetric(m: Market, a: string, b: string)
    ensures Rho(m, a, b) == Rho(m, b, a)
  {
    StringOrder(a, b);
  }

  /** Lexicographic order, without recursion: a prefix, or smaller at the first difference. */
  ghost predicate Precedes(a: string, b: string) {
    a <= b || exists k :: 0 <= k < |a| && k < |b| && a[..k] == b[..k] && a[k] < b[k]
  }

  lemma SameFirstLetter(a: string, b: string)
    requires a != [] && b != [] && a[0] == b[0]
    ensures Precedes(a[1..], b[1..]) ==> Precedes(a, b)
  {
    var c, d := a[1..], b[1..];
    assert a == [a[0]] + c && b == [a[0]] + d;
    if Precedes(c, d) && !(c <= d) {
      var k :| 0 <= k < |c| && k < |d| && c[..k] == d[..k] && c[k] < d[k];
      assert a[..k + 1] == [a[0]] + c[..k] && b[..k + 1] == [a[0]] + d[..k];
      assert a[k + 1] < b[k + 1];
    }
  }

  lemma SameFirstLetterBack(a: string, b: string)
    requires a != [] && b != [] && a[0] == b[0]
    ensures Precedes(a, b) ==> Precedes(a[1..], b[1..])
  {
    var c, d := a[1..], b[1..];
    if Precedes(a, b) && !(a <= b) {
      var k :| 0 <= k < |a| && k < |b| && a[..k] == b[..k] && a[k] < b[k];
      assert k > 0 && c[..k - 1] == a[..k][1..] && d[..k - 1] == b[..k][1..];
      assert c[k - 1] < d[k - 1];
    }
  }

  lemma {:induction false} StringLeIsPrecedes(a: string, b: string)
    ensures StringLe(a, b) <==> Precedes(a, b)
    decreases |a|
  {
    if a != [] && b != [] {
      if a[0] == b[0] {
        StringLeIsPrecedes(a[1..], b[1..]);
        SameFirstLetter(a, b);
        SameFirstLetterBack(a, b);
      } else {
        FirstLetters(a, b);
      }
    }
  }

  lemma FirstLetters(a: string, b: string)
    requires a != [] && b != [] && a[0] != b[0]
    ensures Precedes(a, b) <==> a[0] < b[0]
  {
    if a[0] < b[0] { assert a[..0] == b[..0]; }
    forall k | 0 < k < |a| && k < |b| ensures a[..k] != b[..k] { assert a[..k][0] != b[..k][0]; }
  }

  /** The correlation of two tickers stands under their pair in lexicographic order; a pair that
      is not there has none. */
  lemma RhoIsLookedUp(m: Market, a: string, b: string)
    requires Precedes(a, b)
    ensures Rho(m, a, b) == Rho(m, b, a) == if (a, b) in m.correlations then m.correlations[(a, b)] else 0.0
  {
    StringLeIsPrecedes(a, b);
    StringOrder(a, b);
  }

  predicate PassesCorrelation(m: Market, c: Candidate, accepted: seq<SizedTrade>) {
    forall i :: 0 <= i < |accepted| ==> Abs(Rho(m, c.ticker, accepted[i].candidate.ticker)) <= CORRELATION_CAP
  }

  function Atr(m: Market, ticker: string): real {
    if ticker in m.atr then m.atr[ticker] else 0.02
  }

  function WithBands(m: Market, c: Candidate, weight: real): SizedTrade {
    var a := Atr(m, c.ticker);
    var px := if c.lastClose >= 0.000001 then c.lastClose else 0.000001;
    var entry := Band(px * (1.0 - 0.5 * a), px * (1.0 + 0.5 * a));
    if c.long then
      SizedTrade(c, weight, entry, Band(px * (1.0 + 1.5 * a), px * (1.0 + 2.5 * a)), px * (1.0 - 1.2 * a))
    else
      SizedTrade(c, weight, entry, Band(px * (1.0 - 2.5 * a), px * (1.0 - 1.5 * a)), px * (1.0 + 1.2 * a))
  }

  // ----- What a trade looks like -----

  /** The weight times the volatility is a tenth of the target, in percent, or less where the
      position limit cuts the weight off; and a tenth of the dollar volume, when that is known,
      covers the value of the trade. */
  predicate WellSized(m: Market, t: SizedTrade) {
    var c := t.candidate;
    && c.realizedVol > 0.0 && 0.0 < t.weight <= PER_POSITION_MAX_PCT
    && t.weight * c.realizedVol <= 100.0 * VOL_TARGET / 10.0
    && (t.weight < PER_POSITION_MAX_PCT ==> t.weight * c.realizedVol == 100.0 * VOL_TARGET / 10.0)
    && (c.dollarVolume > 0.0 ==> m.nav * t.weight / 100.0 <= c.dollarVolume / 10.0)
  }

  function Middle(b: Band): real {
    (b.lo + b.hi) / 2.0
  }

  /** The bands around the last close, in units of the volatility figure: entry one unit wide in
      the middle, the target as wide and two units away on the side of the trade, the stop
      one and a fifth units away on the other side. */
  predicate WellBanded(m: Market, t: SizedTrade) {
    var c := t.candidate;
    var px := if c.lastClose >= 0.000001 then c.lastClose else 0.000001;
    var unit := px * (if c.ticker in m.atr then m.atr[c.ticker] else 0.02);
    var side := if c.long then 1.0 else -1.0;
    && Middle(t.entry) == px && t.entry.hi - t.entry.lo == unit
    && Middle(t.target) - px == side * 2.0 * unit && t.target.hi - t.target.lo == unit
    && px - t.stopLoss == side * 1.2 * unit
  }

  lemma WeightIsSized(m: Market, c: Candidate)
    requires Weight(c) > 0.0 && PassesLiquidity(c, m.nav, Weight(c))
    ensures WellSized(m, WithBands(m, c, Weight(c)))
  {
    var v, k := c.realizedVol, VOL_TARGET;
    assert k / v * v == k;
    assert VolTargetWeight(c) * v == (k / v) * v * 100.0 / 10.0;
    if VolTargetWeight(c) > PER_POSITION_MAX_PCT {
      assert PER_POSITION_MAX_PCT * v <= VolTargetWeight(c) * v;
    }
    assert m.nav * (Weight(c) / 100.0) == m.nav * Weight(c) / 100.0;
  }

  lemma BandsAreAround(m: Market, c: Candidate, weight: real)
    ensures WellBanded(m, WithBands(m, c, weight))
  {
    var px := if c.lastClose >= 0.000001 then c.lastClose else 0.000001;
    var a := Atr(m, c.ticker);
    var unit := px * a;
    Scaled(px, a, 0.5);
    Scaled(px, a, 1.5);
    Scaled(px, a, 2.5);
    Scaled(px, a, 1.2);
  }

  lemma Scaled(px: real, a: real, k: real)
    ensures px * (1.0 + k * a) == px + k * (px * a)
    ensures px * (1.0 - k * a) == px - k * (px * a)
  {
    assert px * (k * a) == k * (px * a);
  }

  /** The more volatile of two trades never has the larger weight. */
  lemma VolatileTradesAreSmaller(m: Market, t: SizedTrade, u: SizedTrade)
    requires WellSized(m, t) && WellSized(m, u) && t.candidate.realizedVol >= u.candidate.realizedVol
    ensures t.weight <= u.weight
  {
    var v, w := t.candidate.realizedVol, u.candidate.realizedVol;
    if u.weight < PER_POSITION_MAX_PCT {
      Inverse(t.weight, u.weight, v, w, 100.0 * VOL_TARGET / 10.0);
    }
  }

  lemma Inverse(x: real, y: real, v: real, w: real, k: real)
    requires 0.0 < w <= v && x >= 0.0 && x * v <= k && y * w == k
    ensures x <= y
  {
    NotNegative(v - w, x);
    assert (v - w) * x == x * v - x * w;
    var i := 1.0 / w;
    assert w * i == 1.0;
    NotNegative(y * w - x * w, i);
    assert (y * w - x * w) * i == (y - x) * (w * i);
  }

  lemma NotNegative(a: real, b: real)
    requires a >= 0.0 && b >= 0.0
    ensures a * b >= 0.0
  {}

  ghost predicate AllWellMade(m: Market, ts: seq<SizedTrade>) {
    forall t :: t in ts ==> WellSized(m, t) && WellBanded(m, t)
  }

  lemma WellMadeAreOrdered(m: Market, ts: seq<SizedTrade>)
    requires AllWellMade(m, ts)
    ensures forall t, u :: t in ts && u in ts && t.candidate.realizedVol >= u.candidate.realizedVol ==>
              t.weight <= u.weight
  {
    forall t, u | t in ts && u in ts && t.candidate.realizedVol >= u.candidate.realizedVol
      ensures t.weight <= u.weight
    {
      VolatileTradesAreSmaller(m, t, u);
    }
  }

  lemma OneMoreWellMade(m: Market, ts: seq<SizedTrade>, t: SizedTrade)
    requires AllWellMade(m, ts) && WellSized(m, t) && WellBanded(m, t)
    ensures AllWellMade(m, ts + [t])
  {}

  lemma AddedIsWellMade(m: Market, ts: seq<SizedTrade>, c: Candidate)
    requires AllWellMade(m, ts) && Addable(m, ts, c)
    ensures AllWellMade(m, ts + [WithBands(m, c, Weight(c))])
  {
    WeightIsSized(m, c);
    BandsAreAround(m, c, Weight(c));
    OneMoreWellMade(m, ts, WithBands(m, c, Weight(c)));
  }

  // ----- The greedy choice, in terms of sums -----

  function SectorSum(ts: seq<SizedTrade>, sector: string): real {
    if ts == [] then 0.0 else
      SectorSum(ts[..|ts| - 1], sector)
      + if ts[|ts| - 1].candidate.sector == sector then ts[|ts| - 1].weight else 0.0
  }

  function RegionSum(ts: seq<SizedTrade>, region: string): real {
    if ts == [] then 0.0 else
      RegionSum(ts[..|ts| - 1], region)
      + if ts[|ts| - 1].candidate.region == region then ts[|ts| - 1].weight else 0.0
  }

  /** Adding the candidate, at its weight, breaks no limit. */
  predicate Addable(m: Market, ts: seq<SizedTrade>, c: Candidate) {
    && Weight(c) > 0.0
    && PassesLiquidity(c, m.nav, Weight(c))
    && PassesCorrelation(m, c, ts)
    && SectorSum(ts, c.sector) + Weight(c) <= SECTOR_CAP_PCT
    && RegionSum(ts, c.region) + Weight(c) <= REGION_CAP_PCT
  }

  /** What is accepted among the first n candidates. */
  function Greedy(m: Market, cs: seq<Candidate>, n: nat): seq<SizedTrade>
    requires n <= |cs|
  {
    if n == 0 then [] else
      var ts := Greedy(m, cs, n - 1);
      if Addable(m, ts, cs[n - 1]) then ts + [WithBands(m, cs[n - 1], Weight(cs[n - 1]))] else ts
  }

  // ----- Strongest signal first -----

  /** Insert behind everything at least as strong: the order of equals is kept. */
  function Insert(ranked: seq<Candidate>, c: Candidate): seq<Candidate> {
    if ranked == [] || Abs(ranked[|ranked| - 1].combinedZ) >= Abs(c.combinedZ) then ranked + [c]
    else Insert(ranked[..|ranked| - 1], c) + [ranked[|ranked| - 1]]
  }

  function Ranked(cs: seq<Candidate>): seq<Candidate> {
    if cs == [] then [] else Insert(Ranked(cs[..|cs| - 1]), cs[|cs| - 1])
  }

  ghost predicate Descending(cs: seq<Candidate>) {
    forall i, j :: 0 <= i < j < |cs| ==> Abs(cs[i].combinedZ) >= Abs(cs[j].combinedZ)
  }

  lemma {:induction false} InsertKeeps(ranked: seq<Candidate>, c: Candidate)
    ensures multiset(Insert(ranked, c)) == multiset(ranked) + multiset{c}
    decreases |ranked|
  {
    if ranked != [] && Abs(ranked[|ranked| - 1].combinedZ) < Abs(c.combinedZ) {
      var init, last := ranked[..|ranked| - 1], ranked[|ranked| - 1];
      assert ranked == init + [last];
      InsertKeeps(init, c);
    }
  }

  lemma DescendingSnoc(cs: seq<Candidate>, c: Candidate)
    requires Descending(cs) && forall x :: x in cs ==> Abs(x.combinedZ) >= Abs(c.combinedZ)
    ensures Descending(cs + [c])
  {
    forall i | 0 <= i < |cs| ensures Abs(cs[i].combinedZ) >= Abs(c.combinedZ) { assert cs[i] in cs; }
  }

  lemma {:induction false} InsertDescends(ranked: seq<Candidate>, c: Candidate)
    requires Descending(ranked)
    ensures Descending(Insert(ranked, c))
    ensures forall x :: x in Insert(ranked, c) ==> x == c || x in ranked
    decreases |ranked|
  {
    if ranked == [] || Abs(ranked[|ranked| - 1].combinedZ) >= Abs(c.combinedZ) {
      DescendingSnoc(ranked, c);
    } else {
      var init, last := ranked[..|ranked| - 1], ranked[|ranked| - 1];
      InsertDescends(init, c);
      DescendingSnoc(Insert(init, c), last);
    }
  }

  /** The candidates of one strength, in order. */
  function OfStrength(cs: seq<Candidate>, z: real): seq<Candidate> {
    if cs == [] then [] else
      OfStrength(cs[..|cs| - 1], z) + if Abs(cs[|cs| - 1].combinedZ) == z then [cs[|cs| - 1]] else []
  }

  lemma OfStrengthSnoc(cs: seq<Candidate>, c: Candidate, z: real)
    ensures OfStrength(cs + [c], z) == OfStrength(cs, z) + if Abs(c.combinedZ) == z then [c] else []
  {
    assert (cs + [c])[..|cs|] == cs;
  }

  lemma {:induction false} InsertIsStable(ranked: seq<Candidate>, c: Candidate, z: real)
    ensures OfStrength(Insert(ranked, c), z) == OfStrength(ranked, z) + if Abs(c.combinedZ) == z then [c] else []
    decreases |ranked|
  {
    if ranked == [] || Abs(ranked[|ranked| - 1].combinedZ) >= Abs(c.combinedZ) {
      OfStrengthSnoc(ranked, c, z);
    } else {
      var init, last := ranked[..|ranked| - 1], ranked[|ranked| - 1];
      InsertIsStable(init, c, z);
      OfStrengthSnoc(Insert(init, c), last, z);
    }
  }

  /** Candidates of equal strength keep their order. */
  lemma {:induction false} RankedIsStable(cs: seq<Candidate>, z: real)
    ensures OfStrength(Ranked(cs), z) == OfStrength(cs, z)
    decreases |cs|
  {
    if cs != [] {
      RankedIsStable(cs[..|cs| - 1], z);
      InsertIsStable(Ranked(cs[..|cs| - 1]), cs[|cs| - 1], z);
    }
  }

  lemma {:induction false} RankedKeeps(cs: seq<Candidate>)
    ensures multiset(Ranked(cs)) == multiset(cs)
    decreases |cs|
  {
    if cs != [] {
      var init, last := cs[..|cs| - 1], cs[|cs| - 1];
      RankedKeeps(init);
      InsertKeeps(Ranked(init), last);
      assert cs == init + [last];
    }
  }

  lemma {:induction false} RankedDescends(cs: seq<Candidate>)
    ensures Descending(Ranked(cs))
    decreases |cs|
  {
    if cs != [] {
      RankedDescends(cs[..|cs| - 1]);
      InsertDescends(Ranked(cs[..|cs| - 1]), cs[|cs| - 1]);
    }
  }

  /** Sorting keeps the candidates, with repetitions, puts the strongest first, and leaves
      those of equal strength in the order they came in. */
  lemma RankedSorts(cs: seq<Candidate>)
    ensures multiset(Ranked(cs)) == multiset(cs) && |Ranked(cs)| == |cs|
    ensures Descending(Ranked(cs))
    ensures forall z :: OfStrength(Ranked(cs), z) == OfStrength(cs, z)
  {
    RankedKeeps(cs);
    assert |multiset(Ranked(cs))| == |multiset(cs)|;
    RankedDescends(cs);
    forall z ensures OfStrength(Ranked(cs), z) == OfStrength(cs, z) { RankedIsStable(cs, z); }
  }

  // ----- The program -----

  function Used(used: map<string, real>, key: string): real {
    if key in used then used[key] else 0.0
  }

  /** The running totals are the sums of the accepted weights. */
  ghost predicate TotalsMatch(sectorUsed: map<string, real>, regionUsed: map<string, real>, ts: seq<SizedTrade>) {
    && (forall s :: Used(sectorUsed, s) == SectorSum(ts, s))
    && (forall r :: Used(regionUsed, r) == RegionSum(ts, r))
  }

  method CheckCorrelation(m: Market, c: Candidate, accepted: seq<SizedTrade>) returns (ok: bool)
    ensures ok <==> PassesCorrelation(m, c, accepted)
  {
    for i := 0 to |accepted|
      invariant forall k :: 0 <= k < i ==> Abs(Rho(m, c.ticker, accepted[k].candidate.ticker)) <= CORRELATION_CAP
    {
      if Abs(Rho(m, c.ticker, accepted[i].candidate.ticker)) > CORRELATION_CAP {
        return false;
      }
    }
    ok := true;
  }

  /** The tests of one pass of the loop. */
  method Consider(c: Candidate, m: Market, accepted: seq<SizedTrade>, sectorUsed: map<string, real>,
                  regionUsed: map<string, real>) returns (take: bool, weight: real)
    requires TotalsMatch(sectorUsed, regionUsed, accepted)
    ensures take <==> Addable(m, accepted, c)
    ensures take ==> weight == Weight(c)
  {
    weight := VolTargetWeight(c);
    if weight <= 0.0 { return false, weight; }
    if weight > PER_POSITION_MAX_PCT { weight := PER_POSITION_MAX_PCT; }
    if !PassesLiquidity(c, m.nav, weight) { return false, weight; }
    var uncorrelated := CheckCorrelation(m, c, accepted);
    if !uncorrelated { return false, weight; }
    if Used(sectorUsed, c.sector) + weight > SECTOR_CAP_PCT { return false, weight; }
    take := Used(regionUsed, c.region) + weight <= REGION_CAP_PCT;
  }

  method Shape(candidates: seq<Candidate>, m: Market) returns (accepted: seq<SizedTrade>)
    ensures accepted == Greedy(m, Ranked(candidates), |Ranked(candidates)|)
    ensures forall t :: t in accepted ==> WellSized(m, t) && WellBanded(m, t)
    ensures forall t, u :: t in accepted && u in accepted && t.candidate.realizedVol >= u.candidate.realizedVol ==>
              t.weight <= u.weight
  {
    accepted := [];
    var sectorUsed: map<string, real>, regionUsed: map<string, real> := map[], map[];
    var cs := Ranked(candidates);
    for i := 0 to |cs|
      invariant accepted == Greedy(m, cs, i)
      invariant TotalsMatch(sectorUsed, regionUsed, accepted)
    {
      var c := cs[i];
      var take, weight := Consider(c, m, accepted, sectorUsed, regionUsed);
      if take {
        TotalsStayEqual(sectorUsed, regionUsed, accepted, WithBands(m, c, weight));
        sectorUsed := sectorUsed[c.sector := Used(sectorUsed, c.sector) + weight];
        regionUsed := regionUsed[c.region := Used(regionUsed, c.region) + weight];
        accepted := accepted + [WithBands(m, c, weight)];
      }
    }
    TradesAreWellMade(m, cs, |cs|);
    WellMadeAreOrdered(m, accepted);
  }

  /** Every trade taken has its size and its bands. */
  lemma {:induction false} TradesAreWellMade(m: Market, cs: seq<Candidate>, n: nat)
    requires n <= |cs|
    ensures AllWellMade(m, Greedy(m, cs, n))
  {
    if n > 0 {
      TradesAreWellMade(m, cs, n - 1);
      var ts, c := Greedy(m, cs, n - 1), cs[n - 1];
      if Addable(m, ts, c) { AddedIsWellMade(m, ts, c); }
    }
  }

  lemma SumsSnoc(ts: seq<SizedTrade>, t: SizedTrade)
    ensures forall s :: SectorSum(ts + [t], s) == SectorSum(ts, s) + if t.candidate.sector == s then t.weight else 0.0
    ensures forall r :: RegionSum(ts + [t], r) == RegionSum(ts, r) + if t.candidate.region == r then t.weight else 0.0
  {
    assert (ts + [t])[..|ts|] == ts;
  }

  lemma TotalsStayEqual(sectorUsed: map<string, real>, regionUsed: map<string, real>, ts: seq<SizedTrade>,
                        t: SizedTrade)
    requires TotalsMatch(sectorUsed, regionUsed, ts)
    ensures TotalsMatch(sectorUsed[t.candidate.sector := Used(sectorUsed, t.candidate.sector) + t.weight],
                        regionUsed[t.candidate.region := Used(regionUsed, t.candidate.region) + t.weight], ts + [t])
  {
    SumsSnoc(ts, t);
  }

  // ----- The limits, and maximality -----

  /** Every limit at once, for a set of trades. */
  ghost predicate WithinLimits(m: Market, ts: seq<SizedTrade>) {
    && (forall i :: 0 <= i < |ts| ==>
          0.0 < ts[i].weight <= PER_POSITION_MAX_PCT && PassesLiquidity(ts[i].candidate, m.nav, ts[i].weight))
    && (forall i, j :: 0 <= i < |ts| && 0 <= j < |ts| && i != j ==>
          Abs(Rho(m, ts[i].candidate.ticker, ts[j].candidate.ticker)) <= CORRELATION_CAP)
    && (forall s :: SectorSum(ts, s) <= SECTOR_CAP_PCT)
    && (forall r :: RegionSum(ts, r) <= REGION_CAP_PCT)
  }

  /** A sized trade that breaks no limit next to the others. */
  predicate Fits(m: Market, ts: seq<SizedTrade>, t: SizedTrade) {
    && 0.0 < t.weight <= PER_POSITION_MAX_PCT
    && PassesLiquidity(t.candidate, m.nav, t.weight)
    && PassesCorrelation(m, t.candidate, ts)
    && SectorSum(ts, t.candidate.sector) + t.weight <= SECTOR_CAP_PCT
    && RegionSum(ts, t.candidate.region) + t.weight <= REGION_CAP_PCT
  }

  lemma AddWithinLimits(m: Market, ts: seq<SizedTrade>, t: SizedTrade)
    requires WithinLimits(m, ts) && Fits(m, ts, t)
    ensures WithinLimits(m, ts + [t])
  {
    var ts' := ts + [t];
    SumsSnoc(ts, t);
    forall i, j | 0 <= i < |ts'| && 0 <= j < |ts'| && i != j
      ensures Abs(Rho(m, ts'[i].candidate.ticker, ts'[j].candidate.ticker)) <= CORRELATION_CAP
    {
      RhoSymmetric(m, ts'[i].candidate.ticker, ts'[j].candidate.ticker);
    }
  }

  lemma NoneWithinLimits(m: Market)
    ensures WithinLimits(m, [])
  {}

  lemma AddableFits(m: Market, ts: seq<SizedTrade>, c: Candidate)
    requires Addable(m, ts, c)
    ensures Fits(m, ts, WithBands(m, c, Weight(c)))
  {}

  /** The accepted trades meet every limit. */
  lemma {:induction false} GreedyWithinLimits(m: Market, cs: seq<Candidate>, n: nat)
    requires n <= |cs|
    ensures WithinLimits(m, Greedy(m, cs, n))
  {
    if n == 0 {
      NoneWithinLimits(m);
    } else {
      GreedyWithinLimits(m, cs, n - 1);
      var ts, c := Greedy(m, cs, n - 1), cs[n - 1];
      if Addable(m, ts, c) {
        AddableFits(m, ts, c);
        AddWithinLimits(m, ts, WithBands(m, c, Weight(c)));
      }
    }
  }

  /** A candidate that can be added to a longer list could have been added earlier:
      weights are positive, so the sums only grow. */
  lemma AddableEarlier(m: Market, ts: seq<SizedTrade>, t: SizedTrade, c: Candidate)
    requires t.weight > 0.0 && Addable(m, ts + [t], c)
    ensures Addable(m, ts, c)
  {
    SumsSnoc(ts, t);
    forall i | 0 <= i < |ts| ensures Abs(Rho(m, c.ticker, ts[i].candidate.ticker)) <= CORRELATION_CAP {
      assert (ts + [t])[i] == ts[i];
    }
  }

  lemma {:induction false} StaysRejected(m: Market, cs: seq<Candidate>, i: nat, n: nat, c: Candidate)
    requires i <= n <= |cs| && !Addable(m, Greedy(m, cs, i), c)
    ensures !Addable(m, Greedy(m, cs, n), c)
    decreases n
  {
    if i < n {
      StaysRejected(m, cs, i, n - 1, c);
      var ts := Greedy(m, cs, n - 1);
      if Addable(m, ts, cs[n - 1]) && Addable(m, Greedy(m, cs, n), c) {
        AddableEarlier(m, ts, WithBands(m, cs[n - 1], Weight(cs[n - 1])), c);
      }
    }
  }

  ghost predicate Taken(m: Market, cs: seq<Candidate>, i: nat)
    requires i < |cs|
  {
    Addable(m, Greedy(m, cs, i), cs[i])
  }

  /** The final set is maximal: a candidate that was not taken cannot be added to it
      without breaking a limit, unless it has no weight at all. */
  lemma GreedyIsMaximal(m: Market, cs: seq<Candidate>, i: nat)
    requires i < |cs| && !Taken(m, cs, i)
    ensures !Addable(m, Greedy(m, cs, |cs|), cs[i])
  {
    StaysRejected(m, cs, i, |cs|, cs[i]);
  }

  /** The trades are exactly the taken candidates, at their capped weight, in order. */
  ghost function TakenAmong(m: Market, cs: seq<Candidate>, n: nat): seq<Candidate>
    requires n <= |cs|
  {
    if n == 0 then [] else
      TakenAmong(m, cs, n - 1) + if Taken(m, cs, n - 1) then [cs[n - 1]] else []
  }

  lemma {:induction false} TradesAreTaken(m: Market, cs: seq<Candidate>, n: nat)
    requires n <= |cs|
    ensures |Greedy(m, cs, n)| == |TakenAmong(m, cs, n)|
    ensures forall k :: 0 <= k < |Greedy(m, cs, n)| ==>
              Greedy(m, cs, n)[k] == WithBands(m, TakenAmong(m, cs, n)[k], Weight(TakenAmong(m, cs, n)[k]))
  {
    if n > 0 { TradesAreTaken(m, cs, n - 1); }
  }

  // ----- The bands it attaches -----

  lemma ScaleLess(px: real, a: real, b: real)
    requires px > 0.0
    ensures px * a < px * b <==> a < b
    ensures px * a <= px * b <==> a <= b
  {
    if a < b { assert px * (b - a) > 0.0; }
    if b < a { assert px * (a - b) > 0.0; }
  }

  /** A shaped trade's bands pass the advice rules exactly when the volatility figure
      they were built from is positive; the midpoint of its entry band is positive. */
  lemma ShapedBandsAreValid(m: Market, c: Candidate, weight: real)
    ensures var t := WithBands(m, c, weight);
            PricesValid(if c.long then Long else Short, t.entry, t.target, t.stopLoss) <==> Atr(m, c.ticker) > 0.0
    ensures (WithBands(m, c, weight).entry.lo + WithBands(m, c, weight).entry.hi) / 2.0 > 0.0
  {
    var a := Atr(m, c.ticker);
    var px := if c.lastClose >= 0.000001 then c.lastClose else 0.000001;
    ScaleLess(px, 1.0 - 0.5 * a, 1.0 + 0.5 * a);
    ScaleLess(px, 1.0 + 0.5 * a, 1.0 + 1.5 * a);
    ScaleLess(px, 1.0 + 1.5 * a, 1.0 + 2.5 * a);
    ScaleLess(px, 1.0 - 1.2 * a, 1.0 - 0.5 * a);
    ScaleLess(px, 1.0 - 2.5 * a, 1.0 - 1.5 * a);
    ScaleLess(px, 1.0 - 1.5 * a, 1.0 - 0.5 * a);
    ScaleLess(px, 1.0 + 0.5 * a, 1.0 + 1.2 * a);
    assert px * (1.0 - 0.5 * a) + px * (1.0 + 0.5 * a) == 2.0 * px;
  }
}
