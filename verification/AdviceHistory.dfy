/** What the advice ledger keeps of the advice appended to it, and what a verified chain says
    about its payloads (packages/data-lake/data_lake/advice_ledger.py:78-199). */
module AdviceHistory {
  import opened Basics
  import opened AdviceLedger

  // ----- The payloads of a chain are those of its appends -----

  /** The advice of the agent that the run let in, in order: those whose commit added a row.
      `begun` holds the advice each transaction began with. */
  ghost function Accepted(hash: Hash, s: System, es: seq<Event>, begun: map<nat, Advice>, agent: string): seq<Advice>
    requires Feasible(hash, s, es)
    decreases |es|
  {
    if es == [] then [] else
      var s' := Step(hash, s, es[0]);
      Added(s, s', es[0], begun, agent) + Accepted(hash, s', es[1..], Begun(begun, es[0]), agent)
  }

  function Begun(begun: map<nat, Advice>, e: Event): map<nat, Advice> {
    if e.Begin? then begun[e.t := e.advice] else begun
  }

  ghost function Added(s: System, s': System, e: Event, begun: map<nat, Advice>, agent: string): seq<Advice> {
    if e.Commit? && |s'.rows| > |s.rows| && e.t in begun && begun[e.t].agent == agent then [begun[e.t]] else []
  }

  predicate IsRowOf(r: Row, a: Advice) {
    r.agent == a.agent && r.key == a.key && r.payload == a.payload
  }

  /** The rows hold the advice, one by one. */
  ghost predicate Holds(c: seq<Row>, advice: seq<Advice>) {
    |c| == |advice| && forall i :: 0 <= i < |c| ==> IsRowOf(c[i], advice[i])
  }

  ghost predicate BegunWith(s: System, begun: map<nat, Advice>) {
    forall t :: t in s.txns ==> t in begun && s.txns[t].advice == begun[t]
  }

  lemma StepBegunWith(hash: Hash, s: System, e: Event, begun: map<nat, Advice>)
    requires Enabled(s, e) && BegunWith(s, begun)
    ensures BegunWith(Step(hash, s, e), Begun(begun, e))
  {}

  /** A step adds no row, or the row of the advice whose commit it is. */
  lemma StepRows(hash: Hash, s: System, e: Event)
    requires Enabled(s, e)
    ensures var rows := Step(hash, s, e).rows;
            if |rows| > |s.rows| then
              && e.Commit? && rows == s.rows + [rows[|s.rows|]]
              && IsRowOf(rows[|s.rows|], s.txns[e.t].advice)
            else rows == s.rows
  {}

  lemma HoldsOneMore(rows: seq<Row>, r: Row, agent: string, before: seq<Advice>, a: Advice)
    requires Holds(Of(rows, agent), before) && IsRowOf(r, a)
    ensures Holds(Of(rows + [r], agent), before + if a.agent == agent then [a] else [])
  {
    OfSnoc(rows, r, agent);
  }

  lemma StepHolds(hash: Hash, s: System, e: Event, begun: map<nat, Advice>, agent: string, before: seq<Advice>)
    requires Enabled(s, e) && BegunWith(s, begun) && Holds(Of(s.rows, agent), before)
    ensures var s' := Step(hash, s, e);
            Holds(Of(s'.rows, agent), before + Added(s, s', e, begun, agent))
  {
    var s' := Step(hash, s, e);
    StepRows(hash, s, e);
    if |s'.rows| > |s.rows| {
      HoldsOneMore(s.rows, s'.rows[|s.rows|], agent, before, begun[e.t]);
    } else {
      assert before + [] == before;
    }
  }

  lemma {:induction false} RunHolds(hash: Hash, s: System, es: seq<Event>, begun: map<nat, Advice>, agent: string,
                                    before: seq<Advice>)
    requires Feasible(hash, s, es) && BegunWith(s, begun) && Holds(Of(s.rows, agent), before)
    ensures Holds(Of(After(hash, s, es).rows, agent), before + Accepted(hash, s, es, begun, agent))
    decreases |es|
  {
    if es == [] {
      assert before + [] == before;
    } else {
      var s' := Step(hash, s, es[0]);
      var added, rest := Added(s, s', es[0], begun, agent), Accepted(hash, s', es[1..], Begun(begun, es[0]), agent);
      StepHolds(hash, s, es[0], begun, agent, before);
      StepBegunWith(hash, s, es[0], begun);
      RunHolds(hash, s', es[1..], Begun(begun, es[0]), agent, before + added);
      HoldsThen(Of(After(hash, s', es[1..]).rows, agent), before, added, rest);
    }
  }

  lemma HoldsThen(c: seq<Row>, before: seq<Advice>, added: seq<Advice>, rest: seq<Advice>)
    requires Holds(c, before + added + rest)
    ensures Holds(c, before + (added + rest))
  {
    assert before + added + rest == before + (added + rest);
  }

  const NOTHING := System([], map[])

  ghost function History(hash: Hash, es: seq<Event>, agent: string): seq<Advice>
    requires Feasible(hash, NOTHING, es)
  {
    Accepted(hash, NOTHING, es, map[], agent)
  }

  /** In every interleaving the rows of an agent, in the order they were inserted, hold the
      advice that was let in: agent, key and payload. */
  lemma ChainTellsTheAppends(hash: Hash, es: seq<Event>, agent: string)
    requires Feasible(hash, NOTHING, es)
    ensures Holds(Of(After(hash, NOTHING, es).rows, agent), History(hash, es, agent))
  {
    RunHolds(hash, NOTHING, es, map[], agent, []);
    assert [] + History(hash, es, agent) == History(hash, es, agent);
  }

  // ----- The last row hash fixes the payloads -----

  ghost predicate SamePayloads(c: seq<Row>, d: seq<Row>) {
    |c| == |d| && forall i :: 0 <= i < |c| ==> c[i].payload == d[i].payload && c[i].rowHash == d[i].rowHash
  }

  ghost predicate AllLinked(hash: Hash, s: seq<Row>) {
    forall i: nat :: i < |s| ==> Linked(hash, s, i)
  }

  lemma InitLinked(hash: Hash, s: seq<Row>)
    requires s != [] && AllLinked(hash, s)
    ensures AllLinked(hash, s[..|s| - 1])
  {
    var init := s[..|s| - 1];
    forall i: nat | i < |init| ensures Linked(hash, init, i) { assert Linked(hash, s, i); }
  }

  lemma {:induction false} LastHashFixesPayloads(hash: Hash, c: seq<Row>, d: seq<Row>)
    requires CollisionFree(hash) && AllLinked(hash, c) && AllLinked(hash, d) && LastHash(c) == LastHash(d)
    ensures SamePayloads(c, d)
    decreases |c|
  {
    if c != [] {
      var m, n := |c| - 1, |d| - 1;
      assert Linked(hash, c, m) && Linked(hash, d, n);
      InitLinked(hash, c);
      InitLinked(hash, d);
      LastHashFixesPayloads(hash, c[..m], d[..n]);
      forall i | 0 <= i < |c| ensures c[i].payload == d[i].payload && c[i].rowHash == d[i].rowHash {
        if i < m { assert c[i] == c[..m][i] && d[i] == d[..n][i]; }
      }
    }
  }

  lemma PathIsLinked(hash: Hash, c: seq<Row>)
    requires IsPath(c) && Signed(hash, c)
    ensures AllLinked(hash, c)
  {
    forall i: nat | i < |c| ensures Linked(hash, c, i) {
      assert PointsBack(c, i) && c[i] in c;
    }
  }

  /** Two histories, of any two runs and agents, whose last row hashes are equal are the same
      list of payloads. */
  lemma EqualHashesEqualHistories(hash: Hash, es: seq<Event>, agent: string, es': seq<Event>, agent': string)
    requires CollisionFree(hash) && Feasible(hash, NOTHING, es) && Feasible(hash, NOTHING, es')
    requires LastHash(Of(After(hash, NOTHING, es).rows, agent)) == LastHash(Of(After(hash, NOTHING, es').rows, agent'))
    ensures var h, h' := History(hash, es, agent), History(hash, es', agent');
            |h| == |h'| && forall i :: 0 <= i < |h| ==> h[i].payload == h'[i].payload
  {
    var c, d := Of(After(hash, NOTHING, es).rows, agent), Of(After(hash, NOTHING, es').rows, agent');
    RunKeepsInv(hash, NOTHING, es);
    RunKeepsInv(hash, NOTHING, es');
    PathIsLinked(hash, c);
    PathIsLinked(hash, d);
    LastHashFixesPayloads(hash, c, d);
    ChainTellsTheAppends(hash, es, agent);
    ChainTellsTheAppends(hash, es', agent');
  }

  // ----- What verify_chain proves of any table -----

  /** Two tables, tampered with or not, in which verify_chain finds the chains intact, and whose
      last rows in key order carry the same hash, hold the same payloads in key order. */
  lemma VerifiedPayloadsAreFixed(hash: Hash, rows: seq<Row>, rows': seq<Row>, agent: string)
    requires CollisionFree(hash)
    requires Judge(hash, Sorted(Of(rows, agent))).Intact? && Judge(hash, Sorted(Of(rows', agent))).Intact?
    requires LastHash(Sorted(Of(rows, agent))) == LastHash(Sorted(Of(rows', agent)))
    ensures SamePayloads(Sorted(Of(rows, agent)), Sorted(Of(rows', agent)))
  {
    JudgeIsReport(hash, Sorted(Of(rows, agent)));
    JudgeIsReport(hash, Sorted(Of(rows', agent)));
    LastHashFixesPayloads(hash, Sorted(Of(rows, agent)), Sorted(Of(rows', agent)));
  }

  /** The stored predecessor of the first row is the one thing that is not looked at. */
  lemma FirstPredecessorIsNotRead(hash: Hash, s: seq<Row>, prevHash: Option<Digest>)
    requires s != []
    ensures Judge(hash, s[0 := s[0].(prevHash := prevHash)]) == Judge(hash, s)
  {
    var t := s[0 := s[0].(prevHash := prevHash)];
    forall i: nat | i < |s| ensures Faulty(hash, t, i) <==> Faulty(hash, s, i) {}
    var b := FirstFault(hash, s, 0);
    if b < |s| { FirstFaultIs(hash, t, 0, b); }
  }

  lemma {:induction false} PlaceSorts(s: seq<Row>, r: Row)
    requires NoneAbove(s)
    ensures NoneAbove(Place(s, r)) && multiset(Place(s, r)) == multiset(s) + multiset{r}
    decreases |s|
  {
    if s != [] && !Less(s[|s| - 1].key, r.key) {
      var init, last := s[..|s| - 1], s[|s| - 1];
      assert s == init + [last];
      PlaceSorts(init, r);
      PlaceMembers(init, r);
      NoneAboveSnoc(Place(init, r), last);
    } else {
      NoneAboveSnoc(s, r);
    }
  }

  /** No row stands behind one with a larger key. */
  ghost predicate NoneAbove(s: seq<Row>) {
    forall i, j :: 0 <= i < j < |s| ==> !Less(s[j].key, s[i].key)
  }

  lemma NoneAboveSnoc(s: seq<Row>, r: Row)
    requires NoneAbove(s) && forall x :: x in s ==> !Less(r.key, x.key)
    ensures NoneAbove(s + [r])
  {
    forall i | 0 <= i < |s| ensures !Less(r.key, s[i].key) { assert s[i] in s; }
  }

  /** The order in which the rows are verified: the same rows, by issue time and id. */
  lemma {:induction false} SortedSorts(c: seq<Row>)
    ensures NoneAbove(Sorted(c)) && multiset(Sorted(c)) == multiset(c)
    decreases |c|
  {
    if c != [] {
      var init, last := c[..|c| - 1], c[|c| - 1];
      SortedSorts(init);
      PlaceSorts(Sorted(init), last);
      assert c == init + [last];
    }
  }
}
