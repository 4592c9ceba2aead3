/** The hash-chained advice ledger (packages/data-lake/data_lake/advice_ledger.py) over
    its table (packages/data-lake/data_lake/migrations/versions/0001_init_lake.py and
    0002_advice_ledger.py).

    An append reads the head of the agent's chain, which is the row with the largest
    (issued_at, id), and then inserts a row pointing at it. Between the two, other
    appenders may insert. The table refuses a second row with the same (agent,
    prev_hash), a second row without prev_hash, and a repeated id. */
module AdviceLedger {
  import opened Basics

  type Digest = string

  /** The row hash of a previous hash and a canonical payload. */
  type Hash = (Option<Digest>, string) -> Digest

  ghost predicate CollisionFree(hash: Hash) {
    forall p, b, q, c :: hash(p, b) == hash(q, c) ==> p == q && b == c
  }

  /** ULIDs sort as numbers, so an id is its number. */
  datatype Key = Key(issuedAt: int, id: nat)

  predicate Less(a: Key, b: Key) {
    a.issuedAt < b.issuedAt || (a.issuedAt == b.issuedAt && a.id < b.id)
  }

  datatype Row = Row(agent: string, key: Key, payload: string, prevHash: Option<Digest>, rowHash: Digest)

  /** `complete`: no required key is missing. `cited`: the evidence list is not empty. */
  datatype Advice = Advice(agent: string, key: Key, payload: string, complete: bool, cited: bool)

  function NewRow(hash: Hash, a: Advice, head: Option<Digest>): Row {
    Row(a.agent, a.key, a.payload, head, hash(head, a.payload))
  }

  /** The rows of one agent, in the order they were inserted. */
  function Of(rows: seq<Row>, agent: string): seq<Row> {
    if rows == [] then [] else
      var last := rows[|rows| - 1];
      Of(rows[..|rows| - 1], agent) + if last.agent == agent then [last] else []
  }

  lemma {:induction false} OfIn(rows: seq<Row>, agent: string, r: Row)
    requires r in Of(rows, agent)
    ensures r in rows && r.agent == agent
    decreases |rows|
  {
    var init, last := rows[..|rows| - 1], rows[|rows| - 1];
    if r in Of(init, agent) {
      OfIn(init, agent, r);
    } else {
      assert r == last;
    }
  }

  lemma {:induction false} OfHolds(rows: seq<Row>, agent: string, r: Row)
    requires r in rows && r.agent == agent
    ensures r in Of(rows, agent)
    decreases |rows|
  {
    var init, last := rows[..|rows| - 1], rows[|rows| - 1];
    if r != last {
      assert r in init;
      OfHolds(init, agent, r);
    }
  }

  lemma OfSnoc(rows: seq<Row>, r: Row, agent: string)
    ensures Of(rows + [r], agent) == Of(rows, agent) + if r.agent == agent then [r] else []
  {
    assert (rows + [r])[..|rows|] == rows;
  }

  /** Position of the row with the largest key. */
  function Top(c: seq<Row>): (i: nat)
    requires c != []
    ensures i < |c| && forall k :: 0 <= k < |c| ==> !Less(c[i].key, c[k].key)
  {
    if |c| == 1 then 0 else
      var i := Top(c[..|c| - 1]);
      if Less(c[i].key, c[|c| - 1].key) then |c| - 1 else i
  }

  function TopRow(c: seq<Row>): Option<Row> {
    if c == [] then None else Some(c[Top(c)])
  }

  function HeadOf(c: seq<Row>): Option<Digest> {
    if c == [] then None else Some(c[Top(c)].rowHash)
  }

  /** No row of the chain has a larger key. */
  ghost predicate IsTop(c: seq<Row>, r: Row) {
    forall o :: o in c ==> !Less(r.key, o.key)
  }

  /** The hash of the row with the largest key, and none without rows. */
  ghost predicate IsHead(c: seq<Row>, head: Option<Digest>) {
    && (head.None? <==> c == [])
    && (head.Some? ==> exists r :: r in c && r.rowHash == head.value && IsTop(c, r))
  }

  lemma HeadOfIsHead(c: seq<Row>)
    ensures IsHead(c, HeadOf(c))
  {
    if c != [] {
      forall o | o in c ensures !Less(c[Top(c)].key, o.key) {
        var k :| 0 <= k < |c| && c[k] == o;
      }
      assert c[Top(c)] in c && IsTop(c, c[Top(c)]);
    }
  }

  lemma TopSnoc(c: seq<Row>, r: Row)
    ensures TopRow(c + [r]) ==
            if c == [] || Less(c[Top(c)].key, r.key) then Some(r) else Some(c[Top(c)])
  {
    assert (c + [r])[..|c|] == c;
  }

  /** What the indexes and the linkage trigger let in. */
  predicate Insertable(rows: seq<Row>, r: Row) {
    && (forall o :: o in rows ==> o.key.id != r.key.id)
    && (forall o :: o in Of(rows, r.agent) ==> o.prevHash != r.prevHash)
    && (r.prevHash.Some? ==> exists o :: o in Of(rows, r.agent) && o.rowHash == r.prevHash.value)
  }

  /** The same, clause by clause, over all rows of the table. */
  lemma InsertableIs(rows: seq<Row>, r: Row)
    ensures Insertable(rows, r) <==>
            && (forall o :: o in rows ==> o.key.id != r.key.id)
            && (forall o :: o in rows && o.agent == r.agent ==> o.prevHash != r.prevHash)
            && (r.prevHash.Some? ==> exists o :: o in rows && o.agent == r.agent && o.rowHash == r.prevHash.value)
  {
    forall o ensures o in Of(rows, r.agent) <==> o in rows && o.agent == r.agent {
      if o in Of(rows, r.agent) { OfIn(rows, r.agent, o); }
      if o in rows && o.agent == r.agent { OfHolds(rows, r.agent, o); }
    }
  }

  // ----- Verification -----

  datatype ChainStatus = Intact(rowsChecked: nat) | Broken(rowsChecked: nat, at: nat) | Empty

  /** ORDER BY issued_at ASC, id ASC. */
  function Place(s: seq<Row>, r: Row): seq<Row> {
    if s == [] || Less(s[|s| - 1].key, r.key) then s + [r]
    else Place(s[..|s| - 1], r) + [s[|s| - 1]]
  }

  function Sorted(c: seq<Row>): seq<Row> {
    if c == [] then [] else Place(Sorted(c[..|c| - 1]), c[|c| - 1])
  }

  /** The row hash that stands before position i in the list. */
  function Before(s: seq<Row>, i: nat): Option<Digest>
    requires i <= |s|
  {
    if i == 0 then None else Some(s[i - 1].rowHash)
  }

  predicate PointsBack(s: seq<Row>, i: nat)
    requires i < |s|
  {
    s[i].prevHash == Before(s, i)
  }

  /** What makes the loop stop at row i: a wrong digest, or, except at the first row, a
      stored predecessor that is not the row before it. */
  predicate Faulty(hash: Hash, s: seq<Row>, i: nat)
    requires i < |s|
  {
    s[i].rowHash != hash(Before(s, i), s[i].payload) || (i > 0 && !PointsBack(s, i))
  }

  function FirstFault(hash: Hash, s: seq<Row>, i: nat): (b: nat)
    requires i <= |s|
    ensures i <= b <= |s|
    ensures b < |s| ==> Faulty(hash, s, b)
    ensures forall k :: i <= k < b ==> !Faulty(hash, s, k)
    decreases |s| - i
  {
    if i == |s| || Faulty(hash, s, i) then i else FirstFault(hash, s, i + 1)
  }

  function Judge(hash: Hash, s: seq<Row>): ChainStatus {
    if s == [] then Empty else
      var b := FirstFault(hash, s, 0);
      if b == |s| then Intact(|s|) else Broken(b + 1, s[b].key.id)
  }

  /** Row i carries the digest of its payload and of the row hash in front of it, and, unless
      it is the first one, points at that row. */
  ghost predicate Linked(hash: Hash, s: seq<Row>, i: nat)
    requires i < |s|
  {
    if i == 0 then s[0].rowHash == hash(None, s[0].payload)
    else s[i].rowHash == hash(Some(s[i - 1].rowHash), s[i].payload) && s[i].prevHash == Some(s[i - 1].rowHash)
  }

  /** The verdict on any list of rows, tampered with or not. */
  ghost predicate IsReport(hash: Hash, s: seq<Row>, status: ChainStatus) {
    match status
    case Empty => s == []
    case Intact(n) => s != [] && n == |s| && forall i: nat :: i < |s| ==> Linked(hash, s, i)
    case Broken(n, at) =>
      && 0 < n <= |s| && at == s[n - 1].key.id && !Linked(hash, s, n - 1)
      && forall i: nat :: i < n - 1 ==> Linked(hash, s, i)
  }

  lemma JudgeIsReport(hash: Hash, s: seq<Row>)
    ensures IsReport(hash, s, Judge(hash, s))
  {
    forall i: nat | i < |s| ensures Linked(hash, s, i) <==> !Faulty(hash, s, i) {}
  }

  ghost predicate Signed(hash: Hash, s: seq<Row>) {
    forall r :: r in s ==> r.rowHash == hash(r.prevHash, r.payload)
  }

  class Ledger {
    const hash: Hash
    var rows: seq<Row>

    constructor (hash: Hash)
      ensures this.hash == hash && rows == []
    {
      this.hash := hash;
      rows := [];
    }

    /** ORDER BY issued_at DESC, id DESC LIMIT 1. */
    method SelectChainHead(agent: string) returns (head: Option<Digest>)
      ensures IsHead(Of(rows, agent), head)
      ensures head == HeadOf(Of(rows, agent))
    {
      var top: Option<Row> := None;
      for i := 0 to |rows|
        invariant top == TopRow(Of(rows[..i], agent))
      {
        OfSnoc(rows[..i], rows[i], agent);
        assert rows[..i + 1] == rows[..i] + [rows[i]];
        if rows[i].agent == agent {
          TopSnoc(Of(rows[..i], agent), rows[i]);
          if top.None? || Less(top.value.key, rows[i].key) {
            top := Some(rows[i]);
          }
        } else {
          assert Of(rows[..i], agent) + [] == Of(rows[..i], agent);
        }
      }
      assert rows[..|rows|] == rows;
      head := if top.Some? then Some(top.value.rowHash) else None;
      HeadOfIsHead(Of(rows, agent));
    }

    method Insert(r: Row) returns (ok: bool)
      modifies this
      ensures ok <==>
              && (forall o :: o in old(rows) ==> o.key.id != r.key.id)
              && (forall o :: o in old(rows) && o.agent == r.agent ==> o.prevHash != r.prevHash)
              && (r.prevHash.Some? ==>
                    exists o :: o in old(rows) && o.agent == r.agent && o.rowHash == r.prevHash.value)
      ensures ok <==> Insertable(old(rows), r)
      ensures rows == if ok then old(rows) + [r] else old(rows)
    {
      InsertableIs(rows, r);
      ok := Insertable(rows, r);
      if ok {
        rows := rows + [r];
      }
    }

    /** An append that no other append interrupts. None stands for an exception: a
        rejected payload or a refused insert. On a table that appends have built it is let
        in exactly when its id is new and the agent's rows were inserted in key order; and
        they stay so exactly when its key is above that of the head. */
    method Append(a: Advice) returns (rowHash: Option<Digest>)
      modifies this
      ensures CollisionFree(hash) && AllChains(hash, old(rows)) ==>
                (rowHash.Some? <==> a.complete && a.cited && FreshId(old(rows), a) && InOrder(Of(old(rows), a.agent)))
      ensures AllChains(hash, old(rows)) ==> AllChains(hash, rows)
      ensures AllChains(hash, old(rows)) && rowHash.Some? ==>
                (InOrder(Of(rows, a.agent)) <==> AboveHead(Of(old(rows), a.agent), a.key))
      ensures rowHash.Some? <==>
                a.complete && a.cited && Insertable(old(rows), NewRow(hash, a, HeadOf(Of(old(rows), a.agent))))
      ensures rowHash.None? ==> rows == old(rows)
      ensures rowHash.Some? ==> rows == old(rows) + [NewRow(hash, a, HeadOf(Of(old(rows), a.agent)))]
      ensures rowHash.Some? ==>
                && |rows| == |old(rows)| + 1 && rows[..|old(rows)|] == old(rows)
                && var last := rows[|old(rows)|];
                   && last.agent == a.agent && last.key == a.key && last.payload == a.payload
                   && IsHead(Of(old(rows), a.agent), last.prevHash)
                   && rowHash.value == last.rowHash == hash(last.prevHash, a.payload)
    {
      if !a.complete || !a.cited {
        return None;
      }
      var head := SelectChainHead(a.agent);
      var r := NewRow(hash, a, head);
      var ok := Insert(r);
      rowHash := if ok then Some(r.rowHash) else None;
      if AllChains(hash, old(rows)) {
        AppendFacts(hash, old(rows), a);
      }
    }

    /** The loop of verify_chain, on the rows in key order. */
    method VerifyChain(agent: string) returns (status: ChainStatus)
      ensures IsReport(hash, Sorted(Of(rows, agent)), status)
      ensures status == Judge(hash, Sorted(Of(rows, agent)))
    {
      var s := Sorted(Of(rows, agent));
      JudgeIsReport(hash, s);
      if s == [] {
        return Empty;
      }
      var prev: Option<Digest> := None;
      for i := 0 to |s|
        invariant prev == Before(s, i)
        invariant forall k :: 0 <= k < i ==> !Faulty(hash, s, k)
      {
        var expected := hash(prev, s[i].payload);
        if s[i].rowHash != expected || (prev.Some? && s[i].prevHash != prev) {
          FirstFaultIs(hash, s, 0, i);
          return Broken(i + 1, s[i].key.id);
        }
        prev := Some(expected);
      }
      status := Intact(|s|);
    }
  }

  // ----- Racing appenders -----

  datatype Txn = Txn(advice: Advice, head: Option<Digest>)

  /** The table and the appends that have read a head but not yet inserted. */
  datatype System = System(rows: seq<Row>, txns: map<nat, Txn>)

  datatype Event = Begin(t: nat, advice: Advice) | Commit(t: nat) | Abort(t: nat)

  predicate Enabled(s: System, e: Event) {
    match e
    case Begin(t, advice) => t !in s.txns && advice.complete && advice.cited
    case Commit(t) => t in s.txns
    case Abort(t) => t in s.txns
  }

  function Step(hash: Hash, s: System, e: Event): System
    requires Enabled(s, e)
  {
    match e
    case Begin(t, advice) => s.(txns := s.txns[t := Txn(advice, HeadOf(Of(s.rows, advice.agent)))])
    case Commit(t) =>
      var r := NewRow(hash, s.txns[t].advice, s.txns[t].head);
      System(if Insertable(s.rows, r) then s.rows + [r] else s.rows, s.txns - {t})
    case Abort(t) => s.(txns := s.txns - {t})
  }

  ghost predicate Feasible(hash: Hash, s: System, es: seq<Event>)
    decreases |es|
  {
    es == [] || (Enabled(s, es[0]) && Feasible(hash, Step(hash, s, es[0]), es[1..]))
  }

  ghost function After(hash: Hash, s: System, es: seq<Event>): System
    requires Feasible(hash, s, es)
    decreases |es|
  {
    if es == [] then s else After(hash, Step(hash, s, es[0]), es[1..])
  }

  ghost predicate Reachable(hash: Hash, s: System) {
    exists es :: Feasible(hash, System([], map[]), es) && After(hash, System([], map[]), es) == s
  }

  /** The chain in insertion order is a path: each row points at the one inserted just
      before it. */
  ghost predicate IsPath(c: seq<Row>) {
    forall i: nat :: i < |c| ==> PointsBack(c, i)
  }

  /** Each append came with a key above all earlier ones. */
  ghost predicate InOrder(c: seq<Row>) {
    forall i, j :: 0 <= i < j < |c| ==> Less(c[i].key, c[j].key)
  }

  /** A head that was read stands in the chain; if it is the last row inserted, that
      row has the largest key. */
  ghost predicate HeadKnown(c: seq<Row>, head: Option<Digest>) {
    head.Some? ==> exists j :: 0 <= j < |c| && c[j].rowHash == head.value && (j == |c| - 1 ==> InOrder(c))
  }

  ghost predicate ChainInv(hash: Hash, c: seq<Row>) {
    && IsPath(c)
    && Signed(hash, c)
    && (c != [] ==> InOrder(c[..|c| - 1]))
    && (forall i, j :: 0 <= i < j < |c| ==> c[i].key.id != c[j].key.id)
  }

  ghost predicate Inv(hash: Hash, s: System) {
    && (forall agent :: ChainInv(hash, Of(s.rows, agent)))
    && (forall t :: t in s.txns ==> HeadKnown(Of(s.rows, s.txns[t].advice.agent), s.txns[t].head))
  }

  lemma LastInOrder(init: seq<Row>, last: Row)
    requires InOrder(init)
    requires init == [] || Less(init[|init| - 1].key, last.key)
    ensures InOrder(init + [last])
  {
    var c := init + [last];
    forall i, j | 0 <= i < j < |c| ensures Less(c[i].key, c[j].key) {
      if j < |init| {
        assert Less(init[i].key, init[j].key);
      } else if i < |init| - 1 {
        assert Less(init[i].key, init[|init| - 1].key);
      }
    }
  }

  lemma TopOfOrdered(c: seq<Row>)
    requires c != [] && InOrder(c[..|c| - 1])
    requires forall i, j :: 0 <= i < j < |c| ==> c[i].key.id != c[j].key.id
    ensures Top(c) == |c| - 1 ==> InOrder(c)
  {
    var n := |c| - 1;
    assert c[..n] + [c[n]] == c;
    if Top(c) == n {
      if n > 0 { TopAboveNext(c); }
      LastInOrder(c[..n], c[n]);
    }
  }

  lemma TopAboveNext(c: seq<Row>)
    requires |c| > 1 && Top(c) == |c| - 1 && c[|c| - 2].key.id != c[|c| - 1].key.id
    ensures Less(c[|c| - 2].key, c[|c| - 1].key)
  {
    assert !Less(c[|c| - 1].key, c[|c| - 2].key);
  }

  /** The last row of the chain, as a head. */
  ghost function LastHash(c: seq<Row>): Option<Digest> {
    if c == [] then None else Some(c[|c| - 1].rowHash)
  }

  /** The only head that is let in is that of the row inserted last, and a head that was
      read is that one only if all appends so far came in order. */
  lemma HeadMustBeLast(c: seq<Row>, head: Option<Digest>)
    requires IsPath(c) && HeadKnown(c, head)
    requires forall o :: o in c ==> o.prevHash != head
    ensures head == LastHash(c) && InOrder(c)
  {
    if head.Some? {
      var j :| 0 <= j < |c| && c[j].rowHash == head.value && (j == |c| - 1 ==> InOrder(c));
      HasSuccessor(c, j);
    }
    FirstHasNoHead(c);
  }

  lemma HasSuccessor(c: seq<Row>, j: nat)
    requires IsPath(c) && j < |c|
    ensures j < |c| - 1 ==> exists o :: o in c && o.prevHash == Some(c[j].rowHash)
  {
    if j < |c| - 1 {
      assert PointsBack(c, j + 1);
      assert c[j + 1] in c;
    }
  }

  lemma FirstHasNoHead(c: seq<Row>)
    requires IsPath(c)
    ensures c != [] ==> exists o :: o in c && o.prevHash == None
  {
    if c != [] {
      assert PointsBack(c, 0);
      assert c[0] in c;
    }
  }

  lemma ExtendChain(hash: Hash, c: seq<Row>, r: Row)
    requires ChainInv(hash, c) && InOrder(c) && r.prevHash == LastHash(c)
    requires r.rowHash == hash(r.prevHash, r.payload)
    requires forall o :: o in c ==> o.key.id != r.key.id
    ensures ChainInv(hash, c + [r])
  {
    var c' := c + [r];
    forall i: nat | i < |c'| ensures PointsBack(c', i) {
      if i < |c| { assert PointsBack(c, i); }
    }
    assert c'[..|c'| - 1] == c;
    forall i | 0 <= i < |c| ensures c[i].key.id != r.key.id { assert c[i] in c; }
  }

  /** An insert that is let in extends the path at its end, and only a chain whose
      appends all came in order can be extended. */
  lemma InsertExtendsPath(hash: Hash, rows: seq<Row>, a: Advice, head: Option<Digest>)
    requires ChainInv(hash, Of(rows, a.agent)) && HeadKnown(Of(rows, a.agent), head)
    requires Insertable(rows, NewRow(hash, a, head))
    ensures InOrder(Of(rows, a.agent))
    ensures ChainInv(hash, Of(rows, a.agent) + [NewRow(hash, a, head)])
  {
    HeadMustBeLast(Of(rows, a.agent), head);
    forall o | o in Of(rows, a.agent) ensures o.key.id != a.key.id { OfIn(rows, a.agent, o); }
    ExtendChain(hash, Of(rows, a.agent), NewRow(hash, a, head));
  }

  lemma HeadStaysKnown(hash: Hash, c: seq<Row>, r: Row, head: Option<Digest>)
    requires HeadKnown(c, head)
    ensures HeadKnown(c + [r], head)
  {
    if head.Some? {
      var j :| 0 <= j < |c| && c[j].rowHash == head.value;
      assert (c + [r])[j] == c[j];
    }
  }

  lemma ChainsKept(hash: Hash, rows: seq<Row>, r: Row, agent: string)
    requires ChainInv(hash, Of(rows, agent)) && ChainInv(hash, Of(rows, r.agent) + [r])
    ensures ChainInv(hash, Of(rows + [r], agent))
  {
    OfSnoc(rows, r, agent);
    if r.agent == agent {
      assert Of(rows + [r], agent) == Of(rows, r.agent) + [r];
    } else {
      assert Of(rows + [r], agent) == Of(rows, agent);
    }
  }

  lemma HeadsKept(hash: Hash, rows: seq<Row>, r: Row, agent: string, head: Option<Digest>)
    requires HeadKnown(Of(rows, agent), head)
    ensures HeadKnown(Of(rows + [r], agent), head)
  {
    OfSnoc(rows, r, agent);
    if r.agent == agent {
      HeadStaysKnown(hash, Of(rows, agent), r, head);
    } else {
      assert Of(rows, agent) + [] == Of(rows, agent);
    }
  }

  lemma CommitKeepsInv(hash: Hash, s: System, t: nat, r: Row)
    requires Inv(hash, s) && t in s.txns
    requires r == NewRow(hash, s.txns[t].advice, s.txns[t].head) && Insertable(s.rows, r)
    ensures Inv(hash, System(s.rows + [r], s.txns - {t}))
  {
    var txn := s.txns[t];
    InsertExtendsPath(hash, s.rows, txn.advice, txn.head);
    var s' := System(s.rows + [r], s.txns - {t});
    forall agent ensures ChainInv(hash, Of(s'.rows, agent)) {
      ChainsKept(hash, s.rows, r, agent);
    }
    forall u | u in s'.txns ensures HeadKnown(Of(s'.rows, s'.txns[u].advice.agent), s'.txns[u].head) {
      HeadsKept(hash, s.rows, r, s.txns[u].advice.agent, s.txns[u].head);
    }
  }

  lemma ReadHeadKnown(hash: Hash, c: seq<Row>)
    requires ChainInv(hash, c)
    ensures HeadKnown(c, HeadOf(c))
  {
    if c != [] { TopOfOrdered(c); }
  }

  lemma StepKeepsInv(hash: Hash, s: System, e: Event)
    requires Inv(hash, s) && Enabled(s, e)
    ensures Inv(hash, Step(hash, s, e))
  {
    match e {
      case Begin(t, advice) =>
        ReadHeadKnown(hash, Of(s.rows, advice.agent));
      case Commit(t) =>
        if Insertable(s.rows, NewRow(hash, s.txns[t].advice, s.txns[t].head)) {
          CommitKeepsInv(hash, s, t, NewRow(hash, s.txns[t].advice, s.txns[t].head));
        }
      case Abort(t) =>
    }
  }

  lemma {:induction false} RunKeepsInv(hash: Hash, s: System, es: seq<Event>)
    requires Inv(hash, s) && Feasible(hash, s, es)
    ensures Inv(hash, After(hash, s, es))
    decreases |es|
  {
    if es != [] {
      StepKeepsInv(hash, s, es[0]);
      RunKeepsInv(hash, Step(hash, s, es[0]), es[1..]);
    }
  }

  lemma ReachableInv(hash: Hash, s: System)
    requires Reachable(hash, s)
    ensures Inv(hash, s)
  {
    var es :| Feasible(hash, System([], map[]), es) && After(hash, System([], map[]), es) == s;
    RunKeepsInv(hash, System([], map[]), es);
  }

  /** Racing appenders never give a row two successors: in every interleaving each
      agent's rows form one path, in the order they were inserted. */
  lemma RowsFormOnePath(hash: Hash, s: System, agent: string)
    requires Reachable(hash, s)
    ensures ChainInv(hash, Of(s.rows, agent))
    ensures forall i, j :: 0 <= i < j < |Of(s.rows, agent)| && CollisionFree(hash) ==>
              Of(s.rows, agent)[i].prevHash != Of(s.rows, agent)[j].prevHash
  {
    ReachableInv(hash, s);
    var c := Of(s.rows, agent);
    forall i, j | 0 <= i < j < |c| && CollisionFree(hash) ensures c[i].prevHash != c[j].prevHash {
      NoSharedPredecessor(hash, c, i, j);
    }
  }

  lemma NoSharedPredecessor(hash: Hash, c: seq<Row>, i: nat, j: nat)
    requires CollisionFree(hash) && IsPath(c) && Signed(hash, c) && i < j < |c|
    ensures c[i].prevHash != c[j].prevHash
  {
    assert PointsBack(c, i) && PointsBack(c, j);
    if i > 0 { HashesDiffer(hash, c, i - 1, j - 1); }
  }

  lemma {:induction false} HashesDiffer(hash: Hash, c: seq<Row>, i: nat, j: nat)
    requires CollisionFree(hash) && IsPath(c) && Signed(hash, c) && i < j < |c|
    ensures c[i].rowHash != c[j].rowHash
    decreases i
  {
    assert PointsBack(c, i) && PointsBack(c, j);
    assert c[i] in c && c[j] in c;
    if i > 0 { HashesDiffer(hash, c, i - 1, j - 1); }
  }

  // ----- Which appends are let in -----

  ghost predicate AllChains(hash: Hash, rows: seq<Row>) {
    forall agent :: ChainInv(hash, Of(rows, agent))
  }

  predicate FreshId(rows: seq<Row>, a: Advice) {
    forall o :: o in rows ==> o.key.id != a.key.id
  }

  /** What a caller can look at before an append: is its key above that of the head? */
  predicate AboveHead(c: seq<Row>, key: Key) {
    c == [] || Less(c[Top(c)].key, key)
  }

  lemma TopIsLast(c: seq<Row>)
    requires c != [] && InOrder(c)
    ensures Top(c) == |c| - 1
  {}

  /** In a chain in key order, the head that is read is the row inserted last. */
  lemma HeadOfOrdered(c: seq<Row>)
    requires InOrder(c)
    ensures HeadOf(c) == LastHash(c)
  {
    if c != [] { TopIsLast(c); }
  }

  lemma LastHasNoSuccessor(hash: Hash, c: seq<Row>, o: Row)
    requires CollisionFree(hash) && ChainInv(hash, c) && o in c
    ensures o.prevHash != LastHash(c)
  {
    var i :| 0 <= i < |c| && c[i] == o;
    assert PointsBack(c, i);
    if i > 0 { HashesDiffer(hash, c, i - 1, |c| - 1); }
  }

  /** With a new id, a row is let in exactly when the chain is in key order and the head
      that was read is still the row inserted last. */
  lemma InsertIsExact(hash: Hash, rows: seq<Row>, a: Advice, head: Option<Digest>)
    requires CollisionFree(hash) && ChainInv(hash, Of(rows, a.agent)) && HeadKnown(Of(rows, a.agent), head)
    requires FreshId(rows, a)
    ensures Insertable(rows, NewRow(hash, a, head)) <==>
            InOrder(Of(rows, a.agent)) && head == LastHash(Of(rows, a.agent))
  {
    var c, r := Of(rows, a.agent), NewRow(hash, a, head);
    if Insertable(rows, r) {
      HeadMustBeLast(c, head);
    }
    if InOrder(c) && head == LastHash(c) {
      forall o | o in c ensures o.prevHash != head { LastHasNoSuccessor(hash, c, o); }
      if head.Some? { assert c[|c| - 1] in c; }
    }
  }

  /** Racing appenders: a commit succeeds exactly when its id is new, the agent's rows were
      inserted in key order, and no other append of the agent came in since its head was
      read. */
  lemma CommitIsExact(hash: Hash, s: System, t: nat)
    requires CollisionFree(hash) && Reachable(hash, s) && t in s.txns
    ensures Insertable(s.rows, NewRow(hash, s.txns[t].advice, s.txns[t].head)) <==>
            var a := s.txns[t].advice;
            FreshId(s.rows, a) && InOrder(Of(s.rows, a.agent)) && s.txns[t].head == LastHash(Of(s.rows, a.agent))
  {
    ReachableInv(hash, s);
    var a := s.txns[t].advice;
    if FreshId(s.rows, a) { InsertIsExact(hash, s.rows, a, s.txns[t].head); }
  }

  /** An append that no other one interrupts is let in exactly when its id is new and all
      appends of the agent so far came in key order: one append out of order shuts the
      ledger, and nothing else does. */
  lemma AppendIsExact(hash: Hash, s: System, a: Advice)
    requires CollisionFree(hash) && Reachable(hash, s) && FreshId(s.rows, a)
    ensures Insertable(s.rows, NewRow(hash, a, HeadOf(Of(s.rows, a.agent)))) <==> InOrder(Of(s.rows, a.agent))
  {
    ReachableInv(hash, s);
    ReadHeadKnown(hash, Of(s.rows, a.agent));
    InsertIsExact(hash, s.rows, a, HeadOf(Of(s.rows, a.agent)));
    if InOrder(Of(s.rows, a.agent)) { HeadOfOrdered(Of(s.rows, a.agent)); }
  }

  /** A row added to a chain in key order keeps it so exactly when its key is above that of
      the head. */
  lemma StaysInOrder(c: seq<Row>, r: Row)
    requires InOrder(c)
    ensures InOrder(c + [r]) <==> AboveHead(c, r.key)
  {
    if c != [] {
      TopIsLast(c);
      if AboveHead(c, r.key) { LastInOrder(c, r); }
      if InOrder(c + [r]) { assert Less((c + [r])[|c| - 1].key, (c + [r])[|c|].key); }
    }
  }

  lemma AppendFacts(hash: Hash, rows: seq<Row>, a: Advice)
    requires AllChains(hash, rows)
    ensures var r := NewRow(hash, a, HeadOf(Of(rows, a.agent)));
            && (CollisionFree(hash) ==>
                  (Insertable(rows, r) <==> FreshId(rows, a) && InOrder(Of(rows, a.agent))))
            && (Insertable(rows, r) ==>
                  && AllChains(hash, rows + [r])
                  && (InOrder(Of(rows + [r], a.agent)) <==> AboveHead(Of(rows, a.agent), a.key)))
  {
    var c := Of(rows, a.agent);
    var r := NewRow(hash, a, HeadOf(c));
    ReadHeadKnown(hash, c);
    if FreshId(rows, a) && CollisionFree(hash) {
      InsertIsExact(hash, rows, a, HeadOf(c));
      if InOrder(c) { HeadOfOrdered(c); }
    }
    if Insertable(rows, r) {
      InsertExtendsPath(hash, rows, a, HeadOf(c));
      forall agent ensures ChainInv(hash, Of(rows + [r], agent)) { ChainsKept(hash, rows, r, agent); }
      OfSnoc(rows, r, a.agent);
      StaysInOrder(c, r);
    }
  }

  // ----- What verify_chain says -----

  lemma {:induction false} SortedOfOrdered(c: seq<Row>)
    requires InOrder(c)
    ensures Sorted(c) == c
    decreases |c|
  {
    if c != [] {
      var init := c[..|c| - 1];
      assert InOrder(init) by {
        forall i, j | 0 <= i < j < |init| ensures Less(init[i].key, init[j].key) { assert Less(c[i].key, c[j].key); }
      }
      SortedOfOrdered(init);
      if init != [] { assert Less(c[|c| - 2].key, c[|c| - 1].key); }
    }
  }

  lemma {:induction false} PlaceSplits(s: seq<Row>, r: Row) returns (p: nat)
    ensures p <= |s| && Place(s, r) == s[..p] + [r] + s[p..]
    ensures p > 0 ==> Less(s[p - 1].key, r.key)
    ensures p < |s| ==> !Less(s[|s| - 1].key, r.key)
    decreases |s|
  {
    if s == [] || Less(s[|s| - 1].key, r.key) {
      p := |s|;
    } else {
      p := PlaceSplits(s[..|s| - 1], r);
    }
  }

  lemma FirstFaultIs(hash: Hash, s: seq<Row>, i: nat, b: nat)
    requires i <= b < |s| && Faulty(hash, s, b)
    requires forall k :: i <= k < b ==> !Faulty(hash, s, k)
    ensures FirstFault(hash, s, i) == b
  {}

  /** On rows that carry their own digest the loop stops at the first row that does not
      point at the row before it. */
  lemma FaultIsBreak(hash: Hash, s: seq<Row>, i: nat)
    requires CollisionFree(hash) && Signed(hash, s) && i < |s|
    ensures Faulty(hash, s, i) <==> !PointsBack(s, i)
  {
    assert s[i] in s;
  }

  lemma {:induction false} PlaceMembers(s: seq<Row>, r: Row)
    ensures forall x :: x in Place(s, r) ==> x == r || x in s
    decreases |s|
  {
    if s != [] && !Less(s[|s| - 1].key, r.key) { PlaceMembers(s[..|s| - 1], r); }
  }

  lemma {:induction false} SortedMembers(c: seq<Row>)
    ensures forall x :: x in Sorted(c) ==> x in c
    decreases |c|
  {
    if c != [] {
      SortedMembers(c[..|c| - 1]);
      PlaceMembers(Sorted(c[..|c| - 1]), c[|c| - 1]);
    }
  }

  /** The verdict "broken" names the first row in the list that does not point at the row
      before it. */
  ghost predicate NamesFirstBreak(v: ChainStatus, t: seq<Row>)
    requires v.Broken?
  {
    && 0 < v.rowsChecked <= |t| && v.at == t[v.rowsChecked - 1].key.id
    && !PointsBack(t, v.rowsChecked - 1)
    && forall i :: 0 <= i < v.rowsChecked - 1 ==> PointsBack(t, i)
  }

  lemma JudgeNamesFirstBreak(hash: Hash, t: seq<Row>)
    requires CollisionFree(hash) && Signed(hash, t)
    ensures Judge(hash, t).Broken? ==> NamesFirstBreak(Judge(hash, t), t)
  {
    if Judge(hash, t).Broken? {
      var b := FirstFault(hash, t, 0);
      forall i | 0 <= i <= b ensures Faulty(hash, t, i) <==> !PointsBack(t, i) { FaultIsBreak(hash, t, i); }
    }
  }

  lemma OrderedVerdict(hash: Hash, c: seq<Row>)
    requires CollisionFree(hash) && IsPath(c) && Signed(hash, c) && InOrder(c)
    ensures Judge(hash, Sorted(c)) == if c == [] then Empty else Intact(|c|)
  {
    SortedOfOrdered(c);
    forall i | 0 <= i < |c| ensures !Faulty(hash, c, i) {
      FaultIsBreak(hash, c, i);
      assert PointsBack(c, i);
    }
  }

  /** A chain with its last row out of order: the list t is the chain sorted. */
  lemma DisorderedVerdict(hash: Hash, c: seq<Row>, init: seq<Row>, last: Row)
    requires c == init + [last] && CollisionFree(hash) && IsPath(c) && Signed(hash, c)
    requires InOrder(init) && !InOrder(c)
    ensures Judge(hash, Sorted(c)).Broken? && Judge(hash, Sorted(c)).at == last.key.id
    ensures NamesFirstBreak(Judge(hash, Sorted(c)), Sorted(c))
  {
    OutOfOrderBreaks(hash, init, last);
    SortedMembers(c);
    JudgeNamesFirstBreak(hash, Sorted(c));
  }

  /** v is "empty" without rows, "ok" on a chain in key order, and otherwise names the row
      inserted last, the only one out of order, which is the first in key order that does not
      point at its predecessor. t is the chain c in key order. */
  ghost predicate IsVerdict(v: ChainStatus, c: seq<Row>, t: seq<Row>) {
    match v
    case Empty => c == []
    case Intact(n) => c != [] && InOrder(c) && n == |c|
    case Broken(_, at) =>
      && c != [] && InOrder(c[..|c| - 1]) && !InOrder(c)
      && at == c[|c| - 1].key.id && NamesFirstBreak(v, t)
  }

  lemma ChainVerdict(hash: Hash, c: seq<Row>)
    requires CollisionFree(hash) && ChainInv(hash, c)
    ensures IsVerdict(Judge(hash, Sorted(c)), c, Sorted(c))
  {
    if InOrder(c) {
      OrderedVerdict(hash, c);
    } else {
      assert c != [];
      DisorderedVerdict(hash, c, c[..|c| - 1], c[|c| - 1]);
    }
  }

  /** verify_chain succeeds exactly when every append came with a key above all earlier
      ones; otherwise it names the one row that did not. */
  lemma VerifyIsExact(hash: Hash, s: System, agent: string)
    requires CollisionFree(hash) && Reachable(hash, s)
    ensures var c := Of(s.rows, agent);
            IsVerdict(Judge(hash, Sorted(c)), c, Sorted(c))
  {
    ReachableInv(hash, s);
    ChainVerdict(hash, Of(s.rows, agent));
  }

  /** Moving the last row of a path forward to position p breaks the path at p and not
      before. */
  lemma MovedForward(hash: Hash, c: seq<Row>, p: nat)
    requires CollisionFree(hash) && IsPath(c) && Signed(hash, c) && p < |c| - 1
    ensures FirstFault(hash, c[..p] + [c[|c| - 1]] + c[p..|c| - 1], 0) == p
  {
    var n := |c| - 1;
    var moved := c[..p] + [c[n]] + c[p..n];
    assert Signed(hash, moved);
    forall k | 0 <= k < p ensures !Faulty(hash, moved, k) {
      FaultIsBreak(hash, moved, k);
      assert PointsBack(c, k);
      assert moved[k] == c[k];
      if k > 0 { assert moved[k - 1] == c[k - 1]; }
    }
    assert moved[p] == c[n] && PointsBack(c, n);
    if p > 0 {
      assert moved[p - 1] == c[p - 1];
      HashesDiffer(hash, c, p - 1, n - 1);
    }
    FaultIsBreak(hash, moved, p);
    FirstFaultIs(hash, moved, 0, p);
  }

  /** Sorting a chain whose last row alone is out of order moves that row forward. */
  lemma SortMovesLast(init: seq<Row>, last: Row) returns (p: nat)
    requires InOrder(init)
    ensures p <= |init| && Sorted(init + [last]) == init[..p] + [last] + init[p..]
    ensures p == |init| ==> init == [] || Less(init[|init| - 1].key, last.key)
  {
    SortedOfOrdered(init);
    assert (init + [last])[..|init|] == init;
    p := PlaceSplits(init, last);
  }

  lemma JudgeMoved(hash: Hash, init: seq<Row>, last: Row, p: nat)
    requires CollisionFree(hash) && IsPath(init + [last]) && Signed(hash, init + [last]) && p < |init|
    ensures Judge(hash, init[..p] + [last] + init[p..]) == Broken(p + 1, last.key.id)
  {
    var c := init + [last];
    assert c[..p] == init[..p] && c[p..|c| - 1] == init[p..];
    MovedForward(hash, c, p);
  }

  lemma OutOfOrderBreaks(hash: Hash, init: seq<Row>, last: Row)
    requires CollisionFree(hash) && IsPath(init + [last]) && Signed(hash, init + [last])
    requires InOrder(init) && !InOrder(init + [last])
    ensures Judge(hash, Sorted(init + [last])).Broken? && Judge(hash, Sorted(init + [last])).at == last.key.id
  {
    var p := SortMovesLast(init, last);
    if p == |init| {
      LastInOrder(init, last);
    }
    JudgeMoved(hash, init, last, p);
  }

  lemma StepOutOfOrder(hash: Hash, s: System, e: Event, agent: string)
    requires Inv(hash, s) && !InOrder(Of(s.rows, agent)) && Enabled(s, e)
    ensures Of(Step(hash, s, e).rows, agent) == Of(s.rows, agent)
  {
    if e.Commit? {
      var txn := s.txns[e.t];
      var r := NewRow(hash, txn.advice, txn.head);
      if Insertable(s.rows, r) {
        InsertExtendsPath(hash, s.rows, txn.advice, txn.head);
        OfSnoc(s.rows, r, agent);
      }
    }
  }

  /** One append out of order shuts the agent's ledger: whatever happens afterwards, no
      further row of that agent is ever let in. */
  lemma {:induction false} OutOfOrderIsFinal(hash: Hash, s: System, es: seq<Event>, agent: string)
    requires Inv(hash, s) && !InOrder(Of(s.rows, agent)) && Feasible(hash, s, es)
    ensures Of(After(hash, s, es).rows, agent) == Of(s.rows, agent)
    decreases |es|
  {
    if es != [] {
      StepKeepsInv(hash, s, es[0]);
      StepOutOfOrder(hash, s, es[0], agent);
      OutOfOrderIsFinal(hash, Step(hash, s, es[0]), es[1..], agent);
    }
  }

  /** Whatever happens from here on, no row of the agent is let in. */
  ghost predicate Shut(hash: Hash, s: System, agent: string) {
    forall es :: Feasible(hash, s, es) ==> Of(After(hash, s, es).rows, agent) == Of(s.rows, agent)
  }

  lemma Unused(s: set<nat>) returns (n: nat)
    ensures n !in s
  {
    n := 0;
    if s != {} {
      var numbers := set x | x in s :: x as int;
      assert forall x :: x in s ==> x as int in numbers;
      var x := Pick(s);
      assert x as int in numbers;
      var lo, hi := Extremes(numbers);
      n := hi + 1;
    }
  }

  /** From a reachable state whose chain is in key order one more append goes through. */
  lemma OpenLedgerGrows(hash: Hash, s: System, agent: string) returns (es: seq<Event>)
    requires CollisionFree(hash) && Reachable(hash, s) && InOrder(Of(s.rows, agent))
    ensures Feasible(hash, s, es) && Of(After(hash, s, es).rows, agent) != Of(s.rows, agent)
  {
    var id := Unused(set r | r in s.rows :: r.key.id);
    var t := Unused(s.txns.Keys);
    var a := Advice(agent, Key(0, id), "", true, true);
    AppendIsExact(hash, s, a);
    var s1 := Step(hash, s, Begin(t, a));
    var s2 := Step(hash, s1, Commit(t));
    assert [Begin(t, a)][1..] == [];
    RunSnoc(hash, s, [Begin(t, a)], Commit(t));
    es := [Begin(t, a)] + [Commit(t)];
    OfSnoc(s.rows, NewRow(hash, a, HeadOf(Of(s.rows, agent))), agent);
  }

  /** A reachable ledger fails verification exactly when it is shut: then no later append of
      the agent is let in, retried or not, and otherwise one can be. */
  lemma BrokenLedgerIsShut(hash: Hash, s: System, agent: string)
    requires CollisionFree(hash) && Reachable(hash, s)
    ensures Judge(hash, Sorted(Of(s.rows, agent))).Broken? <==> Shut(hash, s, agent)
  {
    ReachableInv(hash, s);
    VerifyIsExact(hash, s, agent);
    if Judge(hash, Sorted(Of(s.rows, agent))).Broken? {
      forall es | Feasible(hash, s, es) ensures Of(After(hash, s, es).rows, agent) == Of(s.rows, agent) {
        OutOfOrderIsFinal(hash, s, es, agent);
      }
    } else {
      var es := OpenLedgerGrows(hash, s, agent);
    }
  }

  lemma {:induction false} RunSnoc(hash: Hash, s: System, es: seq<Event>, e: Event)
    requires Feasible(hash, s, es) && Enabled(After(hash, s, es), e)
    ensures Feasible(hash, s, es + [e])
    ensures After(hash, s, es + [e]) == Step(hash, After(hash, s, es), e)
    decreases |es|
  {
    if es == [] {
      assert (es + [e])[1..] == [];
    } else {
      assert (es + [e])[1..] == es[1..] + [e];
      RunSnoc(hash, Step(hash, s, es[0]), es[1..], e);
    }
  }

  lemma ReachableStep(hash: Hash, s: System, e: Event) returns (s': System)
    requires Reachable(hash, s) && Enabled(s, e)
    ensures s' == Step(hash, s, e) && Reachable(hash, s')
  {
    s' := Step(hash, s, e);
    var es :| Feasible(hash, System([], map[]), es) && After(hash, System([], map[]), es) == s;
    RunSnoc(hash, System([], map[]), es, e);
  }

  lemma OfOne(r: Row)
    ensures Of([r], r.agent) == [r]
  {
    OfSnoc([], r, r.agent);
    assert [] + [r] == [r];
  }

  lemma AppendToEmpty(hash: Hash, a: Advice) returns (s: System)
    requires a.complete && a.cited
    ensures Reachable(hash, s) && s == System([NewRow(hash, a, None)], map[])
  {
    var start := System([], map[]);
    assert Feasible(hash, start, []) && After(hash, start, []) == start;
    var s1 := ReachableStep(hash, start, Begin(0, a));
    s := ReachableStep(hash, s1, Commit(0));
  }

  lemma AppendToOne(hash: Hash, s: System, r: Row, b: Advice) returns (s': System)
    requires Reachable(hash, s) && s == System([r], map[]) && b.complete && b.cited
    requires b.agent == r.agent && b.key.id != r.key.id && r.prevHash == None
    ensures Reachable(hash, s') && s'.rows == [r, NewRow(hash, b, Some(r.rowHash))]
  {
    OfOne(r);
    var s1 := ReachableStep(hash, s, Begin(0, b));
    s' := ReachableStep(hash, s1, Commit(0));
  }

  /** It takes two appends, the second with the earlier issue time. */
  lemma LedgerCanShut(hash: Hash, agent: string)
    requires CollisionFree(hash)
    ensures exists s :: Reachable(hash, s) && Judge(hash, Sorted(Of(s.rows, agent))).Broken?
  {
    var late, early := Advice(agent, Key(2, 1), "late", true, true), Advice(agent, Key(1, 2), "early", true, true);
    var s := AppendToEmpty(hash, late);
    var r := NewRow(hash, late, None);
    s := AppendToOne(hash, s, r, early);
    OfOne(r);
    OfSnoc([r], s.rows[1], agent);
    assert s.rows == [r] + [s.rows[1]];
    assert !Less(Of(s.rows, agent)[0].key, Of(s.rows, agent)[1].key);
    VerifyIsExact(hash, s, agent);
  }
}
