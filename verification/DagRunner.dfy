/** The round-based DAG runner (apps/orchestrator/orchestrator/execute/runner.py).

    A graph is executed in rounds: every pending node whose static parents have all
    completed runs in the round, and the successors of what ran become pending.
    Nothing checks the graph beforehand, so a run can end in five ways. */
module DagRunner {
  import opened Basics

  type Name = string

  /** What a StateGraph holds. Only the names of conditional sources matter: which
      nodes a condition returns is decided outside this code. */
  datatype Graph = Graph(declared: set<Name>, edges: map<Name, seq<Name>>,
                         conditional: set<Name>, entry: Option<Name>)

  function Targets(g: Graph, src: Name): seq<Name> {
    if src in g.edges then g.edges[src] else []
  }

  function Parents(g: Graph, dst: Name): set<Name> {
    set src | src in g.edges && dst in g.edges[src]
  }

  class StateGraph {
    var nodes: set<Name>
    var edges: map<Name, seq<Name>>
    var conditional: set<Name>
    var entry: Option<Name>

    function View(): Graph
      reads this
    {
      Graph(nodes, edges, conditional, entry)
    }

    constructor ()
      ensures View() == Graph({}, map[], {}, None)
    {
      nodes, edges, conditional, entry := {}, map[], {}, None;
    }

    /** False stands for the ValueError of a duplicate node. */
    method AddNode(name: Name) returns (added: bool)
      modifies this
      ensures added <==> name !in old(nodes)
      ensures View() == old(View()).(declared := old(nodes) + {name})
    {
      added := name !in nodes;
      nodes := nodes + {name};
    }

    method AddEdge(src: Name, dst: Name)
      modifies this
      ensures View() == old(View()).(edges := old(edges)[src := Targets(old(View()), src) + [dst]])
    {
      if src !in edges {
        edges := edges[src := []];
      }
      edges := edges[src := edges[src] + [dst]];
    }

    method AddConditionalEdges(src: Name)
      modifies this
      ensures View() == old(View()).(conditional := old(conditional) + {src})
    {
      conditional := conditional + {src};
    }

    method SetEntry(name: Name)
      modifies this
      ensures View() == old(View()).(entry := Some(name))
    {
      entry := Some(name);
    }
  }

  // ----- Runs as sequences of rounds -----

  datatype Progress = Progress(pending: set<Name>, completed: set<Name>)

  function Ready(g: Graph, s: Progress): set<Name> {
    set x | x in s.pending && Parents(g, x) <= s.completed
  }

  ghost function StaticNext(g: Graph, batch: set<Name>): set<Name> {
    set x, y | x in batch && y in Targets(g, x) :: y
  }

  ghost function Advance(s: Progress, batch: set<Name>, next: set<Name>): Progress {
    Progress(s.pending + next - (s.completed + batch), s.completed + batch)
  }

  /** One round: all ready nodes run; `chosen` is what the conditions of the nodes
      that ran returned. */
  ghost predicate Round(g: Graph, s: Progress, batch: set<Name>, chosen: set<Name>, s': Progress) {
    && batch == Ready(g, s) != {}
    && batch <= g.declared
    && (batch !! g.conditional ==> chosen == {})
    && s' == Advance(s, batch, StaticNext(g, batch) + chosen)
  }

  /** A run up to some point, as the sequence of batches that ran and the state
      before and after each. */
  datatype History = History(states: seq<Progress>, batches: seq<set<Name>>, chosen: seq<set<Name>>)

  ghost predicate IsRun(g: Graph, h: History) {
    && g.entry.Some?
    && |h.states| == |h.batches| + 1 == |h.chosen| + 1
    && h.states[0] == Progress({g.entry.value}, {})
    && forall i {:trigger h.batches[i]} :: 0 <= i < |h.batches| ==>
         Round(g, h.states[i], h.batches[i], h.chosen[i], h.states[i + 1])
  }

  ghost function Final(h: History): Progress
    requires |h.states| > 0
  {
    h.states[|h.states| - 1]
  }

  ghost predicate RanBefore(h: History, k: nat, x: Name) {
    exists i :: 0 <= i < k && i < |h.batches| && x in h.batches[i]
  }

  lemma {:induction false} CompletedMeansRan(g: Graph, h: History, k: nat, x: Name)
    requires IsRun(g, h) && k < |h.states|
    ensures x in h.states[k].completed <==> RanBefore(h, k, x)
  {
    if k > 0 {
      CompletedMeansRan(g, h, k - 1, x);
      assert Round(g, h.states[k - 1], h.batches[k - 1], h.chosen[k - 1], h.states[k]);
      if RanBefore(h, k - 1, x) {
        var i :| 0 <= i < k - 1 && x in h.batches[i];
      }
    }
  }

  /** What one round keeps, conditional edges or not. */
  ghost predicate ProgressInv(g: Graph, s: Progress) {
    && s.pending !! s.completed
    && s.completed <= g.declared
    && g.entry.Some? && g.entry.value in s.pending + s.completed
    && StaticNext(g, s.completed) <= s.pending + s.completed
  }

  lemma RoundKeeps(g: Graph, s: Progress, batch: set<Name>, chosen: set<Name>, s': Progress)
    requires ProgressInv(g, s) && Round(g, s, batch, chosen, s')
    ensures ProgressInv(g, s')
    ensures |s'.completed| > |s.completed|
  {
    assert batch <= s.pending;
    var one :| one in batch;
    assert one in s'.completed && one !in s.completed;
    SubsetSize(s.completed, s'.completed);
  }

  lemma {:induction false} RunInvariant(g: Graph, h: History, k: nat)
    requires IsRun(g, h) && k < |h.states|
    ensures ProgressInv(g, h.states[k])
    ensures |h.states[k].completed| >= k
  {
    if k == 0 {
      assert StaticNext(g, {}) == {};
    } else {
      RunInvariant(g, h, k - 1);
      RoundKeeps(g, h.states[k - 1], h.batches[k - 1], h.chosen[k - 1], h.states[k]);
    }
  }

  /** In every run, conditional edges included: no node runs twice, a node runs only
      after all its static parents, and there are no more rounds than nodes. */
  lemma RunsAreOrdered(g: Graph, h: History)
    requires IsRun(g, h)
    ensures forall i, j, x :: 0 <= i < j < |h.batches| && x in h.batches[i] ==> x !in h.batches[j]
    ensures forall i, x, p :: 0 <= i < |h.batches| && x in h.batches[i] && p in Parents(g, x) ==> RanBefore(h, i, p)
    ensures |h.batches| <= |g.declared|
  {
    forall i, x | 0 <= i < |h.batches| && x in h.batches[i]
      ensures !RanBefore(h, i, x)
      ensures forall p :: p in Parents(g, x) ==> RanBefore(h, i, p)
    {
      RunInvariant(g, h, i);
      assert Round(g, h.states[i], h.batches[i], h.chosen[i], h.states[i + 1]);
      forall y ensures y in h.states[i].completed <==> RanBefore(h, i, y) { CompletedMeansRan(g, h, i, y); }
    }
    forall i, j, x | 0 <= i < j < |h.batches| && x in h.batches[i] ensures x !in h.batches[j] {
      assert RanBefore(h, j, x);
    }
    RunInvariant(g, h, |h.batches|);
    SubsetSize(Final(h).completed, g.declared);
  }

  // ----- Graphs without conditional edges -----

  ghost predicate Edge(g: Graph, x: Name, y: Name) {
    y in Targets(g, x)
  }

  ghost predicate Hop(g: Graph, p: seq<Name>, i: nat) {
    i + 1 < |p| && Edge(g, p[i], p[i + 1])
  }

  ghost predicate IsWalk(g: Graph, p: seq<Name>) {
    |p| > 0 && forall i: nat :: i < |p| - 1 ==> Hop(g, p, i)
  }

  /** A path from the entry to x. */
  ghost predicate PathTo(g: Graph, p: seq<Name>, x: Name) {
    g.entry.Some? && IsWalk(g, p) && p[0] == g.entry.value && p[|p| - 1] == x
  }

  ghost predicate Reachable(g: Graph, x: Name) {
    exists p :: PathTo(g, p, x)
  }

  ghost predicate CycleThrough(g: Graph, c: seq<Name>) {
    |c| > 1 && IsWalk(g, c) && c[0] == c[|c| - 1]
  }

  ghost predicate ParentClosed(g: Graph) {
    forall x, p :: Reachable(g, x) && p in Parents(g, x) ==> Reachable(g, p)
  }

  ghost predicate ReachableAcyclic(g: Graph) {
    forall c :: CycleThrough(g, c) ==> !Reachable(g, c[0])
  }

  ghost predicate ReachableDeclared(g: Graph) {
    forall x :: Reachable(g, x) ==> x in g.declared
  }

  lemma ParentsAreEdges(g: Graph, x: Name, y: Name)
    ensures x in Parents(g, y) <==> Edge(g, x, y)
  {}

  lemma ExtendPath(g: Graph, p: seq<Name>, x: Name, y: Name)
    requires PathTo(g, p, x) && Edge(g, x, y)
    ensures PathTo(g, p + [y], y)
  {
    var q := p + [y];
    forall i: nat | i < |q| - 1 ensures Hop(g, q, i) {
      if i < |p| - 1 { assert Hop(g, p, i); }
    }
  }

  lemma ReachStep(g: Graph, x: Name, y: Name)
    requires Reachable(g, x) && Edge(g, x, y)
    ensures Reachable(g, y)
  {
    var p :| PathTo(g, p, x);
    ExtendPath(g, p, x, y);
  }

  lemma ShortenPath(g: Graph, p: seq<Name>, x: Name)
    requires PathTo(g, p, x) && |p| > 1
    ensures PathTo(g, p[..|p| - 1], p[|p| - 2])
    ensures Edge(g, p[|p| - 2], x)
  {
    assert Hop(g, p, |p| - 2);
    var q := p[..|p| - 1];
    forall i: nat | i < |q| - 1 ensures Hop(g, q, i) {
      assert Hop(g, p, i);
    }
  }

  ghost predicate Static(g: Graph) {
    g.conditional == {}
  }

  /** Without conditional edges only reachable nodes become pending or complete. */
  lemma {:induction false} StaticReach(g: Graph, h: History, k: nat)
    requires Static(g) && IsRun(g, h) && k < |h.states|
    ensures forall x :: x in h.states[k].pending + h.states[k].completed ==> Reachable(g, x)
  {
    if k == 0 {
      assert PathTo(g, [g.entry.value], g.entry.value);
    } else {
      StaticReach(g, h, k - 1);
      assert Round(g, h.states[k - 1], h.batches[k - 1], h.chosen[k - 1], h.states[k]);
      forall x | x in h.states[k].pending && x !in h.states[k - 1].pending ensures Reachable(g, x) {
        var y :| y in h.batches[k - 1] && x in Targets(g, y);
        ReachStep(g, y, x);
      }
    }
  }

  /** Every path to a node is at most as long as the number of the round it runs in. */
  lemma {:induction false} PathsAreShort(g: Graph, h: History, k: nat, x: Name, p: seq<Name>)
    requires IsRun(g, h) && k < |h.batches| && x in h.batches[k] && PathTo(g, p, x)
    ensures |p| <= k + 1
    decreases k
  {
    if |p| > 1 {
      ShortenPath(g, p, x);
      var y := p[|p| - 2];
      ParentsAreEdges(g, y, x);
      RunsAreOrdered(g, h);
      assert RanBefore(h, k, y);
      var i :| 0 <= i < k && y in h.batches[i];
      PathsAreShort(g, h, i, y, p[..|p| - 1]);
    }
  }

  /** A node that is in round k but was not ready a round earlier was held back by
      something that ran in round k - 1. */
  lemma HeldBack(g: Graph, h: History, k: nat, x: Name) returns (y: Name)
    requires Static(g) && IsRun(g, h) && 0 < k < |h.batches| && x in h.batches[k]
    ensures y in h.batches[k - 1] && Edge(g, y, x)
  {
    RunsAreOrdered(g, h);
    var s, batch := h.states[k - 1], h.batches[k - 1];
    assert Round(g, s, batch, h.chosen[k - 1], h.states[k]);
    assert Round(g, h.states[k], h.batches[k], h.chosen[k], h.states[k + 1]);
    RunInvariant(g, h, k - 1);
    if x in s.pending {
      assert x !in batch;
      y :| y in Parents(g, x) && y !in s.completed;
      ParentsAreEdges(g, y, x);
    } else {
      y :| y in batch && x in Targets(g, y);
    }
  }

  lemma {:induction false} SomePathIsLong(g: Graph, h: History, k: nat, x: Name) returns (p: seq<Name>)
    requires Static(g) && IsRun(g, h) && k < |h.batches| && x in h.batches[k]
    ensures PathTo(g, p, x) && |p| == k + 1
    decreases k
  {
    if k == 0 {
      assert Round(g, h.states[0], h.batches[0], h.chosen[0], h.states[1]);
      p := [x];
    } else {
      var y := HeldBack(g, h, k, x);
      p := SomePathIsLong(g, h, k - 1, y);
      ExtendPath(g, p, y, x);
      p := p + [x];
    }
  }

  /** Without conditional edges a node runs in the round whose number is the length,
      in edges, of the longest path to it. */
  lemma RoundIsLongestPath(g: Graph, h: History, k: nat, x: Name)
    requires Static(g) && IsRun(g, h) && k < |h.batches| && x in h.batches[k]
    ensures exists p :: PathTo(g, p, x) && |p| - 1 == k
    ensures forall p :: PathTo(g, p, x) ==> |p| - 1 <= k
  {
    var p := SomePathIsLong(g, h, k, x);
    forall q | PathTo(g, q, x) ensures |q| - 1 <= k {
      PathsAreShort(g, h, k, x, q);
    }
  }

  /** Without conditional edges the run does not depend on any choice. */
  lemma {:induction false} StaticRunsAgree(g: Graph, h1: History, h2: History, k: nat)
    requires Static(g) && IsRun(g, h1) && IsRun(g, h2)
    requires k < |h1.states| && k < |h2.states|
    ensures h1.states[k] == h2.states[k]
    ensures h1.batches[..k] == h2.batches[..k]
  {
    if k > 0 {
      StaticRunsAgree(g, h1, h2, k - 1);
      assert Round(g, h1.states[k - 1], h1.batches[k - 1], h1.chosen[k - 1], h1.states[k]);
      assert Round(g, h2.states[k - 1], h2.batches[k - 1], h2.chosen[k - 1], h2.states[k]);
      assert h1.batches[..k] == h1.batches[..k - 1] + [h1.batches[k - 1]];
      assert h2.batches[..k] == h2.batches[..k - 1] + [h2.batches[k - 1]];
    }
  }

  // ----- When a run finishes -----

  /** Names an edge leads to, and the entry: a finite set holding every reachable node. */
  ghost function Mentioned(g: Graph): set<Name> {
    (set x, y | x in g.edges && y in g.edges[x] :: y)
    + (if g.entry.Some? then {g.entry.value} else {})
  }

  lemma ReachableMentioned(g: Graph, x: Name)
    requires Reachable(g, x)
    ensures x in Mentioned(g)
  {
    var p :| PathTo(g, p, x);
    if |p| > 1 { ShortenPath(g, p, x); }
  }

  ghost function Unfinished(g: Graph, done: set<Name>): set<Name> {
    set x | x in Mentioned(g) && Reachable(g, x) && x !in done
  }

  ghost predicate ParentWithin(g: Graph, u: set<Name>, y: Name) {
    exists z :: z in u && Edge(g, z, y)
  }

  /** From inside a set whose members all have a parent in the set one can walk
      backwards for ever. */
  lemma {:induction false} WalkBack(g: Graph, u: set<Name>, x: Name, n: nat) returns (p: seq<Name>)
    requires x in u && forall y {:trigger ParentWithin(g, u, y)} :: y in u ==> ParentWithin(g, u, y)
    ensures |p| == n + 1 && IsWalk(g, p) && p[n] == x
    ensures forall i :: 0 <= i <= n ==> p[i] in u
    decreases n
  {
    if n == 0 {
      p := [x];
    } else {
      assert ParentWithin(g, u, x);
      var z :| z in u && Edge(g, z, x);
      var q := WalkBack(g, u, z, n - 1);
      p := q + [x];
      forall i: nat | i < |p| - 1 ensures Hop(g, p, i) {
        if i < n - 1 { assert Hop(g, q, i); }
      }
    }
  }

  lemma {:induction false} Pigeonhole(p: seq<Name>, u: set<Name>) returns (i: nat, j: nat)
    requires |p| > |u| && forall k :: 0 <= k < |p| ==> p[k] in u
    ensures i < j < |p| && p[i] == p[j]
    decreases |p|
  {
    var last := |p| - 1;
    if k :| 0 <= k < last && p[k] == p[last] {
      i, j := k, last;
    } else {
      i, j := Pigeonhole(p[..last], u - {p[last]});
    }
  }

  lemma CycleIn(g: Graph, u: set<Name>, x: Name) returns (c: seq<Name>)
    requires x in u && forall y {:trigger ParentWithin(g, u, y)} :: y in u ==> ParentWithin(g, u, y)
    ensures CycleThrough(g, c) && c[0] in u
  {
    var p := WalkBack(g, u, x, |u|);
    var i, j := Pigeonhole(p, u);
    c := p[i..j + 1];
    forall k: nat | k < |c| - 1 ensures Hop(g, c, k) {
      assert Hop(g, p, i + k);
    }
  }

  ghost predicate Finished(h: History) requires |h.states| > 0 { Final(h).pending == {} }

  ghost predicate Stuck(g: Graph, h: History) requires |h.states| > 0 {
    Final(h).pending != {} && Ready(g, Final(h)) == {}
  }

  /** A finished run has executed exactly the reachable nodes. */
  lemma FinishedMeansReachable(g: Graph, h: History)
    requires Static(g) && IsRun(g, h) && Finished(h)
    ensures forall x :: x in Final(h).completed <==> Reachable(g, x)
  {
    var k := |h.batches|;
    RunInvariant(g, h, k);
    StaticReach(g, h, k);
    forall x, p | PathTo(g, p, x) ensures x in Final(h).completed {
      ClosedUnderPaths(g, Final(h).completed, p, x);
    }
  }

  lemma {:induction false} ClosedUnderPaths(g: Graph, done: set<Name>, p: seq<Name>, x: Name)
    requires PathTo(g, p, x) && g.entry.value in done && StaticNext(g, done) <= done
    ensures x in done
    decreases |p|
  {
    if |p| > 1 {
      ShortenPath(g, p, x);
      ClosedUnderPaths(g, done, p[..|p| - 1], p[|p| - 2]);
    }
  }

  lemma WalkPrefix(g: Graph, c: seq<Name>)
    requires IsWalk(g, c) && |c| > 1
    ensures IsWalk(g, c[..|c| - 1]) && Edge(g, c[|c| - 2], c[|c| - 1])
  {
    var m := |c| - 1;
    assert Hop(g, c, m - 1);
    forall j: nat | j < m - 1 ensures Hop(g, c[..m], j) { assert Hop(g, c, j); }
  }

  /** The source of an edge has run in an earlier round. */
  lemma SourceRan(g: Graph, h: History, k: nat, x: Name, y: Name) returns (i: nat)
    requires IsRun(g, h) && k < |h.batches| && y in h.batches[k] && Edge(g, x, y)
    ensures i < k && x in h.batches[i]
  {
    ParentsAreEdges(g, x, y);
    RunsAreOrdered(g, h);
    assert RanBefore(h, k, x);
    i :| 0 <= i < k && i < |h.batches| && x in h.batches[i];
  }

  /** A run cannot go round a cycle: each node of a walk runs strictly later than the
      one before it. */
  lemma {:induction false} WalkRounds(g: Graph, h: History, c: seq<Name>, k: nat)
    requires IsRun(g, h) && IsWalk(g, c) && k < |h.batches| && c[|c| - 1] in h.batches[k]
    ensures |c| > 1 ==> RanBefore(h, k, c[0])
    decreases |c|
  {
    if |c| > 1 {
      WalkPrefix(g, c);
      var i := SourceRan(g, h, k, c[|c| - 2], c[|c| - 1]);
      WalkRounds(g, h, c[..|c| - 1], i);
    }
  }

  lemma FinishedIsExecutable(g: Graph, h: History)
    requires Static(g) && IsRun(g, h) && Finished(h)
    ensures ParentClosed(g) && ReachableAcyclic(g) && ReachableDeclared(g)
  {
    var k := |h.batches|;
    FinishedMeansReachable(g, h);
    RunInvariant(g, h, k);
    RunsAreOrdered(g, h);
    forall x, p | Reachable(g, x) && p in Parents(g, x) ensures Reachable(g, p) {
      CompletedMeansRan(g, h, k, x);
      assert RanBefore(h, k, x);
      var i :| 0 <= i < k && x in h.batches[i];
      assert RanBefore(h, i, p);
      assert RanBefore(h, k, p);
      CompletedMeansRan(g, h, k, p);
    }
    forall c | CycleThrough(g, c) ensures !Reachable(g, c[0]) {
      if Reachable(g, c[0]) {
        CompletedMeansRan(g, h, k, c[0]);
        assert RanBefore(h, k, c[0]);
        var i :| 0 <= i < k && c[0] in h.batches[i];
        WalkRounds(g, h, c, i);
      }
    }
  }

  /** A stuck run on a graph without conditional edges shows a reachable cycle or an
      unreachable parent. */
  lemma StuckIsNotExecutable(g: Graph, h: History)
    requires Static(g) && IsRun(g, h) && Stuck(g, h)
    ensures !(ParentClosed(g) && ReachableAcyclic(g))
  {
    if ParentClosed(g) && ReachableAcyclic(g) {
      var k, s := |h.batches|, Final(h);
      RunInvariant(g, h, k);
      StaticReach(g, h, k);
      var u := Unfinished(g, s.completed);
      forall y | y in u ensures ParentWithin(g, u, y) {
        var z;
        if y in s.pending {
          z :| z in Parents(g, y) && z !in s.completed;
          ParentsAreEdges(g, z, y);
        } else {
          var p :| PathTo(g, p, y);
          assert |p| > 1;
          ShortenPath(g, p, y);
          z := p[|p| - 2];
          assert PathTo(g, p[..|p| - 1], z);
        }
        ReachableMentioned(g, z);
      }
      var x :| x in s.pending;
      ReachableMentioned(g, x);
      var c := CycleIn(g, u, x);
    }
  }

  // ----- The runner -----

  datatype NodeResult = NodeResult(name: Name, ok: bool)

  /** How `execute` ends: normally, or with one of its four exceptions. UnknownNode is
      the KeyError of a ready node that was never declared. */
  datatype Outcome =
    | Done(nodes: seq<NodeResult>, ok: bool)
    | NoEntry
    | Stalled
    | TimedOut
    | UnknownNode(name: Name)

  ghost function NamesOf(rs: seq<NodeResult>): set<Name> {
    set i | 0 <= i < |rs| :: rs[i].name
  }

  ghost predicate Distinct(rs: seq<NodeResult>) {
    forall i, j :: 0 <= i < j < |rs| ==> rs[i].name != rs[j].name
  }

  /** The results list holds the nodes that ran, each once, each after its parents. */
  ghost predicate InOrder(g: Graph, rs: seq<NodeResult>) {
    && Distinct(rs)
    && (forall i :: 0 <= i < |rs| ==> Parents(g, rs[i].name) <= NamesOf(rs[..i]))
  }

  function Lookup(parents: map<Name, set<Name>>, x: Name): set<Name> {
    if x in parents then parents[x] else {}
  }

  ghost predicate IsParentTable(g: Graph, parents: map<Name, set<Name>>) {
    forall x :: Lookup(parents, x) == Parents(g, x)
  }

  method AddParent(parents0: map<Name, set<Name>>, src: Name, dsts: seq<Name>) returns (parents: map<Name, set<Name>>)
    ensures parents0.Keys <= parents.Keys
    ensures forall x :: Lookup(parents, x) == Lookup(parents0, x) + if x in dsts then {src} else {}
  {
    parents := parents0;
    for i := 0 to |dsts|
      invariant parents0.Keys <= parents.Keys
      invariant forall x :: Lookup(parents, x) == Lookup(parents0, x) + if x in dsts[..i] then {src} else {}
    {
      ElemsSnoc(dsts, i);
      parents := parents[dsts[i] := Lookup(parents, dsts[i]) + {src}];
    }
    assert dsts[..|dsts|] == dsts;
  }

  method ComputeParents(graph: StateGraph) returns (parents: map<Name, set<Name>>)
    ensures graph.nodes <= parents.Keys
    ensures IsParentTable(graph.View(), parents)
  {
    var g := graph.View();
    parents := map x | x in graph.nodes :: {};
    var todo := graph.edges.Keys;
    while todo != {}
      invariant todo <= g.edges.Keys && graph.nodes <= parents.Keys
      invariant forall x :: Lookup(parents, x) == Parents(g, x) - todo
      decreases todo
    {
      var src :| src in todo;
      ghost var before := parents;
      parents := AddParent(parents, src, g.edges[src]);
      forall x ensures Lookup(parents, x) == Parents(g, x) - (todo - {src}) {
        assert src in Parents(g, x) <==> x in g.edges[src];
        assert Lookup(before, x) == Parents(g, x) - todo;
      }
      todo := todo - {src};
    }
  }

  method AddPending(pending0: set<Name>, completed: set<Name>, successors: seq<Name>) returns (pending: set<Name>)
    requires pending0 !! completed
    ensures pending == pending0 + Elems(successors) - completed
  {
    pending := pending0;
    for j := 0 to |successors|
      invariant pending == pending0 + Elems(successors[..j]) - completed
    {
      ElemsSnoc(successors, j);
      if successors[j] !in completed {
        pending := pending + {successors[j]};
      }
    }
    assert successors[..|successors|] == successors;
  }

  /** The body of the `for r in finished_results` loop, for a whole batch. */
  method Settle(graph: StateGraph, batch: seq<Name>, pending0: set<Name>, completed0: set<Name>)
    returns (pending: set<Name>, completed: set<Name>, ghost chosen: set<Name>)
    requires pending0 !! completed0
    ensures Elems(batch) !! graph.conditional ==> chosen == {}
    ensures Progress(pending, completed) ==
            Advance(Progress(pending0, completed0), Elems(batch),
                    StaticNext(graph.View(), Elems(batch)) + chosen)
  {
    var g := graph.View();
    pending, completed, chosen := pending0, completed0, {};
    ghost var ran: set<Name>, next: set<Name> := {}, {};
    var i := 0;
    while i < |batch|
      invariant i <= |batch| && ran == Elems(batch[..i])
      invariant completed == completed0 + ran
      invariant next == StaticNext(g, ran) + chosen
      invariant pending == pending0 + next - completed
      invariant ran !! g.conditional ==> chosen == {}
    {
      var name := batch[i];
      completed := completed + {name};
      pending := pending - {name};
      var successors := Targets(g, name);
      if name in graph.conditional {
        var extra: seq<Name> := *;
        successors := successors + extra;
        chosen := chosen + Elems(extra);
      }
      pending := AddPending(pending, completed, successors);
      ElemsSnoc(batch, i);
      ran := ran + {name};
      next := next + Elems(successors);
      assert next == StaticNext(g, ran) + chosen;
      i := i + 1;
    }
    assert batch[..i] == batch;
  }

  /** Pick the ready nodes, in whatever order the set is iterated. */
  method PickReady(g: Graph, parents: map<Name, set<Name>>, pending: set<Name>, completed: set<Name>)
    returns (ready: seq<Name>)
    requires IsParentTable(g, parents)
    ensures Elems(ready) == Ready(g, Progress(pending, completed))
    ensures forall i, j :: 0 <= i < j < |ready| ==> ready[i] != ready[j]
  {
    ready := [];
    var todo := pending;
    while todo != {}
      invariant todo <= pending
      invariant Elems(ready) == Ready(g, Progress(pending, completed)) - todo
      invariant forall i, j :: 0 <= i < j < |ready| ==> ready[i] != ready[j]
      decreases todo
    {
      var name :| name in todo;
      if Lookup(parents, name) <= completed {
        assert name !in Elems(ready);
        ready := ready + [name];
        ElemsSnoc(ready, |ready| - 1);
        assert ready[..|ready| - 1 + 1] == ready;
      }
      todo := todo - {name};
    }
  }

  /** Whether the function of a node returns; each node runs at most once. */
  type Returns = Name -> bool

  /** Every result says what the function of its node did. */
  ghost predicate Told(returned: Returns, results: seq<NodeResult>) {
    forall r :: r in results ==> (r.ok <==> returned(r.name))
  }

  lemma ToldMore(returned: Returns, results: seq<NodeResult>, batch: seq<NodeResult>)
    requires Told(returned, results) && Told(returned, batch)
    ensures Told(returned, results + batch)
  {}

  /** Await all nodes of a round. A node that fails still counts as run; a node that
      was never declared raises. */
  method RunAll(graph: StateGraph, ready: seq<Name>, returned: Returns)
    returns (results: seq<NodeResult>, unknown: Option<Name>)
    ensures Told(returned, results)
    ensures unknown.None? <==> Elems(ready) <= graph.nodes
    ensures unknown.Some? ==> unknown.value in ready && unknown.value !in graph.nodes
    ensures unknown.None? ==> |results| == |ready|
    ensures unknown.None? ==> forall i :: 0 <= i < |ready| ==> results[i].name == ready[i]
  {
    results, unknown := [], None;
    for i := 0 to |ready|
      invariant |results| == i && Elems(ready[..i]) <= graph.nodes && Told(returned, results)
      invariant forall k :: 0 <= k < i ==> results[k].name == ready[k]
    {
      ElemsSnoc(ready, i);
      if ready[i] !in graph.nodes {
        return [], Some(ready[i]);
      }
      results := results + [NodeResult(ready[i], returned(ready[i]))];
    }
    assert ready[..|ready|] == ready;
  }

  lemma InOrderExtend(g: Graph, rs: seq<NodeResult>, more: seq<NodeResult>, s: Progress)
    requires InOrder(g, rs) && NamesOf(rs) == s.completed
    requires Distinct(more) && NamesOf(more) == Ready(g, s) && s.pending !! s.completed
    ensures InOrder(g, rs + more) && NamesOf(rs + more) == NamesOf(rs) + NamesOf(more)
  {
    var all := rs + more;
    forall i | 0 <= i < |more| ensures more[i].name in Ready(g, s) {
      assert more[i].name in NamesOf(more);
    }
    forall i, j | 0 <= i < j < |all| ensures all[i].name != all[j].name {
      if i < |rs| <= j { assert all[j] == more[j - |rs|] && all[i].name in NamesOf(rs); }
    }
    forall i | 0 <= i < |all| ensures Parents(g, all[i].name) <= NamesOf(all[..i]) {
      if i < |rs| {
        assert all[..i] == rs[..i];
      } else {
        assert all[i] == more[i - |rs|];
        forall x | x in NamesOf(rs) ensures x in NamesOf(all[..i]) {
          var k :| 0 <= k < |rs| && rs[k].name == x;
          assert all[..i][k].name == x;
        }
      }
    }
    forall x ensures x in NamesOf(all) <==> x in NamesOf(rs) + NamesOf(more) {
      if x in NamesOf(more) {
        var k :| 0 <= k < |more| && more[k].name == x;
        assert all[|rs| + k].name == x;
      }
      if x in NamesOf(rs) {
        var k :| 0 <= k < |rs| && rs[k].name == x;
        assert all[k].name == x;
      }
    }
  }

  ghost function Concat<T>(parts: seq<seq<T>>): seq<T> {
    if parts == [] then [] else Concat(parts[..|parts| - 1]) + parts[|parts| - 1]
  }

  lemma ConcatSnoc<T>(parts: seq<seq<T>>, part: seq<T>)
    ensures Concat(parts + [part]) == Concat(parts) + part
  {
    assert (parts + [part])[..|parts|] == parts;
  }

  /** Without conditional edges the run can finish exactly on these graphs. */
  ghost predicate Executable(g: Graph) {
    ReachableDeclared(g) && ParentClosed(g) && ReachableAcyclic(g)
  }

  ghost predicate Records(run: seq<seq<NodeResult>>, h: History) {
    |run| == |h.batches| && forall i :: 0 <= i < |run| ==> NamesOf(run[i]) == h.batches[i]
  }

  datatype RoundResult = Ran(batch: seq<NodeResult>) | NoneReady | Missing(name: Name)

  /** One pass of the `while pending` loop. */
  method RunRound(graph: StateGraph, parents: map<Name, set<Name>>, returned: Returns,
                  pending0: set<Name>, completed0: set<Name>)
    returns (res: RoundResult, pending: set<Name>, completed: set<Name>, ghost chosen: set<Name>)
    requires IsParentTable(graph.View(), parents)
    requires pending0 !! completed0
    ensures res.NoneReady? ==> Ready(graph.View(), Progress(pending0, completed0)) == {}
    ensures res.Missing? ==> res.name in Ready(graph.View(), Progress(pending0, completed0)) - graph.nodes
    ensures res.Ran? ==> Distinct(res.batch) && Told(returned, res.batch)
    ensures res.Ran? ==> Round(graph.View(), Progress(pending0, completed0), NamesOf(res.batch), chosen,
                               Progress(pending, completed))
  {
    pending, completed, chosen := pending0, completed0, {};
    var ready := PickReady(graph.View(), parents, pending, completed);
    if ready == [] {
      return NoneReady, pending, completed, chosen;
    }
    var batch, unknown := RunAll(graph, ready, returned);
    if unknown.Some? {
      assert unknown.value in Elems(ready);
      return Missing(unknown.value), pending, completed, chosen;
    }
    res := Ran(batch);
    assert ready[0] in Elems(ready);
    assert NamesOf(batch) == Elems(ready) by {
      forall x | x in Elems(ready) ensures x in NamesOf(batch) {
        var k :| 0 <= k < |ready| && ready[k] == x;
        assert batch[k].name == x;
      }
    }
    pending, completed, chosen := Settle(graph, ready, pending, completed);
  }

  /** The deadline has not passed when round i is about to start. The clock is read once for
      the deadline and then in front of every round. */
  predicate OnTime(clock: nat -> real, timeout: real, i: nat) {
    clock(i + 1) <= clock(0) + timeout
  }

  /** What every outcome says about the run behind it. */
  ghost predicate Explains(g: Graph, outcome: Outcome, h: History)
    requires |h.states| > 0
  {
    match outcome
    case Done(_, _) => Finished(h)
    case NoEntry => false
    case Stalled => Stuck(g, h)
    case TimedOut => !Finished(h)
    case UnknownNode(name) => name in Ready(g, Final(h)) - g.declared
  }

  /** A run that did not time out ends normally exactly on an executable graph. */
  lemma StaticOutcome(g: Graph, outcome: Outcome, h: History)
    requires Static(g) && IsRun(g, h) && Explains(g, outcome, h)
    ensures !outcome.TimedOut? ==> (outcome.Done? <==> Executable(g))
    ensures outcome.Done? ==> forall x :: x in Final(h).completed <==> Reachable(g, x)
    ensures outcome.UnknownNode? ==> !ReachableDeclared(g)
  {
    match outcome {
      case Done(_, _) =>
        FinishedIsExecutable(g, h);
        FinishedMeansReachable(g, h);
      case Stalled => StuckIsNotExecutable(g, h);
      case UnknownNode(name) =>
        StaticReach(g, h, |h.batches|);
        assert Reachable(g, name);
      case _ =>
    }
  }

  /** The program's variables against the run so far. */
  ghost predicate Tracks(g: Graph, h: History, run: seq<seq<NodeResult>>, results: seq<NodeResult>, s: Progress) {
    && IsRun(g, h) && Final(h) == s
    && Records(run, h) && results == Concat(run)
    && InOrder(g, results) && NamesOf(results) == s.completed
    && s.pending !! s.completed && s.completed <= g.declared
  }

  lemma TrackRound(g: Graph, h: History, run: seq<seq<NodeResult>>, results: seq<NodeResult>, s: Progress,
                   batch: seq<NodeResult>, chosen: set<Name>, s': Progress) returns (h': History)
    requires Tracks(g, h, run, results, s) && Distinct(batch) && Round(g, s, NamesOf(batch), chosen, s')
    ensures Tracks(g, h', run + [batch], results + batch, s')
    ensures s.completed < s'.completed
  {
    InOrderExtend(g, results, batch, s);
    ConcatSnoc(run, batch);
    h' := RunExtended(g, h, NamesOf(batch), chosen, s');
    RecordsSnoc(run, h, batch, h');
    RoundGrows(g, s, NamesOf(batch), chosen, s');
  }

  lemma RunExtended(g: Graph, h: History, batch: set<Name>, chosen: set<Name>, s: Progress) returns (h': History)
    requires IsRun(g, h) && Round(g, Final(h), batch, chosen, s)
    ensures IsRun(g, h') && Final(h') == s && h'.batches == h.batches + [batch]
  {
    h' := History(h.states + [s], h.batches + [batch], h.chosen + [chosen]);
    forall i | 0 <= i < |h'.batches|
      ensures Round(g, h'.states[i], h'.batches[i], h'.chosen[i], h'.states[i + 1])
    {
      if i < |h.batches| { assert Round(g, h.states[i], h.batches[i], h.chosen[i], h.states[i + 1]); }
    }
  }

  lemma RecordsSnoc(run: seq<seq<NodeResult>>, h: History, batch: seq<NodeResult>, h': History)
    requires Records(run, h) && h'.batches == h.batches + [NamesOf(batch)]
    ensures Records(run + [batch], h')
  {}

  lemma RoundGrows(g: Graph, s: Progress, batch: set<Name>, chosen: set<Name>, s': Progress)
    requires Round(g, s, batch, chosen, s') && s.pending !! s.completed && s.completed <= g.declared
    ensures s.completed < s'.completed <= g.declared && s'.pending !! s'.completed
    ensures s'.completed == s.completed + batch
  {
    var one :| one in batch;
    assert one !in s.completed;
  }

  ghost predicate OnTimeBefore(clock: nat -> real, timeout: real, n: nat) {
    forall i :: 0 <= i < n ==> OnTime(clock, timeout, i)
  }

  lemma OnTimeOnce(clock: nat -> real, timeout: real, n: nat)
    requires OnTimeBefore(clock, timeout, n) && OnTime(clock, timeout, n)
    ensures OnTimeBefore(clock, timeout, n + 1)
  {}

  /** The `while pending` loop and what follows it. */
  method RunLoop(graph: StateGraph, entry: Name, parents: map<Name, set<Name>>, returned: Returns,
                 clock: nat -> real, timeout: real)
    returns (outcome: Outcome, run: seq<seq<NodeResult>>, ghost h: History)
    requires graph.entry == Some(entry) && IsParentTable(graph.View(), parents)
    ensures |h.states| > 0 && Tracks(graph.View(), h, run, Concat(run), Final(h))
    ensures Explains(graph.View(), outcome, h) && Told(returned, Concat(run))
    ensures outcome.Done? ==> outcome.nodes == Concat(run)
    ensures outcome.Done? ==> (outcome.ok <==> forall r :: r in outcome.nodes ==> r.ok)
    ensures OnTimeBefore(clock, timeout, |run|)
    ensures outcome.TimedOut? ==> !OnTime(clock, timeout, |run|)
    ensures outcome.Stalled? || outcome.UnknownNode? ==> OnTime(clock, timeout, |run|)
  {
    ghost var g := graph.View();
    var results: seq<NodeResult> := [];
    var pending, completed: set<Name> := {entry}, {};
    var overallDeadline := clock(0) + timeout;
    run, h := [], History([Progress(pending, completed)], [], []);
    while pending != {}
      invariant Tracks(g, h, run, results, Progress(pending, completed))
      invariant OnTimeBefore(clock, timeout, |run|) && Told(returned, results)
      decreases g.declared - completed
    {
      if clock(|run| + 1) > overallDeadline {
        return TimedOut, run, h;
      }
      OnTimeOnce(clock, timeout, |run|);
      ghost var s := Progress(pending, completed);
      var res;
      ghost var chosen;
      res, pending, completed, chosen := RunRound(graph, parents, returned, pending, completed);
      match res {
        case NoneReady => return Stalled, run, h;
        case Missing(name) => return UnknownNode(name), run, h;
        case Ran(batch) =>
          ToldMore(returned, results, batch);
          h := TrackRound(g, h, run, results, s, batch, chosen, Progress(pending, completed));
          results, run := results + batch, run + [batch];
      }
    }
    outcome := Done(results, forall r :: r in results ==> r.ok);
  }

  /** `run` lists the results round by round, also when the call raises. */
  method Execute(graph: StateGraph, returned: Returns, clock: nat -> real, timeout: real)
    returns (outcome: Outcome, run: seq<seq<NodeResult>>, ghost h: History)
    ensures outcome.NoEntry? <==> graph.entry.None?
    ensures outcome.NoEntry? ==> run == []
    ensures Told(returned, Concat(run))
    ensures !outcome.NoEntry? ==> IsRun(graph.View(), h) && Records(run, h) && InOrder(graph.View(), Concat(run))
    ensures !outcome.NoEntry? ==> Explains(graph.View(), outcome, h)
    ensures outcome.Done? ==> outcome.nodes == Concat(run)
    ensures outcome.Done? ==> (outcome.ok <==> forall r :: r in outcome.nodes ==> r.ok)
    ensures OnTimeBefore(clock, timeout, |run|)
    ensures outcome.TimedOut? ==> !OnTime(clock, timeout, |run|)
    ensures outcome.Stalled? || outcome.UnknownNode? ==> OnTime(clock, timeout, |run|)
    ensures Static(graph.View()) && graph.entry.Some? && !outcome.TimedOut? ==>
              (outcome.Done? <==> Executable(graph.View()))
    ensures Static(graph.View()) && outcome.Done? ==>
              forall x :: x in NamesOf(outcome.nodes) <==> Reachable(graph.View(), x)
    ensures Static(graph.View()) && ReachableDeclared(graph.View()) ==> !outcome.UnknownNode?
  {
    if graph.entry.None? {
      return NoEntry, [], History([], [], []);
    }
    var parents := ComputeParents(graph);
    outcome, run, h := RunLoop(graph, graph.entry.value, parents, returned, clock, timeout);
    if Static(graph.View()) {
      StaticOutcome(graph.View(), outcome, h);
    }
  }

  // ----- Order of iteration does not matter -----

  /** No further round is possible. */
  ghost predicate Halted(g: Graph, h: History)
    requires |h.states| > 0
  {
    Ready(g, Final(h)) == {} || !(Ready(g, Final(h)) <= g.declared)
  }

  lemma NotHaltedEarly(g: Graph, h: History, k: nat)
    requires IsRun(g, h) && k < |h.batches|
    ensures Ready(g, h.states[k]) != {} && Ready(g, h.states[k]) <= g.declared
  {
    assert Round(g, h.states[k], h.batches[k], h.chosen[k], h.states[k + 1]);
  }

  /** Without conditional edges all complete runs are the same run: the same nodes in
      the same rounds, and so the same way of ending. */
  lemma HaltedRunsAgree(g: Graph, h1: History, h2: History)
    requires Static(g) && IsRun(g, h1) && IsRun(g, h2) && Halted(g, h1) && Halted(g, h2)
    ensures h1.batches == h2.batches && h1.states == h2.states
  {
    var n1, n2 := |h1.batches|, |h2.batches|;
    var n := if n1 <= n2 then n1 else n2;
    forall k | 0 <= k <= n ensures h1.states[k] == h2.states[k] {
      StaticRunsAgree(g, h1, h2, k);
    }
    StaticRunsAgree(g, h1, h2, n);
    if n1 < n2 {
      NotHaltedEarly(g, h2, n1);
    } else if n2 < n1 {
      NotHaltedEarly(g, h1, n2);
    }
  }
}
