/** The morning-brief graph (apps/orchestrator/orchestrator/plan/morning_brief.py), for
    any list of persona slugs, run by the DAG runner. */
module MorningBrief {
  import opened Basics
  import opened DagRunner

  const INTEL: Name := "n_intel_synth"
  const FUNDAMENTAL: Name := "n_fundamental"
  const QUANT: Name := "n_quant"
  const SECRETARY: Name := "n_secretary_brief"
  const DELIVER: Name := "n_deliver_brief"

  function PersonaNode(slug: string): Name {
    "n_persona_" + slug
  }

  function PersonaNodes(slugs: seq<string>): (r: seq<Name>) {
    seq(|slugs|, i requires 0 <= i < |slugs| => PersonaNode(slugs[i]))
  }

  function Legs(slugs: seq<string>): seq<Name> {
    [FUNDAMENTAL, QUANT] + PersonaNodes(slugs)
  }

  function LegEdges(slugs: seq<string>): map<Name, seq<Name>> {
    map leg | leg in Legs(slugs) :: [SECRETARY]
  }

  /** The edges out of the entry and out of the legs of the first personas. */
  function Fan(legs: seq<Name>, slugs: seq<string>): map<Name, seq<Name>> {
    map[INTEL := legs] + LegEdges(slugs)
  }

  function BriefGraph(slugs: seq<string>): Graph {
    Graph({INTEL, SECRETARY, DELIVER} + Elems(Legs(slugs)),
          Fan(Legs(slugs), slugs) + map[SECRETARY := [DELIVER]],
          {}, Some(INTEL))
  }

  ghost predicate DistinctSlugs(slugs: seq<string>) {
    forall i, j :: 0 <= i < j < |slugs| ==> slugs[i] != slugs[j]
  }

  lemma PersonaNamesDiffer(slug: string, other: string)
    ensures PersonaNode(slug) !in {INTEL, FUNDAMENTAL, QUANT, SECRETARY, DELIVER}
    ensures PersonaNode(slug) == PersonaNode(other) <==> slug == other
  {
    assert PersonaNode(slug)[2] == 'p';
    assert INTEL[2] == 'i' && FUNDAMENTAL[2] == 'f' && QUANT[2] == 'q' && SECRETARY[2] == 's' && DELIVER[2] == 'd';
    assert PersonaNode(slug)[10..] == slug && PersonaNode(other)[10..] == other;
  }

  lemma LegsDiffer(slugs: seq<string>)
    ensures Elems(Legs(slugs)) !! {INTEL, SECRETARY, DELIVER}
    ensures INTEL != SECRETARY && INTEL != DELIVER && SECRETARY != DELIVER && FUNDAMENTAL != QUANT
  {
    assert INTEL[2] == 'i' && FUNDAMENTAL[2] == 'f' && QUANT[2] == 'q' && SECRETARY[2] == 's' && DELIVER[2] == 'd';
    forall leg | leg in Legs(slugs) ensures leg !in {INTEL, SECRETARY, DELIVER} {
      if leg != FUNDAMENTAL && leg != QUANT {
        var i :| 0 <= i < |slugs| && leg == PersonaNode(slugs[i]);
        PersonaNamesDiffer(slugs[i], slugs[i]);
      }
    }
  }

  // ----- Building the graph -----

  lemma NodeAdded(slugs: seq<string>, i: nat)
    requires i < |slugs|
    ensures PersonaNode(slugs[i]) in {INTEL} + Elems(Legs(slugs[..i])) <==> slugs[i] in slugs[..i]
  {
    PersonaNamesDiffer(slugs[i], slugs[i]);
    forall j | 0 <= j < i ensures PersonaNode(slugs[i]) == PersonaNode(slugs[j]) <==> slugs[i] == slugs[j] {
      PersonaNamesDiffer(slugs[i], slugs[j]);
    }
    var legs := Legs(slugs[..i]);
    if slugs[i] in slugs[..i] {
      var j :| 0 <= j < i && slugs[j] == slugs[i];
      assert legs[2 + j] == PersonaNode(slugs[i]);
    }
  }

  lemma LegsSnoc(slugs: seq<string>, i: nat)
    requires i < |slugs|
    ensures Legs(slugs[..i + 1]) == Legs(slugs[..i]) + [PersonaNode(slugs[i])]
    ensures LegEdges(slugs[..i + 1]) == LegEdges(slugs[..i])[PersonaNode(slugs[i]) := [SECRETARY]]
  {
    assert slugs[..i + 1] == slugs[..i] + [slugs[i]];
    assert Legs(slugs[..i + 1]) == Legs(slugs[..i]) + [PersonaNode(slugs[i])];
  }

  lemma DistinctSnoc(slugs: seq<string>, i: nat)
    requires i < |slugs| && DistinctSlugs(slugs[..i])
    ensures slugs[i] in slugs[..i] ==> !DistinctSlugs(slugs)
    ensures slugs[i] !in slugs[..i] ==> DistinctSlugs(slugs[..i + 1])
  {
    if slugs[i] in slugs[..i] {
      var j :| 0 <= j < i && slugs[j] == slugs[i];
    } else {
      forall j | 0 <= j < i ensures slugs[j] != slugs[i] { assert slugs[j] == slugs[..i][j]; }
    }
  }

  method AddPersonas(g: StateGraph, slugs: seq<string>) returns (ok: bool)
    requires g.nodes == {INTEL} + Elems(Legs([]))
    modifies g
    ensures ok <==> DistinctSlugs(slugs)
    ensures ok ==> g.View() == old(g.View()).(declared := {INTEL} + Elems(Legs(slugs)))
  {
    for i := 0 to |slugs|
      invariant g.View() == old(g.View()).(declared := {INTEL} + Elems(Legs(slugs[..i])))
      invariant DistinctSlugs(slugs[..i])
    {
      NodeAdded(slugs, i);
      DistinctSnoc(slugs, i);
      LegsSnoc(slugs, i);
      var added := g.AddNode(PersonaNode(slugs[i]));
      if !added {
        return false;
      }
    }
    assert slugs[..|slugs|] == slugs;
    ok := true;
  }

  /** The first half of build_dag: declare the nodes. Stops at the first duplicate. */
  method AddNodes(g: StateGraph, slugs: seq<string>) returns (ok: bool)
    requires g.View() == Graph({}, map[], {}, None)
    modifies g
    ensures ok <==> DistinctSlugs(slugs)
    ensures ok ==> g.View() == Graph(BriefGraph(slugs).declared, map[], {}, None)
  {
    LegsDiffer(slugs);
    var _ := g.AddNode(INTEL);
    var _ := g.AddNode(FUNDAMENTAL);
    var _ := g.AddNode(QUANT);
    assert g.nodes == {INTEL} + Elems(Legs([]));
    ok := AddPersonas(g, slugs);
    if ok {
      var _ := g.AddNode(SECRETARY);
      var _ := g.AddNode(DELIVER);
    }
  }

  lemma SingleTarget(src: Name, dst: Name, m: map<Name, seq<Name>>)
    requires src !in m
    ensures forall g: Graph {:trigger Targets(g, src)} :: g.edges == m ==> Targets(g, src) + [dst] == [dst]
  {}

  /** The edges from the entry to every leg. */
  method AddFanOut(g: StateGraph, slugs: seq<string>)
    requires g.edges == map[]
    modifies g
    ensures g.View() == old(g.View()).(edges := map[INTEL := Legs(slugs)])
  {
    SingleTarget(INTEL, FUNDAMENTAL, g.edges);
    g.AddEdge(INTEL, FUNDAMENTAL);
    g.AddEdge(INTEL, QUANT);
    assert [FUNDAMENTAL] + [QUANT] == Legs(slugs[..0]);
    for i := 0 to |slugs|
      invariant g.View() == old(g.View()).(edges := map[INTEL := Legs(slugs[..i])])
    {
      g.AddEdge(INTEL, PersonaNode(slugs[i]));
      LegsSnoc(slugs, i);
    }
    assert slugs[..|slugs|] == slugs;
  }

  /** A first edge out of src. */
  method AddOnlyEdge(g: StateGraph, src: Name, dst: Name)
    requires src !in g.edges
    modifies g
    ensures g.View() == old(g.View()).(edges := old(g.edges)[src := [dst]])
  {
    SingleTarget(src, dst, g.edges);
    g.AddEdge(src, dst);
  }

  lemma FanStart(legs: seq<Name>)
    ensures map[INTEL := legs][FUNDAMENTAL := [SECRETARY]][QUANT := [SECRETARY]] == Fan(legs, [])
  {
    LegsDiffer([]);
  }

  lemma FanSnoc(legs: seq<Name>, slugs: seq<string>, i: nat)
    requires i < |slugs| && DistinctSlugs(slugs)
    ensures PersonaNode(slugs[i]) !in Fan(legs, slugs[..i])
    ensures Fan(legs, slugs[..i])[PersonaNode(slugs[i]) := [SECRETARY]] == Fan(legs, slugs[..i + 1])
  {
    NodeAdded(slugs, i);
    LegsSnoc(slugs, i);
    PersonaNamesDiffer(slugs[i], slugs[i]);
  }

  /** The edges from every leg to the secretary. */
  method AddFanIn(g: StateGraph, slugs: seq<string>)
    requires g.edges == map[INTEL := Legs(slugs)] && DistinctSlugs(slugs)
    modifies g
    ensures g.View() == old(g.View()).(edges := Fan(Legs(slugs), slugs))
  {
    LegsDiffer(slugs);
    AddOnlyEdge(g, FUNDAMENTAL, SECRETARY);
    AddOnlyEdge(g, QUANT, SECRETARY);
    FanStart(Legs(slugs));
    assert slugs[..0] == [];
    for i := 0 to |slugs|
      invariant g.View() == old(g.View()).(edges := Fan(Legs(slugs), slugs[..i]))
    {
      FanSnoc(Legs(slugs), slugs, i);
      AddOnlyEdge(g, PersonaNode(slugs[i]), SECRETARY);
    }
    assert slugs[..|slugs|] == slugs;
  }

  /** The second half of build_dag: entry and edges. */
  method AddEdges(g: StateGraph, slugs: seq<string>)
    requires g.View() == Graph(BriefGraph(slugs).declared, map[], {}, None) && DistinctSlugs(slugs)
    modifies g
    ensures g.View() == BriefGraph(slugs)
  {
    g.SetEntry(INTEL);
    AddFanOut(g, slugs);
    AddFanIn(g, slugs);
    LegsDiffer(slugs);
    SingleTarget(SECRETARY, DELIVER, g.edges);
    g.AddEdge(SECRETARY, DELIVER);
  }

  /** None stands for the ValueError of a duplicate persona. */
  method BuildDag(slugs: seq<string>) returns (g: StateGraph?)
    ensures g != null <==> DistinctSlugs(slugs)
    ensures g != null ==> fresh(g) && g.View() == BriefGraph(slugs)
  {
    g := new StateGraph();
    var ok := AddNodes(g, slugs);
    if !ok {
      return null;
    }
    AddEdges(g, slugs);
  }

  // ----- Running it -----

  ghost function PersonaSet(slugs: seq<string>): set<Name> {
    set slug | slug in slugs :: "n_persona_" + slug
  }

  /** Intelligence; the two specialists and every persona; the secretary; delivery. */
  ghost function BriefRounds(slugs: seq<string>): seq<set<Name>> {
    [{INTEL}, {FUNDAMENTAL, QUANT} + PersonaSet(slugs), {SECRETARY}, {DELIVER}]
  }

  lemma LegsAre(slugs: seq<string>)
    ensures Elems(Legs(slugs)) == {FUNDAMENTAL, QUANT} + PersonaSet(slugs)
  {
    forall slug | slug in slugs ensures PersonaNode(slug) in Legs(slugs) {
      var i :| 0 <= i < |slugs| && slugs[i] == slug;
      assert Legs(slugs)[2 + i] == PersonaNode(slug);
    }
  }

  lemma BriefRoundsAre(slugs: seq<string>)
    ensures BriefRounds(slugs) == [{INTEL}, Elems(Legs(slugs)), {SECRETARY}, {DELIVER}]
  {
    LegsAre(slugs);
  }

  lemma BriefParents(slugs: seq<string>)
    ensures Parents(BriefGraph(slugs), INTEL) == {}
    ensures forall leg :: leg in Legs(slugs) ==> Parents(BriefGraph(slugs), leg) == {INTEL}
    ensures Parents(BriefGraph(slugs), SECRETARY) == Elems(Legs(slugs))
    ensures Parents(BriefGraph(slugs), DELIVER) == {SECRETARY}
  {
    LegsDiffer(slugs);
  }

  lemma BriefNext(slugs: seq<string>)
    ensures StaticNext(BriefGraph(slugs), {INTEL}) == Elems(Legs(slugs))
    ensures StaticNext(BriefGraph(slugs), Elems(Legs(slugs))) == {SECRETARY}
    ensures StaticNext(BriefGraph(slugs), {SECRETARY}) == {DELIVER}
    ensures StaticNext(BriefGraph(slugs), {DELIVER}) == {}
  {
    LegsDiffer(slugs);
    var g := BriefGraph(slugs);
    assert Legs(slugs)[0] == FUNDAMENTAL;
    assert Targets(g, INTEL) == Legs(slugs);
    assert SECRETARY in Targets(g, FUNDAMENTAL);
    assert Targets(g, SECRETARY) == [DELIVER] && Targets(g, DELIVER) == [];
    assert DELIVER in Targets(g, SECRETARY);
  }

  /** A history in which four layers of nodes run one after the other. */
  ghost function Layers(a: Name, legs: set<Name>, c: Name, d: Name): History {
    History([Progress({a}, {}), Progress(legs, {a}), Progress({c}, {a} + legs),
             Progress({d}, {a} + legs + {c}), Progress({}, {a} + legs + {c} + {d})],
            [{a}, legs, {c}, {d}], [{}, {}, {}, {}])
  }

  lemma LayerRound(g: Graph, batch: set<Name>, done: set<Name>, next: set<Name>)
    requires batch != {} && batch <= g.declared && batch !! done
    requires forall x :: x in batch ==> Parents(g, x) <= done
    requires StaticNext(g, batch) == next && next !! done + batch
    ensures Round(g, Progress(batch, done), batch, {}, Progress(next, done + batch))
  {
    assert Ready(g, Progress(batch, done)) == batch;
    assert batch + next - (done + batch) == next;
  }

  lemma LayersRun(g: Graph, a: Name, legs: set<Name>, c: Name, d: Name)
    requires g.entry == Some(a) && {a, c, d} + legs <= g.declared
    requires legs != {} && legs !! {a, c, d} && a != c && a != d && c != d
    requires Parents(g, a) == {} && (forall x :: x in legs ==> Parents(g, x) == {a})
    requires Parents(g, c) == legs && Parents(g, d) == {c}
    requires StaticNext(g, {a}) == legs && StaticNext(g, legs) == {c}
    requires StaticNext(g, {c}) == {d} && StaticNext(g, {d}) == {}
    ensures IsRun(g, Layers(a, legs, c, d))
  {
    LayerRound(g, {a}, {}, legs);
    assert {} + {a} == {a};
    LayerRound(g, legs, {a}, {c});
    LayerRound(g, {c}, {a} + legs, {d});
    LayerRound(g, {d}, {a} + legs + {c}, {});
  }

  ghost function BriefHistory(slugs: seq<string>): History {
    Layers(INTEL, Elems(Legs(slugs)), SECRETARY, DELIVER)
  }

  lemma BriefHistoryIsRun(slugs: seq<string>)
    ensures IsRun(BriefGraph(slugs), BriefHistory(slugs)) && Finished(BriefHistory(slugs))
    ensures BriefHistory(slugs).batches == BriefRounds(slugs)
  {
    BriefRoundsAre(slugs);
    LegsDiffer(slugs);
    BriefParents(slugs);
    BriefNext(slugs);
    assert Legs(slugs)[0] in Elems(Legs(slugs));
    LayersRun(BriefGraph(slugs), INTEL, Elems(Legs(slugs)), SECRETARY, DELIVER);
  }

  /** For any personas, every complete run takes four rounds: intelligence, all legs at
      once, the secretary, delivery. */
  lemma BriefTakesFourRounds(slugs: seq<string>, h: History)
    requires IsRun(BriefGraph(slugs), h) && Halted(BriefGraph(slugs), h)
    ensures h.batches == BriefRounds(slugs) && Finished(h)
  {
    BriefHistoryIsRun(slugs);
    HaltedRunsAgree(BriefGraph(slugs), h, BriefHistory(slugs));
  }

  /** Every run of the brief, complete or not, goes through the four rounds in order, and has
      something left to do before the fourth is over. */
  lemma BriefPrefix(slugs: seq<string>, h: History)
    requires IsRun(BriefGraph(slugs), h)
    ensures |h.batches| <= 4 && h.batches == BriefRounds(slugs)[..|h.batches|]
    ensures Halted(BriefGraph(slugs), h) <==> |h.batches| == 4
    ensures Finished(h) <==> |h.batches| == 4
  {
    var g, brief := BriefGraph(slugs), BriefHistory(slugs);
    BriefHistoryIsRun(slugs);
    var n := if |h.batches| <= 4 then |h.batches| else 4;
    StaticRunsAgree(g, h, brief, n);
    if |h.batches| > 4 {
      NotHaltedEarly(g, h, 4);
    } else if n < 4 {
      NotHaltedEarly(g, brief, n);
    }
  }

  lemma BriefEnds(slugs: seq<string>, h: History, outcome: Outcome)
    requires IsRun(BriefGraph(slugs), h) && Explains(BriefGraph(slugs), outcome, h)
    ensures if |h.batches| == 4 then outcome.Done? else outcome.TimedOut?
  {
    BriefPrefix(slugs, h);
  }

  lemma BriefRecorded(slugs: seq<string>, h: History, run: seq<seq<NodeResult>>)
    requires Records(run, h) && IsRun(BriefGraph(slugs), h)
    ensures |run| <= 4 && forall i :: 0 <= i < |run| ==> NamesOf(run[i]) == BriefRounds(slugs)[i]
  {
    BriefPrefix(slugs, h);
  }

  /** Build and execute: with distinct personas the brief goes through its four rounds and
      finishes, unless the deadline passes in front of one of them, whatever the iteration
      order of the runner and whichever nodes fail. */
  method RunBrief(slugs: seq<string>, returned: Returns, clock: nat -> real, timeout: real)
    returns (outcome: Option<Outcome>, run: seq<seq<NodeResult>>)
    ensures outcome.Some? <==> DistinctSlugs(slugs)
    ensures outcome.Some? ==> |run| <= 4 && forall i :: 0 <= i < |run| ==> NamesOf(run[i]) == BriefRounds(slugs)[i]
    ensures Told(returned, Concat(run))
    ensures outcome.Some? && |run| == 4 ==> outcome.value.Done? && outcome.value.nodes == Concat(run)
    ensures outcome.Some? && |run| < 4 ==> outcome.value.TimedOut? && !OnTime(clock, timeout, |run|)
  {
    var g := BuildDag(slugs);
    if g == null {
      return None, [];
    }
    ghost var h;
    var result;
    result, run, h := Execute(g, returned, clock, timeout);
    BriefEnds(slugs, h, result);
    BriefRecorded(slugs, h, run);
    outcome := Some(result);
  }
}
