/** The per-target circuit breaker (apps/orchestrator/orchestrator/plan/breaker.py).

    One `call` is an atomic admission followed later by a finish. Calls admitted while
    the breaker was closed may finish when it is open or half-open (stragglers), and a
    call may be cancelled while its function runs, which executes no breaker code. */
module CircuitBreaker {
  datatype State = Closed | Open | HalfOpen

  datatype Config = Config(threshold: int, cooldown: real)

  /** The fields of _BreakerState. */
  datatype Cell = Cell(state: State, failures: int, openedAt: real, probing: bool)

  const FRESH := Cell(Closed, 0, 0.0, false)

  /** The outcome of an admission: run the function as a normal call, run it as the
      half-open probe, or raise BreakerOpen. */
  datatype Admission = Normal | Probe | Rejected

  function Elapse(cfg: Config, c: Cell, now: real): Cell {
    if c.state == Open && now - c.openedAt >= cfg.cooldown then c.(state := HalfOpen) else c
  }

  function Admit(cfg: Config, c: Cell, now: real): (Cell, Admission) {
    var c' := Elapse(cfg, c, now);
    match c'.state
    case Open => (c', Rejected)
    case HalfOpen => if c'.probing then (c', Rejected) else (c'.(probing := true), Probe)
    case Closed => (c', Normal)
  }

  function NormalFinish(cfg: Config, c: Cell, ok: bool, now: real): Cell {
    if ok then c.(failures := 0)
    else if c.failures + 1 >= cfg.threshold then
      c.(failures := c.failures + 1, state := Open, openedAt := now)
    else c.(failures := c.failures + 1)
  }

  function ProbeFinish(cfg: Config, c: Cell, ok: bool, now: real): Cell {
    if ok then Cell(Closed, 0, c.openedAt, false)
    else Cell(Open, cfg.threshold, now, false)
  }

  // ----- The registry -----

  class CircuitBreakerRegistry {
    const cfg: Config
    var states: map<string, Cell>
    /** What the on_change hook was told, in order. */
    var changes: seq<(string, State)>

    function CellOf(target: string): Cell
      reads this
    {
      if target in states then states[target] else FRESH
    }

    constructor (cfg: Config)
      ensures this.cfg == cfg && states == map[] && changes == []
    {
      this.cfg := cfg;
      states, changes := map[], [];
    }

    function StateOf(target: string): State
      reads this
    {
      CellOf(target).state
    }

    /** Set the state and tell the hook, unless nothing changes. */
    method Transition(target: string, newState: State)
      requires target in states
      modifies this
      ensures states == old(states)[target := old(states)[target].(state := newState)]
      ensures changes == old(changes) + if old(states)[target].state == newState then [] else [(target, newState)]
    {
      if states[target].state == newState {
        assert states == states[target := states[target].(state := newState)];
        return;
      }
      states := states[target := states[target].(state := newState)];
      changes := changes + [(target, newState)];
    }

    /** The part of `call` before the function is awaited. */
    method Enter(target: string, now: real) returns (a: Admission)
      modifies this
      ensures states == old(states)[target := Admit(cfg, old(CellOf(target)), now).0]
      ensures a == Admit(cfg, old(CellOf(target)), now).1
      ensures changes == old(changes) + Change(target, old(StateOf(target)), StateOf(target))
    {
      if target !in states {
        states := states[target := FRESH];
      }
      if states[target].state == Open && now - states[target].openedAt >= cfg.cooldown {
        Transition(target, HalfOpen);
      }
      match states[target].state {
        case Open => a := Rejected;
        case HalfOpen =>
          if states[target].probing {
            return Rejected;
          }
          states := states[target := states[target].(probing := true)];
          a := Probe;
        case Closed => a := Normal;
      }
    }

    /** The part of `call` after a probe's function returned (ok) or raised. */
    method LeaveProbe(target: string, ok: bool, now: real)
      requires target in states
      modifies this
      ensures target in states && !states[target].probing
      ensures ok ==> states[target].state == Closed && states[target].failures == 0
      ensures !ok ==> states[target].state == Open && states[target].openedAt == now
      ensures states == old(states)[target := ProbeFinish(cfg, old(CellOf(target)), ok, now)]
      ensures changes == old(changes) + Change(target, old(StateOf(target)), StateOf(target))
    {
      if ok {
        Transition(target, Closed);
        states := states[target := states[target].(failures := 0)];
      } else {
        Transition(target, Open);
        states := states[target := states[target].(openedAt := now)];
        states := states[target := states[target].(failures := cfg.threshold)];
      }
      states := states[target := states[target].(probing := false)];
    }

    /** The part of `call` after a normal call's function returned (ok) or raised. */
    method LeaveNormal(target: string, ok: bool, now: real)
      requires target in states
      modifies this
      ensures states == old(states)[target := NormalFinish(cfg, old(CellOf(target)), ok, now)]
      ensures changes == old(changes) + Change(target, old(StateOf(target)), StateOf(target))
    {
      if ok {
        if states[target].failures != 0 {
          states := states[target := states[target].(failures := 0)];
        }
      } else {
        states := states[target := states[target].(failures := states[target].failures + 1)];
        if states[target].failures >= cfg.threshold {
          Transition(target, Open);
          states := states[target := states[target].(openedAt := now)];
        }
      }
    }
  }

  function Change(target: string, before: State, after: State): seq<(string, State)> {
    if before == after then [] else [(target, after)]
  }

  // ----- Interleavings -----

  /** A breaker with the calls it admitted that have not finished: `normals` and
      `probes` count them by the way they were admitted. `lost` counts cancelled
      probes, `now` is the latest reading of the clock. */
  datatype System = System(cell: Cell, normals: nat, probes: nat, lost: nat, now: real)

  const START := System(FRESH, 0, 0, 0, 0.0)

  datatype Event =
    | Call(at: real)
    | NormalDone(ok: bool, at: real)
    | NormalCancelled
    | ProbeDone(ok: bool, at: real)
    | ProbeCancelled

  ghost predicate Enabled(s: System, e: Event) {
    match e
    case Call(at) => s.now <= at
    case NormalDone(_, at) => s.now <= at && s.normals > 0
    case NormalCancelled => s.normals > 0
    case ProbeDone(_, at) => s.now <= at && s.probes > 0
    case ProbeCancelled => s.probes > 0
  }

  ghost function Step(cfg: Config, s: System, e: Event): System
    requires Enabled(s, e)
  {
    match e
    case Call(at) =>
      var (c, a) := Admit(cfg, s.cell, at);
      System(c, if a == Normal then s.normals + 1 else s.normals,
             if a == Probe then s.probes + 1 else s.probes, s.lost, at)
    case NormalDone(ok, at) => System(NormalFinish(cfg, s.cell, ok, at), s.normals - 1, s.probes, s.lost, at)
    case NormalCancelled => s.(normals := s.normals - 1)
    case ProbeDone(ok, at) => System(ProbeFinish(cfg, s.cell, ok, at), s.normals, s.probes - 1, s.lost, at)
    case ProbeCancelled => s.(probes := s.probes - 1, lost := s.lost + 1)
  }

  ghost predicate Feasible(cfg: Config, s: System, es: seq<Event>)
    decreases |es|
  {
    es == [] || (Enabled(s, es[0]) && Feasible(cfg, Step(cfg, s, es[0]), es[1..]))
  }

  ghost function After(cfg: Config, s: System, es: seq<Event>): System
    requires Feasible(cfg, s, es)
    decreases |es|
  {
    if es == [] then s else After(cfg, Step(cfg, s, es[0]), es[1..])
  }

  /** The calls of a run that reached the function. */
  ghost function Admissions(cfg: Config, s: System, es: seq<Event>): nat
    requires Feasible(cfg, s, es)
    decreases |es|
  {
    if es == [] then 0 else
      (if es[0].Call? && Admit(cfg, s.cell, es[0].at).1 != Rejected then 1 else 0)
      + Admissions(cfg, Step(cfg, s, es[0]), es[1..])
  }

  ghost predicate Reachable(cfg: Config, s: System) {
    exists es :: Feasible(cfg, START, es) && After(cfg, START, es) == s
  }

  lemma {:induction false} RunSnoc(cfg: Config, s: System, es: seq<Event>, e: Event)
    requires Feasible(cfg, s, es) && Enabled(After(cfg, s, es), e)
    ensures Feasible(cfg, s, es + [e])
    ensures After(cfg, s, es + [e]) == Step(cfg, After(cfg, s, es), e)
    decreases |es|
  {
    if es == [] {
      assert (es + [e])[1..] == [];
    } else {
      assert (es + [e])[1..] == es[1..] + [e];
      RunSnoc(cfg, Step(cfg, s, es[0]), es[1..], e);
    }
  }

  lemma ReachableStep(cfg: Config, s: System, e: Event) returns (s': System)
    requires Reachable(cfg, s) && Enabled(s, e)
    ensures s' == Step(cfg, s, e) && Reachable(cfg, s')
  {
    s' := Step(cfg, s, e);
    var es :| Feasible(cfg, START, es) && After(cfg, START, es) == s;
    RunSnoc(cfg, START, es, e);
  }

  /** What every interleaving keeps. */
  ghost predicate Inv(cfg: Config, s: System) {
    && s.probes <= 1
    && (s.cell.probing <==> s.probes + s.lost == 1)
    && s.probes + s.lost <= 1
    && (s.cell.probing ==> s.cell.state != Closed)
    && (s.cell.state == Closed ==> s.cell.failures < cfg.threshold)
    && 0 <= s.cell.failures
    && s.cell.openedAt <= s.now
  }

  lemma StepKeepsInv(cfg: Config, s: System, e: Event)
    requires cfg.threshold >= 1 && Inv(cfg, s) && Enabled(s, e)
    ensures Inv(cfg, Step(cfg, s, e))
  {}

  lemma {:induction false} RunKeepsInv(cfg: Config, s: System, es: seq<Event>)
    requires cfg.threshold >= 1 && Inv(cfg, s) && Feasible(cfg, s, es)
    ensures Inv(cfg, After(cfg, s, es))
    decreases |es|
  {
    if es != [] {
      StepKeepsInv(cfg, s, es[0]);
      RunKeepsInv(cfg, Step(cfg, s, es[0]), es[1..]);
    }
  }

  /** Under every interleaving at most one probe is in flight, the in-flight flag is
      set exactly when one is or one was cancelled, and closed means fewer consecutive
      failures than the threshold. With a threshold below one this already fails at
      the start. */
  lemma BreakerSafety(cfg: Config, s: System)
    requires Reachable(cfg, s)
    ensures cfg.threshold >= 1 ==> s.probes <= 1
    ensures cfg.threshold >= 1 && s.lost == 0 ==> (s.cell.probing <==> s.probes == 1)
    ensures cfg.threshold >= 1 && s.lost > 0 ==> s.cell.probing && s.probes == 0 && s.cell.state != Closed
    ensures cfg.threshold >= 1 && s.cell.state == Closed ==> s.cell.failures < cfg.threshold
    ensures cfg.threshold < 1 ==> START.cell.failures >= cfg.threshold
  {
    if cfg.threshold >= 1 {
      var es :| Feasible(cfg, START, es) && After(cfg, START, es) == s;
      RunKeepsInv(cfg, START, es);
    }
  }

  // ----- Open shields the function -----

  /** Open is left only through an admission after the cooldown, which makes it
      half-open, or through the success of a probe already running. */
  lemma LeavingOpen(cfg: Config, s: System, e: Event)
    requires Enabled(s, e) && s.cell.state == Open
    ensures Step(cfg, s, e).cell.state != Open ==>
              || (e.Call? && e.at - s.cell.openedAt >= cfg.cooldown && Step(cfg, s, e).cell.state == HalfOpen)
              || (e.ProbeDone? && e.ok && s.probes > 0 && Step(cfg, s, e).cell.state == Closed)
    ensures Step(cfg, s, e).cell.state == Open ==>
              Step(cfg, s, e).cell.openedAt == s.cell.openedAt || (Step(cfg, s, e).cell.openedAt == e.at && !e.Call?)
  {}

  ghost predicate Within(es: seq<Event>, deadline: real) {
    forall i :: 0 <= i < |es| ==> (es[i].Call? ==> es[i].at < deadline)
  }

  ghost predicate NoProbeSuccess(es: seq<Event>) {
    forall i :: 0 <= i < |es| ==> !(es[i].ProbeDone? && es[i].ok)
  }

  /** From an open breaker, no call that arrives before the cooldown has passed reaches
      the function, whatever stragglers do, as long as no running probe succeeds. */
  lemma {:induction false} OpenShields(cfg: Config, s: System, es: seq<Event>)
    requires Feasible(cfg, s, es) && s.cell.state == Open && s.cell.openedAt <= s.now
    requires Within(es, s.cell.openedAt + cfg.cooldown) && NoProbeSuccess(es)
    ensures Admissions(cfg, s, es) == 0
    ensures After(cfg, s, es).cell.state == Open
    ensures After(cfg, s, es).cell.openedAt >= s.cell.openedAt
    decreases |es|
  {
    if es != [] {
      var s' := Step(cfg, s, es[0]);
      LeavingOpen(cfg, s, es[0]);
      assert es[0].Call? ==> es[0].at < s.cell.openedAt + cfg.cooldown;
      assert !(es[0].ProbeDone? && es[0].ok);
      assert s'.cell.openedAt >= s.cell.openedAt;
      forall i | 0 <= i < |es[1..]| ensures es[1..][i].Call? ==> es[1..][i].at < s'.cell.openedAt + cfg.cooldown {
        assert es[1..][i] == es[i + 1];
      }
      forall i | 0 <= i < |es[1..]| ensures !(es[1..][i].ProbeDone? && es[1..][i].ok) {
        assert es[1..][i] == es[i + 1];
      }
      OpenShields(cfg, s', es[1..]);
    }
  }

  /** A breaker that is not closed stays so until a probe succeeds: stragglers can open it
      again, but no success of theirs closes it. */
  lemma {:induction false} OnlyProbesClose(cfg: Config, s: System, es: seq<Event>)
    requires Feasible(cfg, s, es) && s.cell.state != Closed && NoProbeSuccess(es)
    ensures After(cfg, s, es).cell.state != Closed
    decreases |es|
  {
    if es != [] {
      assert !(es[0].ProbeDone? && es[0].ok);
      forall i | 0 <= i < |es[1..]| ensures !(es[1..][i].ProbeDone? && es[1..][i].ok) {
        assert es[1..][i] == es[i + 1];
      }
      OnlyProbesClose(cfg, Step(cfg, s, es[0]), es[1..]);
    }
  }

  // ----- Consecutive failures -----

  /** n calls, one after the other, that all fail at the given time. */
  ghost function FailingCalls(n: nat, at: real): seq<Event> {
    if n == 0 then [] else [Call(at), NormalDone(false, at)] + FailingCalls(n - 1, at)
  }

  lemma TwoSteps(cfg: Config, s: System, a: Event, b: Event, es: seq<Event>)
    requires Enabled(s, a) && Enabled(Step(cfg, s, a), b) && Feasible(cfg, Step(cfg, Step(cfg, s, a), b), es)
    ensures Feasible(cfg, s, [a, b] + es)
    ensures After(cfg, s, [a, b] + es) == After(cfg, Step(cfg, Step(cfg, s, a), b), es)
  {
    assert ([a, b] + es)[1..] == [b] + es && ([b] + es)[1..] == es;
  }

  /** A closed breaker counts failures that follow one another and opens at exactly the one
      that reaches the threshold, with a new cooldown. */
  lemma {:induction false} FailuresOpen(cfg: Config, s: System, n: nat, at: real)
    requires s.cell.state == Closed && s.cell.failures + n <= cfg.threshold && s.now <= at
    ensures Feasible(cfg, s, FailingCalls(n, at))
    ensures After(cfg, s, FailingCalls(n, at)).cell.failures == s.cell.failures + n
    ensures n > 0 ==> var c := After(cfg, s, FailingCalls(n, at)).cell;
                      if c.failures == cfg.threshold then c.state == Open && c.openedAt == at else c.state == Closed
    decreases n
  {
    if n > 0 {
      var s2 := Step(cfg, Step(cfg, s, Call(at)), NormalDone(false, at));
      if n > 1 { FailuresOpen(cfg, s2, n - 1, at); }
      TwoSteps(cfg, s, Call(at), NormalDone(false, at), FailingCalls(n - 1, at));
    }
  }

  // ----- When a cooldown starts -----

  lemma RunCons(cfg: Config, s: System, e: Event, es: seq<Event>)
    requires Enabled(s, e) && Feasible(cfg, Step(cfg, s, e), es)
    ensures Feasible(cfg, s, [e] + es) && After(cfg, s, [e] + es) == After(cfg, Step(cfg, s, e), es)
    ensures !e.Call? ==> Admissions(cfg, s, [e] + es) == Admissions(cfg, Step(cfg, s, e), es)
  {
    assert ([e] + es)[1..] == es;
  }

  /** A probe that fails at `at` starts a new cooldown then: whatever the breaker was like, no
      call that arrives earlier than `at` plus the cooldown reaches the function, as long as no
      probe succeeds. */
  lemma FailedProbeShields(cfg: Config, s: System, at: real, es: seq<Event>)
    requires Enabled(s, ProbeDone(false, at)) && Feasible(cfg, Step(cfg, s, ProbeDone(false, at)), es)
    requires Within(es, at + cfg.cooldown) && NoProbeSuccess(es)
    ensures Feasible(cfg, s, [ProbeDone(false, at)] + es)
    ensures Admissions(cfg, s, [ProbeDone(false, at)] + es) == 0
  {
    RunCons(cfg, s, ProbeDone(false, at), es);
    OpenShields(cfg, Step(cfg, s, ProbeDone(false, at)), es);
  }

  /** So does the failure of a normal call that reaches the threshold, in whatever state it
      finds the breaker. */
  lemma ThresholdFailureShields(cfg: Config, s: System, at: real, es: seq<Event>)
    requires s.cell.failures + 1 >= cfg.threshold
    requires Enabled(s, NormalDone(false, at)) && Feasible(cfg, Step(cfg, s, NormalDone(false, at)), es)
    requires Within(es, at + cfg.cooldown) && NoProbeSuccess(es)
    ensures Feasible(cfg, s, [NormalDone(false, at)] + es)
    ensures Admissions(cfg, s, [NormalDone(false, at)] + es) == 0
  {
    RunCons(cfg, s, NormalDone(false, at), es);
    OpenShields(cfg, Step(cfg, s, NormalDone(false, at)), es);
  }

  // ----- Which failures count -----

  function NormalFailures(es: seq<Event>): nat {
    if es == [] then 0 else (if es[0].NormalDone? && !es[0].ok then 1 else 0) + NormalFailures(es[1..])
  }

  function Calls(es: seq<Event>): nat {
    if es == [] then 0 else (if es[0].Call? then 1 else 0) + Calls(es[1..])
  }

  predicate Succeeds(e: Event) {
    (e.NormalDone? || e.ProbeDone?) && e.ok
  }

  ghost predicate NoSuccess(es: seq<Event>) {
    forall i :: 0 <= i < |es| ==> !Succeeds(es[i])
  }

  lemma NoSuccessRest(es: seq<Event>)
    requires es != [] && NoSuccess(es)
    ensures NoSuccess(es[1..]) && !Succeeds(es[0])
  {
    forall i | 0 <= i < |es[1..]| ensures !Succeeds(es[1..][i]) { assert es[1..][i] == es[i + 1]; }
  }

  /** Failures add up, in any interleaving, until something succeeds. */
  lemma {:induction false} FailuresAddUp(cfg: Config, s: System, es: seq<Event>)
    requires Feasible(cfg, s, es) && NoSuccess(es)
    ensures var failures := After(cfg, s, es).cell.failures;
            failures >= cfg.threshold || failures >= s.cell.failures + NormalFailures(es)
    ensures s.cell.failures >= cfg.threshold ==> After(cfg, s, es).cell.failures >= cfg.threshold
    decreases |es|
  {
    if es != [] {
      NoSuccessRest(es);
      FailuresAddUp(cfg, Step(cfg, s, es[0]), es[1..]);
    }
  }

  /** The failure that makes `threshold` of them since the last success starts a cooldown,
      however the calls overlap. `es` is what happens up to it, `more` what happens after. */
  lemma EnoughFailuresShield(cfg: Config, s: System, es: seq<Event>, at: real, more: seq<Event>)
    requires Feasible(cfg, s, es) && NoSuccess(es) && s.cell.failures >= 0
    requires NormalFailures(es) + 1 >= cfg.threshold
    requires Enabled(After(cfg, s, es), NormalDone(false, at))
    requires Feasible(cfg, Step(cfg, After(cfg, s, es), NormalDone(false, at)), more)
    requires Within(more, at + cfg.cooldown) && NoProbeSuccess(more)
    ensures Feasible(cfg, After(cfg, s, es), [NormalDone(false, at)] + more)
    ensures Admissions(cfg, After(cfg, s, es), [NormalDone(false, at)] + more) == 0
  {
    FailuresAddUp(cfg, s, es);
    ThresholdFailureShields(cfg, After(cfg, s, es), at, more);
  }

  /** After a failed probe every further failure, of a call admitted long before, starts the
      cooldown anew, until something succeeds. */
  lemma StragglersExtend(cfg: Config, s: System, failed: real, es: seq<Event>, at: real, more: seq<Event>)
    requires Enabled(s, ProbeDone(false, failed)) && Feasible(cfg, Step(cfg, s, ProbeDone(false, failed)), es)
    requires NoSuccess(es)
    requires var s1 := After(cfg, Step(cfg, s, ProbeDone(false, failed)), es);
             Enabled(s1, NormalDone(false, at)) && Feasible(cfg, Step(cfg, s1, NormalDone(false, at)), more)
    requires Within(more, at + cfg.cooldown) && NoProbeSuccess(more)
    ensures var s1 := After(cfg, Step(cfg, s, ProbeDone(false, failed)), es);
            && Feasible(cfg, s1, [NormalDone(false, at)] + more)
            && Admissions(cfg, s1, [NormalDone(false, at)] + more) == 0
  {
    var s0 := Step(cfg, s, ProbeDone(false, failed));
    FailuresAddUp(cfg, s0, es);
    ThresholdFailureShields(cfg, After(cfg, s0, es), at, more);
  }

  /** Fewer failures than are missing to the threshold let every call through. */
  lemma {:induction false} FewFailuresPass(cfg: Config, s: System, es: seq<Event>)
    requires cfg.threshold >= 1 && Inv(cfg, s) && s.cell.state == Closed && Feasible(cfg, s, es)
    requires s.cell.failures + NormalFailures(es) < cfg.threshold
    ensures Admissions(cfg, s, es) == Calls(es) && After(cfg, s, es).cell.state == Closed
    decreases |es|
  {
    if es != [] {
      StepKeepsInv(cfg, s, es[0]);
      FewFailuresPass(cfg, Step(cfg, s, es[0]), es[1..]);
    }
  }

  /** A success on a closed breaker wipes out the failures before it: it takes `threshold` new
      ones to open. */
  lemma SuccessResets(cfg: Config, s: System, at: real, es: seq<Event>)
    requires cfg.threshold >= 1 && Reachable(cfg, s) && s.cell.state == Closed
    requires Enabled(s, NormalDone(true, at)) && Feasible(cfg, Step(cfg, s, NormalDone(true, at)), es)
    requires NormalFailures(es) < cfg.threshold
    ensures var s1 := Step(cfg, s, NormalDone(true, at));
            Admissions(cfg, s1, es) == Calls(es) && After(cfg, s1, es).cell.state == Closed
  {
    var run :| Feasible(cfg, START, run) && After(cfg, START, run) == s;
    RunKeepsInv(cfg, START, run);
    StepKeepsInv(cfg, s, NormalDone(true, at));
    FewFailuresPass(cfg, Step(cfg, s, NormalDone(true, at)), es);
  }

  // ----- Recovery, and exactly when it is lost -----

  /** Wait until `at`, make one call, let it succeed. */
  ghost predicate Recovers(cfg: Config, s: System, at: real)
    requires s.now <= at
  {
    var s1 := Step(cfg, s, Call(at));
    && s1.probes + s1.normals == 1
    && var s2 := Step(cfg, s1, if s1.probes == 1 then ProbeDone(true, at) else NormalDone(true, at));
       s2.cell.state == Closed && s2.cell.failures == 0 && s2.probes + s2.normals == 0
  }

  /** Once a probe has been cancelled no call ever reaches the function again. */
  lemma {:induction false} LostProbeIsFinal(cfg: Config, s: System, es: seq<Event>)
    requires cfg.threshold >= 1 && Inv(cfg, s) && s.lost > 0 && Feasible(cfg, s, es)
    ensures Admissions(cfg, s, es) == 0
    ensures After(cfg, s, es).lost > 0 && After(cfg, s, es).cell.state != Closed
    decreases |es|
  {
    if es != [] {
      StepKeepsInv(cfg, s, es[0]);
      LostProbeIsFinal(cfg, Step(cfg, s, es[0]), es[1..]);
    }
  }

  /** From a reachable state with nothing in flight, waiting out the cooldown and one
      successful call closes the breaker with no failures, exactly when no probe was
      ever cancelled. If one was, no continuation of the run admits a call. */
  lemma RecoveryIsExact(cfg: Config, s: System, at: real)
    requires cfg.threshold >= 1 && Reachable(cfg, s) && s.probes == 0 && s.normals == 0
    requires s.now <= at && at - s.cell.openedAt >= cfg.cooldown
    ensures Recovers(cfg, s, at) <==> s.lost == 0
    ensures s.lost > 0 ==> forall es :: Feasible(cfg, s, es) ==> Admissions(cfg, s, es) == 0
  {
    var es :| Feasible(cfg, START, es) && After(cfg, START, es) == s;
    RunKeepsInv(cfg, START, es);
    if s.lost > 0 {
      forall more | Feasible(cfg, s, more) ensures Admissions(cfg, s, more) == 0 {
        LostProbeIsFinal(cfg, s, more);
      }
    }
  }

  /** The boundary is met: with a threshold of one, a failure, a wait and a cancelled
      probe lead to a breaker that is shut for ever. */
  lemma CancelledProbeHappens(cooldown: real)
    requires cooldown >= 0.0
    ensures exists s :: Reachable(Config(1, cooldown), s) && s.lost == 1 && s.probes + s.normals == 0
  {
    var cfg := Config(1, cooldown);
    assert Feasible(cfg, START, []) && After(cfg, START, []) == START;
    var s1 := ReachableStep(cfg, START, Call(0.0));
    var s2 := ReachableStep(cfg, s1, NormalDone(false, 0.0));
    var s3 := ReachableStep(cfg, s2, Call(cooldown));
    var s4 := ReachableStep(cfg, s3, ProbeCancelled);
  }
}
