/** The cooldown of the spend breaker, over every interleaving of chats
    (packages/llm-client/llm_client/cost_meter.py:103-151). */
module SpendCooldown {
  import opened Basics
  import opened CostMeter

  /** The event lets a chat past the state of the breaker, to the sums. */
  ghost predicate GetsIn(s: System, s': System, e: Event) {
    || (e.Enter? && At(s'.chats, Asking) == At(s.chats, Asking) + 1)
    || (e.EnterFallback? && At(s'.chats, AskingAgain) == At(s.chats, AskingAgain) + 1)
  }

  /** How many chats of a run get that far. */
  ghost function Entrances(cfg: Config, permits: nat, s: System, es: seq<Event>): nat
    requires Feasible(cfg, permits, s, es)
    decreases |es|
  {
    if es == [] then 0 else
      var s' := Step(cfg, permits, s, es[0]);
      (if GetsIn(s, s', es[0]) then 1 else 0) + Entrances(cfg, permits, s', es[1..])
  }

  /** The time at which a chat asks to be let in. */
  predicate AsksBefore(e: Event, deadline: real) {
    match e
    case Enter(at) => at < deadline
    case EnterFallback(at) => at < deadline
    case _ => true
  }

  ghost predicate AllAskBefore(es: seq<Event>, deadline: real) {
    forall i :: 0 <= i < |es| ==> AsksBefore(es[i], deadline) && es[i] != Reset
  }

  lemma RestAsksBefore(es: seq<Event>, deadline: real, later: real)
    requires es != [] && AllAskBefore(es, deadline) && deadline <= later
    ensures AsksBefore(es[0], deadline) && es[0] != Reset && AllAskBefore(es[1..], later)
  {
    forall i | 0 <= i < |es[1..]| ensures AsksBefore(es[1..][i], later) && es[1..][i] != Reset {
      assert es[1..][i] == es[i + 1];
    }
  }

  /** A chat gets in exactly when the breaker is not open, or its cooldown is over. */
  lemma EntranceIsExact(cfg: Config, permits: nat, s: System, e: Event)
    requires Enabled(permits, s, e) && (e.Enter? || e.EnterFallback?)
    ensures GetsIn(s, Step(cfg, permits, s, e), e) <==>
            s.meter.state != Open || s.meter.openedAt + cfg.cooldown <= e.at
  {}

  /** The breaker has been open since `since` or later, and the clock is past that. */
  predicate OpenSince(s: System, since: real) {
    s.meter.state == Open && since <= s.meter.openedAt && since <= s.now
  }

  lemma StaysOpen(cfg: Config, permits: nat, s: System, e: Event, since: real)
    requires Enabled(permits, s, e) && OpenSince(s, since) && AsksBefore(e, since + cfg.cooldown) && e != Reset
    ensures OpenSince(Step(cfg, permits, s, e), since) && !GetsIn(s, Step(cfg, permits, s, e), e)
  {}

  lemma {:induction false} OpenKeepsOut(cfg: Config, permits: nat, s: System, es: seq<Event>, since: real)
    requires Feasible(cfg, permits, s, es) && OpenSince(s, since) && AllAskBefore(es, since + cfg.cooldown)
    ensures Entrances(cfg, permits, s, es) == 0
    decreases |es|
  {
    if es != [] {
      RestAsksBefore(es, since + cfg.cooldown, since + cfg.cooldown);
      StaysOpen(cfg, permits, s, es[0], since);
      OpenKeepsOut(cfg, permits, Step(cfg, permits, s, es[0]), es[1..], since);
    }
  }

  /** When a chat opens the breaker at `at`, no chat gets in before `at` plus the cooldown, by
      either gate and whatever other chats do, unless the breaker is reset. */
  lemma RefusalShutsTheGates(cfg: Config, permits: nat, s: System, refusal: Event, es: seq<Event>)
    requires refusal.Refuse? || refusal.RefuseFallback?
    requires Enabled(permits, s, refusal) && Feasible(cfg, permits, Step(cfg, permits, s, refusal), es)
    requires AllAskBefore(es, refusal.at + cfg.cooldown)
    ensures Entrances(cfg, permits, Step(cfg, permits, s, refusal), es) == 0
  {
    OpenKeepsOut(cfg, permits, Step(cfg, permits, s, refusal), es, refusal.at);
  }

  /** Nobody opens the breaker again. */
  ghost predicate NoRefusal(es: seq<Event>) {
    forall i :: 0 <= i < |es| ==> !es[i].Refuse? && !es[i].RefuseFallback?
  }

  lemma {:induction false} OpenedAtStays(cfg: Config, permits: nat, s: System, es: seq<Event>)
    requires Feasible(cfg, permits, s, es) && NoRefusal(es)
    ensures var m := After(cfg, permits, s, es).meter;
            m.state == Open ==> s.meter.state == Open && m.openedAt == s.meter.openedAt
    decreases |es|
  {
    if es != [] {
      assert !es[0].Refuse? && !es[0].RefuseFallback?;
      forall i | 0 <= i < |es[1..]| ensures !es[1..][i].Refuse? && !es[1..][i].RefuseFallback? {
        assert es[1..][i] == es[i + 1];
      }
      OpenedAtStays(cfg, permits, Step(cfg, permits, s, es[0]), es[1..]);
    }
  }

  /** The cooldown ends: a chat that asks `cooldown` after the last refusal, or later, is let in
      to the sums. */
  lemma CooldownEnds(cfg: Config, permits: nat, s: System, refusal: Event, es: seq<Event>, e: Event)
    requires refusal.Refuse? || refusal.RefuseFallback?
    requires Enabled(permits, s, refusal) && Feasible(cfg, permits, Step(cfg, permits, s, refusal), es)
    requires NoRefusal(es) && (e.Enter? || e.EnterFallback?)
    requires Enabled(permits, After(cfg, permits, Step(cfg, permits, s, refusal), es), e)
    requires refusal.at + cfg.cooldown <= e.at
    ensures var last := After(cfg, permits, Step(cfg, permits, s, refusal), es);
            GetsIn(last, Step(cfg, permits, last, e), e)
  {
    OpenedAtStays(cfg, permits, Step(cfg, permits, s, refusal), es);
    EntranceIsExact(cfg, permits, After(cfg, permits, Step(cfg, permits, s, refusal), es), e);
  }

  /** A reset ends the cooldown at once. */
  lemma ResetLetsIn(cfg: Config, permits: nat, s: System, es: seq<Event>, e: Event)
    requires Feasible(cfg, permits, Step(cfg, permits, s, Reset), es) && NoRefusal(es)
    requires e.Enter? || e.EnterFallback?
    requires Enabled(permits, After(cfg, permits, Step(cfg, permits, s, Reset), es), e)
    ensures var last := After(cfg, permits, Step(cfg, permits, s, Reset), es);
            GetsIn(last, Step(cfg, permits, last, e), e)
  {
    FreshBreakerLetsIn(cfg, permits, Step(cfg, permits, s, Reset), es, e);
  }

  /** A breaker nobody has opened lets every chat in. */
  lemma FreshBreakerLetsIn(cfg: Config, permits: nat, s: System, es: seq<Event>, e: Event)
    requires s.meter.state != Open && Feasible(cfg, permits, s, es) && NoRefusal(es)
    requires (e.Enter? || e.EnterFallback?) && Enabled(permits, After(cfg, permits, s, es), e)
    ensures GetsIn(After(cfg, permits, s, es), Step(cfg, permits, After(cfg, permits, s, es), e), e)
  {
    OpenedAtStays(cfg, permits, s, es);
    EntranceIsExact(cfg, permits, After(cfg, permits, s, es), e);
  }
}
