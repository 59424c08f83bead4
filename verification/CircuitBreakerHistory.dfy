/**
  The circuit breaker read off its history: which events change the mode, told by the failures
  since the last success, the time of the last failure and the successes of the current
  half-open period, without any counter.
 */
module CircuitBreakerHistory {
  import opened Options
  import opened CircuitBreaker
  import opened CircuitBreakerRuns

  /** Failures recorded since the last success. */
  function Streak(es: seq<Event>): nat {
    if es == [] || es[|es| - 1].Success? then 0
    else Streak(es[..|es| - 1]) + if es[|es| - 1].Failure? then 1 else 0
  }

  predicate TimedOut(cfg: Config, es: seq<Event>, now: nat) {
    LastFailure(es).Some? && now >= LastFailure(es).value + cfg.recoveryTimeout
  }

  /** The mode after `es`. */
  function ModeOf(cfg: Config, es: seq<Event>): Mode
    decreases |es|, 1
  {
    if es == [] then Closed
    else
      var init, e := es[..|es| - 1], es[|es| - 1];
      match ModeOf(cfg, init)
      case Closed =>
        if e.Failure? && Streak(init) + 1 >= Max(cfg.failureThreshold as int, 1) then Open else Closed
      case Open =>
        if (e.Allow? || e.Observe?) && TimedOut(cfg, init, e.now) then HalfOpen else Open
      case HalfOpen =>
        if e.Failure? then Open
        else if e.Success? && PeriodSuccesses(cfg, init) + 1 >= Max(cfg.successThreshold as int, 1) then Closed
        else HalfOpen
  }

  /** Successes recorded since the breaker became half-open. */
  function PeriodSuccesses(cfg: Config, es: seq<Event>): nat
    decreases |es|, 0
  {
    if es == [] || !ModeOf(cfg, es[..|es| - 1]).HalfOpen? then 0
    else PeriodSuccesses(cfg, es[..|es| - 1]) + if es[|es| - 1].Success? then 1 else 0
  }

  ghost predicate Agrees(cfg: Config, es: seq<Event>) {
    var b := Run(cfg, es);
    && b.mode == ModeOf(cfg, es)
    && (b.mode.Closed? ==> b.failures == Streak(es))
    && (b.mode.HalfOpen? ==> b.successes == PeriodSuccesses(cfg, es))
    && b.lastFailure == LastFailure(es)
    && (b.mode.Open? ==> b.lastFailure.Some?)
  }

  /** One more event; only an instant timeout asks anything of the clock. */
  lemma {:induction false} StepAgrees(cfg: Config, init: seq<Event>, e: Event)
    requires Agrees(cfg, init) && (cfg.recoveryTimeout > 0 || ClockBehind(init, e.now))
    ensures Agrees(cfg, init + [e])
  {
    var es := init + [e];
    assert es[..|es| - 1] == init;
  }

  /** The last failure is not later than `now`. */
  predicate ClockBehind(es: seq<Event>, now: nat) {
    LastFailure(es).Some? ==> LastFailure(es).value <= now
  }

  /** The mode of a breaker is the one its history gives, for every run whose clock does not run backwards. */
  lemma {:induction false} HistoryDecides(cfg: Config, es: seq<Event>)
    requires Chronological(es)
    ensures Agrees(cfg, es)
  {
    if es != [] {
      var init, e := es[..|es| - 1], es[|es| - 1];
      HistoryDecides(cfg, init);
      assert forall x | x in init :: x.now <= e.now;
      LastFailureInPast(init, e.now);
      StepAgrees(cfg, init, e);
      assert init + [e] == es;
    }
  }

  /** A call is let through exactly when closed, when the timeout has passed, or while a probe slot is free. */
  lemma {:induction false} AdmittedExactly(cfg: Config, es: seq<Event>, now: nat)
    requires Chronological(es + [Allow(now)])
    ensures Admits(cfg, Run(cfg, es), now) <==>
            match ModeOf(cfg, es)
            case Closed => true
            case Open => TimedOut(cfg, es, now) && cfg.successThreshold >= 1
            case HalfOpen => Run(cfg, es).inFlight < cfg.successThreshold as nat
  {
    var all := es + [Allow(now)];
    forall i, j | 0 <= i < j < |es| ensures es[i].now <= es[j].now {
      assert all[i] == es[i] && all[j] == es[j];
    }
    forall x | x in es ensures x.now <= now {
      var i :| 0 <= i < |es| && es[i] == x;
      assert all[i] == x && all[|es|] == Allow(now);
    }
    LastFailureInPast(es, now);
    HistoryDecides(cfg, es);
  }

  /** A half-open period closes exactly at its T-th success, and then the failures count from zero. */
  lemma {:induction false} ClosesAtThreshold(cfg: Config, es: seq<Event>, t: nat)
    requires Run(cfg, es).mode.HalfOpen?
    ensures PeriodStart(cfg, es) <= |es|
    ensures var b := Run(cfg, es + [Success(t)]);
            && (b.mode.Closed? <==> Successes(es[PeriodStart(cfg, es)..]) + 1 >= Max(cfg.successThreshold as int, 1))
            && (b.mode.Closed? ==> b.failures == 0)
            && (!b.mode.Closed? ==> b.mode.HalfOpen?)
  {
    HalfOpenPeriod(cfg, es);
    Snoc(cfg, Fresh, es, Success(t));
  }
}
