/**
  The circuit breaker over whole runs: any sequence of admitted and rejected calls,
  recorded outcomes and state queries.  Outcomes need not belong to the current
  half-open period; a slow call may report in a later one.
 */
module CircuitBreakerRuns {
  import opened Options
  import opened CircuitBreaker

  /** The state after `es`, starting from `b`. */
  function After(cfg: Config, b: Breaker, es: seq<Event>): Breaker {
    if es == [] then b
    else Step(cfg, After(cfg, b, es[..|es| - 1]), es[|es| - 1])
  }

  function Run(cfg: Config, es: seq<Event>): Breaker {
    After(cfg, Fresh, es)
  }

  function Successes(es: seq<Event>): nat {
    if es == [] then 0 else Successes(es[..|es| - 1]) + if es[|es| - 1].Success? then 1 else 0
  }

  function Failures(es: seq<Event>): nat {
    if es == [] then 0 else Failures(es[..|es| - 1]) + if es[|es| - 1].Failure? then 1 else 0
  }

  /** How many calls are let through while `es` runs from `b`. */
  function Admissions(cfg: Config, b: Breaker, es: seq<Event>): nat {
    if es == [] then 0
    else
      var last := es[|es| - 1];
      Admissions(cfg, b, es[..|es| - 1]) +
      if last.Allow? && Admits(cfg, After(cfg, b, es[..|es| - 1]), last.now) then 1 else 0
  }

  /** Half-open after every event: `es` lies inside one half-open period. */
  ghost predicate StaysHalfOpen(cfg: Config, b: Breaker, es: seq<Event>) {
    forall k | 0 < k <= |es| :: After(cfg, b, es[..k]).mode.HalfOpen?
  }

  lemma {:induction false} AfterSound(cfg: Config, b: Breaker, es: seq<Event>)
    requires Sound(cfg, b)
    ensures Sound(cfg, After(cfg, b, es))
  {
    if es != [] {
      AfterSound(cfg, b, es[..|es| - 1]);
      StepKeepsSound(cfg, After(cfg, b, es[..|es| - 1]), es[|es| - 1]);
    }
  }

  lemma {:induction false} StaysPrefix(cfg: Config, b: Breaker, es: seq<Event>)
    requires StaysHalfOpen(cfg, b, es) && es != []
    ensures StaysHalfOpen(cfg, b, es[..|es| - 1])
    ensures After(cfg, b, es).mode.HalfOpen?
    ensures |es| > 1 ==> After(cfg, b, es[..|es| - 1]).mode.HalfOpen?
  {
    var init := es[..|es| - 1];
    assert es[..|es|] == es;
    forall k | 0 < k <= |init| ensures After(cfg, b, init[..k]).mode.HalfOpen? {
      assert init[..k] == es[..k];
    }
    assert init[..|init|] == init;
  }

  // ----- probes -----

  /** Never more than `success_threshold` probes are in flight, in any state of any run. */
  lemma {:induction false} ProbesBounded(cfg: Config, es: seq<Event>)
    ensures Run(cfg, es).inFlight <= cfg.successThreshold as nat
  {
    AfterSound(cfg, Fresh, es);
  }

  lemma {:induction false} AdmissionsCounted(cfg: Config, b: Breaker, es: seq<Event>)
    requires StaysHalfOpen(cfg, b, es) && es != []
    ensures var b' := After(cfg, b, es); Admissions(cfg, b, es) <= b'.inFlight + b'.successes
  {
    StaysPrefix(cfg, b, es);
    if |es| > 1 {
      AdmissionsCounted(cfg, b, es[..|es| - 1]);
    } else {
      assert After(cfg, b, []) == b;
    }
  }

  /** One half-open period lets through at most 2T - 1 calls, whatever outcomes are recorded in it. */
  lemma {:induction false} HalfOpenAdmissions(cfg: Config, before: seq<Event>, es: seq<Event>)
    requires cfg.successThreshold >= 1
    requires StaysHalfOpen(cfg, Run(cfg, before), es)
    ensures Admissions(cfg, Run(cfg, before), es) <= 2 * cfg.successThreshold as nat - 1
  {
    if es != [] {
      var b := Run(cfg, before);
      AfterSound(cfg, Fresh, before);
      AfterSound(cfg, b, es);
      AdmissionsCounted(cfg, b, es);
    }
  }

  /** At no point have more outcomes been recorded than calls admitted. */
  ghost predicate OutcomesOwed(cfg: Config, b: Breaker, es: seq<Event>) {
    forall k | 0 <= k <= |es| :: Successes(es[..k]) <= Admissions(cfg, b, es[..k])
  }

  lemma {:induction false} OutcomesOwedPrefix(cfg: Config, b: Breaker, es: seq<Event>)
    requires es != []
    ensures OutcomesOwed(cfg, b, es) <==>
              OutcomesOwed(cfg, b, es[..|es| - 1]) && Successes(es) <= Admissions(cfg, b, es)
  {
    var init := es[..|es| - 1];
    assert es[..|es|] == es;
    forall k | 0 <= k <= |init| ensures init[..k] == es[..k] {
    }
  }

  /**
    In a half-open period entered during `es`, the in-flight counter is the number of
    unresolved probes exactly when no outcome was recorded beyond the calls admitted;
    otherwise it is larger.
   */
  lemma {:induction false} InFlightIsUnresolved(cfg: Config, b: Breaker, es: seq<Event>)
    requires !b.mode.HalfOpen? && es != [] && StaysHalfOpen(cfg, b, es)
    ensures After(cfg, b, es).inFlight >= Admissions(cfg, b, es) - Successes(es)
    ensures After(cfg, b, es).inFlight == Admissions(cfg, b, es) - Successes(es) <==> OutcomesOwed(cfg, b, es)
  {
    var init := es[..|es| - 1];
    StaysPrefix(cfg, b, es);
    OutcomesOwedPrefix(cfg, b, es);
    if |es| > 1 {
      InFlightIsUnresolved(cfg, b, init);
    } else {
      assert init == [];
      assert After(cfg, b, []) == b;
      assert OutcomesOwed(cfg, b, init) by {
        assert init[..0] == [];
      }
    }
  }

  // ----- the bound 2T - 1 is reached -----

  function Repeat(e: Event, n: nat): seq<Event> {
    if n == 0 then [] else Repeat(e, n - 1) + [e]
  }

  /** A success immediately followed by a new call, `n` times. */
  function Refill(now: nat, n: nat): seq<Event> {
    if n == 0 then [] else Refill(now, n - 1) + [Success(now), Allow(now)]
  }

  lemma {:induction false} FailuresOpen(cfg: Config, n: nat)
    requires 1 <= n <= Max(cfg.failureThreshold as int, 1)
    ensures Run(cfg, Repeat(Failure(0), n)) ==
            Breaker(if n >= cfg.failureThreshold as int then Open else Closed, n, 0, Some(0), 0)
  {
    var es := Repeat(Failure(0), n);
    assert es[..|es| - 1] == Repeat(Failure(0), n - 1);
    if n == 1 {
      assert Run(cfg, []) == Fresh;
    } else {
      FailuresOpen(cfg, n - 1);
    }
  }

  ghost predicate Entering(b: Breaker) {
    b.mode.Open? && b.lastFailure == Some(0)
  }

  lemma {:induction false} Snoc(cfg: Config, b: Breaker, es: seq<Event>, e: Event)
    ensures var b' := After(cfg, b, es);
            && After(cfg, b, es + [e]) == Step(cfg, b', e)
            && Admissions(cfg, b, es + [e]) ==
                 Admissions(cfg, b, es) + (if e.Allow? && Admits(cfg, b', e.now) then 1 else 0)
  {
    assert (es + [e])[..|es|] == es;
  }

  lemma {:induction false} SnocStays(cfg: Config, b: Breaker, es: seq<Event>, e: Event)
    requires StaysHalfOpen(cfg, b, es) && Step(cfg, After(cfg, b, es), e).mode.HalfOpen?
    ensures StaysHalfOpen(cfg, b, es + [e])
  {
    var all := es + [e];
    Snoc(cfg, b, es, e);
    forall k | 0 < k <= |all| ensures After(cfg, b, all[..k]).mode.HalfOpen? {
      if k <= |es| {
        assert all[..k] == es[..k];
      } else {
        assert all[..k] == all;
      }
    }
  }

  lemma {:induction false} SnocOwed(cfg: Config, b: Breaker, es: seq<Event>, e: Event)
    requires OutcomesOwed(cfg, b, es) && (e.Success? ==> Successes(es) < Admissions(cfg, b, es))
    ensures OutcomesOwed(cfg, b, es + [e])
    ensures Successes(es + [e]) == Successes(es) + if e.Success? then 1 else 0
  {
    var all := es + [e];
    assert all[..|all| - 1] == es;
    assert es[..|es|] == es;
    Snoc(cfg, b, es, e);
    OutcomesOwedPrefix(cfg, b, all);
  }

  /** The state after `n` probes of a period that began at `b`. */
  function Burst(b: Breaker, n: nat): Breaker {
    if n == 0 then b else b.(mode := HalfOpen, successes := 0, inFlight := n)
  }

  lemma {:induction false} BurstStep(cfg: Config, b: Breaker, n: nat)
    requires Entering(b) && n < cfg.successThreshold as nat
    ensures var e := Allow(cfg.recoveryTimeout);
            Admits(cfg, Burst(b, n), e.now) && Step(cfg, Burst(b, n), e) == Burst(b, n + 1)
  {
  }

  ghost predicate BurstDone(cfg: Config, b: Breaker, n: nat, es: seq<Event>) {
    && After(cfg, b, es) == Burst(b, n) && Admissions(cfg, b, es) == n && StaysHalfOpen(cfg, b, es)
    && Successes(es) == 0 && OutcomesOwed(cfg, b, es)
  }

  lemma {:induction false} BurstMore(cfg: Config, b: Breaker, n: nat, es: seq<Event>)
    requires Entering(b) && n < cfg.successThreshold as nat && BurstDone(cfg, b, n, es)
    ensures BurstDone(cfg, b, n + 1, es + [Allow(cfg.recoveryTimeout)])
  {
    BurstStep(cfg, b, n);
    Snoc(cfg, b, es, Allow(cfg.recoveryTimeout));
    SnocStays(cfg, b, es, Allow(cfg.recoveryTimeout));
    SnocOwed(cfg, b, es, Allow(cfg.recoveryTimeout));
  }

  lemma {:induction false} BurstAdmitted(cfg: Config, b: Breaker, n: nat)
    requires Entering(b) && n <= cfg.successThreshold as nat
    ensures BurstDone(cfg, b, n, Repeat(Allow(cfg.recoveryTimeout), n))
  {
    if n > 0 {
      BurstAdmitted(cfg, b, n - 1);
      BurstMore(cfg, b, n - 1, Repeat(Allow(cfg.recoveryTimeout), n - 1));
    }
  }

  /** All `T` probes in flight after `n` successes and `T + n` admissions. */
  ghost predicate RefillDone(cfg: Config, b: Breaker, n: nat, es: seq<Event>) {
    var T := cfg.successThreshold as nat;
    && After(cfg, b, es) == b.(mode := HalfOpen, successes := n, inFlight := T)
    && Admissions(cfg, b, es) == T + n
    && StaysHalfOpen(cfg, b, es)
    && Successes(es) == n && OutcomesOwed(cfg, b, es)
  }

  lemma {:induction false} RefillMore(cfg: Config, b: Breaker, n: nat, es: seq<Event>, now: nat)
    requires n + 1 < cfg.successThreshold as nat && RefillDone(cfg, b, n, es)
    ensures RefillDone(cfg, b, n + 1, es + [Success(now)] + [Allow(now)])
  {
    Snoc(cfg, b, es, Success(now));
    SnocStays(cfg, b, es, Success(now));
    SnocOwed(cfg, b, es, Success(now));
    Snoc(cfg, b, es + [Success(now)], Allow(now));
    SnocStays(cfg, b, es + [Success(now)], Allow(now));
    SnocOwed(cfg, b, es + [Success(now)], Allow(now));
  }

  lemma {:induction false} RefillAdmitted(cfg: Config, b: Breaker, n: nat)
    requires Entering(b) && n < cfg.successThreshold as nat
    ensures RefillDone(cfg, b, n, Repeat(Allow(cfg.recoveryTimeout), cfg.successThreshold as nat) + Refill(cfg.recoveryTimeout, n))
  {
    var T, now := cfg.successThreshold as nat, cfg.recoveryTimeout;
    if n == 0 {
      assert Repeat(Allow(now), T) + Refill(now, 0) == Repeat(Allow(now), T);
      BurstAdmitted(cfg, b, T);
    } else {
      var base := Repeat(Allow(now), T) + Refill(now, n - 1);
      RefillAdmitted(cfg, b, n - 1);
      RefillMore(cfg, b, n - 1, base, now);
      assert Repeat(Allow(now), T) + Refill(now, n) == base + [Success(now)] + [Allow(now)];
    }
  }

  /** The clock never runs backwards. */
  predicate Chronological(es: seq<Event>) {
    forall i, j | 0 <= i < j < |es| :: es[i].now <= es[j].now
  }

  predicate AllAt(es: seq<Event>, now: nat) {
    forall i | 0 <= i < |es| :: es[i].now == now
  }

  lemma {:induction false} RepeatAt(e: Event, n: nat)
    ensures AllAt(Repeat(e, n), e.now)
  {
    if n > 0 {
      RepeatAt(e, n - 1);
    }
  }

  lemma {:induction false} RefillAt(now: nat, n: nat)
    ensures AllAt(Refill(now, n), now)
  {
    if n > 0 {
      RefillAt(now, n - 1);
    }
  }

  lemma {:induction false} TwoMoments(a: seq<Event>, b: seq<Event>, s: nat, t: nat)
    requires AllAt(a, s) && AllAt(b, t) && s <= t
    ensures Chronological(a + b)
  {
  }

  lemma {:induction false} WitnessClock(failures: nat, calls: nat, refills: nat, now: nat)
    ensures Chronological(Repeat(Failure(0), failures) + (Repeat(Allow(now), calls) + Refill(now, refills)))
  {
    RepeatAt(Failure(0), failures);
    RepeatAt(Allow(now), calls);
    RefillAt(now, refills);
    TwoMoments(Repeat(Failure(0), failures), Repeat(Allow(now), calls) + Refill(now, refills), 0, now);
  }

  /**
    For every configuration the bound is the best possible: a run with a forward clock, in
    whose last period every outcome belongs to a call admitted in it, reaches it.
   */
  lemma {:induction false} BoundIsReached(cfg: Config) returns (before: seq<Event>, es: seq<Event>)
    requires cfg.successThreshold >= 1
    ensures StaysHalfOpen(cfg, Run(cfg, before), es)
    ensures Admissions(cfg, Run(cfg, before), es) == 2 * cfg.successThreshold as nat - 1
    ensures Chronological(before + es) && OutcomesOwed(cfg, Run(cfg, before), es)
  {
    var T, now := cfg.successThreshold as nat, cfg.recoveryTimeout;
    var F := Max(cfg.failureThreshold as int, 1);
    before := Repeat(Failure(0), F);
    es := Repeat(Allow(now), T) + Refill(now, T - 1);
    FailuresOpen(cfg, F);
    RefillAdmitted(cfg, Run(cfg, before), T - 1);
    WitnessClock(F, T, T - 1, now);
  }

  /** Half-open lets a single request through per period exactly for a success threshold of at most one. */
  lemma {:induction false} SingleProbeExactly(cfg: Config)
    ensures (forall before: seq<Event>, es: seq<Event> | StaysHalfOpen(cfg, Run(cfg, before), es) ::
               Admissions(cfg, Run(cfg, before), es) <= 1)
            <==> cfg.successThreshold <= 1
  {
    if cfg.successThreshold <= 1 {
      forall before: seq<Event>, es: seq<Event> | StaysHalfOpen(cfg, Run(cfg, before), es)
        ensures Admissions(cfg, Run(cfg, before), es) <= 1
      {
        if es != [] {
          AfterSound(cfg, Fresh, before);
          AfterSound(cfg, Run(cfg, before), es);
          AdmissionsCounted(cfg, Run(cfg, before), es);
        }
      }
    } else {
      var before, es := BoundIsReached(cfg);
    }
  }

  // ----- opening -----

  /**
    Counting from a fresh breaker or from any success that leaves it closed, the breaker
    is closed exactly while fewer than `failure_threshold` failures have been recorded
    (a threshold of zero acts as one).
   */
  lemma {:induction false} OpensAtThreshold(cfg: Config, before: seq<Event>, es: seq<Event>)
    requires before == [] || before[|before| - 1].Success?
    requires Run(cfg, before).mode.Closed?
    requires Successes(es) == 0
    ensures Run(cfg, before + es).mode.Closed? <==> Failures(es) < Max(cfg.failureThreshold as int, 1)
    ensures Run(cfg, before + es).mode.Closed? ==> Run(cfg, before + es).failures == Failures(es)
    decreases |es|
  {
    if es == [] {
      assert before + es == before;
    } else {
      var init := es[..|es| - 1];
      OpensAtThreshold(cfg, before, init);
      assert (before + es)[..|before + es| - 1] == before + init;
    }
  }

  /** The time of the latest failure recorded in `es`. */
  function LastFailure(es: seq<Event>): Option<nat> {
    if es == [] then None
    else if es[|es| - 1].Failure? then Some(es[|es| - 1].now)
    else LastFailure(es[..|es| - 1])
  }

  lemma {:induction false} LastFailureRecorded(cfg: Config, es: seq<Event>)
    ensures Run(cfg, es).lastFailure == LastFailure(es)
  {
    if es != [] {
      LastFailureRecorded(cfg, es[..|es| - 1]);
    }
  }

  /** An open breaker lets a call through exactly when the timeout has passed since the last failure. */
  lemma {:induction false} OpenAdmits(cfg: Config, es: seq<Event>, now: nat)
    requires cfg.successThreshold >= 1
    requires Run(cfg, es).mode.Open?
    ensures LastFailure(es).Some?
    ensures Admits(cfg, Run(cfg, es), now) <==> Elapsed(now, LastFailure(es).value) >= cfg.recoveryTimeout
  {
    LastFailureRecorded(cfg, es);
    AfterSound(cfg, Fresh, es);
  }

  /** After a failure that leaves the breaker open nothing is admitted before the timeout has passed. */
  lemma {:induction false} OpenRejects(cfg: Config, before: seq<Event>, t: nat, es: seq<Event>)
    requires Run(cfg, before + [Failure(t)]).mode.Open?
    requires forall e | e in es :: t <= e.now < t + cfg.recoveryTimeout
    ensures var b := Run(cfg, before + [Failure(t)]);
            && Admissions(cfg, b, es) == 0
            && After(cfg, b, es).mode.Open?
            && After(cfg, b, es).lastFailure.Some? && t <= After(cfg, b, es).lastFailure.value
  {
    var b := Run(cfg, before + [Failure(t)]);
    if es == [] {
      assert (before + [Failure(t)])[..|before|] == before;
    } else {
      OpenRejects(cfg, before, t, es[..|es| - 1]);
      assert es[|es| - 1] in es;
    }
  }

  // ----- closing -----

  /** The length of the prefix of `es` with which the current half-open period began. */
  function PeriodStart(cfg: Config, es: seq<Event>): nat {
    if es == [] || !Run(cfg, es[..|es| - 1]).mode.HalfOpen? then |es|
    else PeriodStart(cfg, es[..|es| - 1])
  }

  lemma {:induction false} PeriodGrows(cfg: Config, init: seq<Event>, es: seq<Event>, a: nat)
    requires |es| == |init| + 1 && init == es[..|init|] && Run(cfg, es).mode.HalfOpen?
    requires forall k | a <= k <= |init| :: Run(cfg, init[..k]).mode.HalfOpen?
    ensures forall k | a <= k <= |es| :: Run(cfg, es[..k]).mode.HalfOpen?
  {
    forall k | a <= k <= |es| ensures Run(cfg, es[..k]).mode.HalfOpen? {
      if k < |es| {
        assert es[..k] == init[..k];
      } else {
        assert es[..k] == es;
      }
    }
  }

  lemma {:induction false} HalfOpenPeriod(cfg: Config, es: seq<Event>)
    requires Run(cfg, es).mode.HalfOpen?
    ensures var a := PeriodStart(cfg, es);
            && 0 < a <= |es|
            && Run(cfg, es[..a - 1]).mode.Open?
            && (forall k | a <= k <= |es| :: Run(cfg, es[..k]).mode.HalfOpen?)
            && Failures(es[a..]) == 0
            && Successes(es[a..]) == Run(cfg, es).successes
  {
    assert es != [];
    var init := es[..|es| - 1];
    var a := PeriodStart(cfg, es);
    assert es[..|es|] == es;
    if Run(cfg, init).mode.HalfOpen? {
      HalfOpenPeriod(cfg, init);
      assert es[a..][..|es[a..]| - 1] == init[a..];
      assert es[..a - 1] == init[..a - 1];
      PeriodGrows(cfg, init, es, a);
    } else {
      assert es[a..] == [];
    }
  }

  /**
    A breaker that is open at one moment and closed at a later one has in between been
    through one half-open period, entered from open, in which `success_threshold`
    successes (at least one) and no failure were recorded.
   */
  lemma {:induction false} ClosingNeedsSuccesses(cfg: Config, es: seq<Event>, p: nat) returns (a: nat, z: nat)
    requires p <= |es| && Run(cfg, es[..p]).mode.Open? && Run(cfg, es).mode.Closed?
    ensures p < a < z <= |es|
    ensures Run(cfg, es[..a - 1]).mode.Open? && Run(cfg, es[..z]).mode.Closed?
    ensures forall k | a <= k < z :: Run(cfg, es[..k]).mode.HalfOpen?
    ensures Failures(es[a..z]) == 0
    ensures Successes(es[a..z]) == Max(cfg.successThreshold as int, 1)
  {
    assert es[..|es|] == es;
    var init := es[..|es| - 1];
    assert init[..p] == es[..p];
    if Run(cfg, init).mode.Closed? {
      a, z := ClosingNeedsSuccesses(cfg, init, p);
      assert es[..a - 1] == init[..a - 1] && es[..z] == init[..z] && es[a..z] == init[a..z];
      forall k | a <= k < z ensures Run(cfg, es[..k]).mode.HalfOpen? {
        assert es[..k] == init[..k];
      }
    } else {
      assert Run(cfg, init).mode.HalfOpen? && es[|es| - 1].Success?;
      AfterSound(cfg, Fresh, init);
      HalfOpenPeriod(cfg, init);
      a, z := PeriodStart(cfg, init), |es|;
      assert es[a..z][..|es[a..z]| - 1] == init[a..];
      assert es[..a - 1] == init[..a - 1];
      forall k | a <= k < z ensures Run(cfg, es[..k]).mode.HalfOpen? {
        assert es[..k] == init[..k];
      }
    }
  }

  // ----- the promised waiting time -----

  lemma {:induction false} LastFailureInPast(es: seq<Event>, now: nat)
    requires forall e | e in es :: e.now <= now
    ensures LastFailure(es).Some? ==> LastFailure(es).value <= now
  {
    if es != [] {
      assert es[|es| - 1] in es;
      LastFailureInPast(es[..|es| - 1], now);
    }
  }

  /** The waiting time reported now is exact: the next call is admitted once it has passed and not before. */
  lemma {:induction false} WaitIsExact(cfg: Config, es: seq<Event>, now: nat, later: nat)
    requires cfg.successThreshold >= 1
    requires (forall e | e in es :: e.now <= now) && now <= later
    requires ProbeWait(cfg, Run(cfg, es), now).Some?
    ensures Admits(cfg, Run(cfg, es), later) <==> later - now >= ProbeWait(cfg, Run(cfg, es), now).value
  {
    LastFailureRecorded(cfg, es);
    LastFailureInPast(es, now);
  }
}
