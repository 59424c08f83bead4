/**
  The circuit breaker that guards calls to a provider.

  Every operation of the program holds one mutex from start to end, so it is one
  step.  The clock is an argument; `Elapsed` saturates at zero as `Instant::elapsed`
  does.  Counters are 32-bit: the class keeps them in `U32`, so the verifier proves
  that no increment overflows.
 */
module CircuitBreaker {
  import opened Options

  newtype U32 = x: int | 0 <= x < 0x1_0000_0000

  datatype Mode = Closed | Open | HalfOpen

  datatype Config = Config(failureThreshold: U32, recoveryTimeout: nat, successThreshold: U32)

  /** The guarded state, as a value. */
  datatype Breaker = Breaker(
    mode: Mode, failures: nat, successes: nat, lastFailure: Option<nat>, inFlight: nat)

  datatype Event = Allow(now: nat) | Success(now: nat) | Failure(now: nat) | Observe(now: nat)

  const Fresh := Breaker(Closed, 0, 0, None, 0)

  function Max(a: int, b: int): int { if a < b then b else a }

  function Elapsed(now: nat, since: nat): nat {
    if since <= now then now - since else 0
  }

  function MaybeHalfOpen(cfg: Config, b: Breaker, now: nat): Breaker {
    if b.mode.Open? && b.lastFailure.Some? && Elapsed(now, b.lastFailure.value) >= cfg.recoveryTimeout
    then b.(mode := HalfOpen, successes := 0, inFlight := 0)
    else b
  }

  function Admits(cfg: Config, b: Breaker, now: nat): bool {
    var b' := MaybeHalfOpen(cfg, b, now);
    b'.mode.Closed? || (b'.mode.HalfOpen? && b'.inFlight < cfg.successThreshold as nat)
  }

  function Step(cfg: Config, b: Breaker, e: Event): Breaker {
    match e
    case Allow(now) =>
      var b' := MaybeHalfOpen(cfg, b, now);
      if b'.mode.HalfOpen? && b'.inFlight < cfg.successThreshold as nat
      then b'.(inFlight := b'.inFlight + 1)
      else b'
    case Observe(now) => MaybeHalfOpen(cfg, b, now)
    case Success(_) => OnSuccess(cfg, b)
    case Failure(now) => OnFailure(cfg, b.(lastFailure := Some(now)))
  }

  function OnSuccess(cfg: Config, b: Breaker): Breaker {
    match b.mode
    case Closed => b.(failures := 0)
    case Open => b
    case HalfOpen =>
      var inFlight := if b.inFlight > 0 then b.inFlight - 1 else 0;
      if b.successes + 1 >= cfg.successThreshold as nat
      then b.(mode := Closed, failures := 0, successes := 0, inFlight := inFlight)
      else b.(successes := b.successes + 1, inFlight := inFlight)
  }

  function OnFailure(cfg: Config, b: Breaker): Breaker {
    match b.mode
    case Closed =>
      b.(failures := b.failures + 1,
         mode := if b.failures + 1 >= cfg.failureThreshold as nat then Open else Closed)
    case Open => b
    case HalfOpen => b.(mode := Open, successes := 0, inFlight := 0)
  }

  function ProbeWait(cfg: Config, b: Breaker, now: nat): Option<nat> {
    if b.mode.Open? && b.lastFailure.Some? then
      var elapsed := Elapsed(now, b.lastFailure.value);
      Some(if elapsed < cfg.recoveryTimeout then cfg.recoveryTimeout - elapsed else 0)
    else None
  }

  /** Counters stay below the threshold that would have changed the mode. */
  predicate Sound(cfg: Config, b: Breaker) {
    && b.inFlight <= cfg.successThreshold as int
    && b.failures <= Max(cfg.failureThreshold as int, 1)
    && b.successes < Max(cfg.successThreshold as int, 1)
    && (b.mode.Closed? ==> b.failures < Max(cfg.failureThreshold as int, 1))
    && (b.mode.Open? ==> b.lastFailure.Some?)
  }

  lemma {:induction false} StepKeepsSound(cfg: Config, b: Breaker, e: Event)
    requires Sound(cfg, b)
    ensures Sound(cfg, Step(cfg, b, e))
  {
  }

  class CircuitBreaker {
    const config: Config
    var mode: Mode
    var consecutiveFailures: U32
    var consecutiveSuccesses: U32
    var lastFailureTime: Option<nat>
    var inFlightProbes: U32

    ghost function View(): Breaker
      reads this
    {
      Breaker(mode, consecutiveFailures as nat, consecutiveSuccesses as nat, lastFailureTime, inFlightProbes as nat)
    }

    ghost predicate Valid()
      reads this
    {
      Sound(config, View())
    }

    constructor (config: Config)
      ensures Valid() && this.config == config
      ensures View() == Fresh
    {
      this.config := config;
      mode := Closed;
      consecutiveFailures, consecutiveSuccesses, inFlightProbes := 0, 0, 0;
      lastFailureTime := None;
    }

    method MaybeTransitionToHalfOpen(now: nat)
      requires Valid()
      modifies this`mode, this`consecutiveSuccesses, this`inFlightProbes
      ensures Valid()
      ensures View() == MaybeHalfOpen(config, old(View()), now)
    {
      if mode.Open? && lastFailureTime.Some? && Elapsed(now, lastFailureTime.value) >= config.recoveryTimeout {
        mode := HalfOpen;
        consecutiveSuccesses := 0;
        inFlightProbes := 0;
      }
    }

    method State(now: nat) returns (m: Mode)
      requires Valid()
      modifies this`mode, this`consecutiveSuccesses, this`inFlightProbes
      ensures Valid()
      ensures View() == Step(config, old(View()), Observe(now)) && m == mode
    {
      MaybeTransitionToHalfOpen(now);
      m := mode;
    }

    method TimeUntilProbe(now: nat) returns (r: Option<nat>)
      requires Valid()
      ensures r == ProbeWait(config, View(), now)
      ensures r.Some? <==> mode.Open?
      ensures r.Some? && lastFailureTime.value <= now ==>
                r.value == Max(0, lastFailureTime.value + config.recoveryTimeout - now)
    {
      if mode.Open? && lastFailureTime.Some? {
        var elapsed := Elapsed(now, lastFailureTime.value);
        if elapsed < config.recoveryTimeout {
          r := Some(config.recoveryTimeout - elapsed);
        } else {
          r := Some(0);
        }
      } else {
        r := None;
      }
    }

    method RecordSuccess()
      requires Valid()
      modifies this`mode, this`consecutiveFailures, this`consecutiveSuccesses, this`inFlightProbes
      ensures Valid()
      ensures forall now :: View() == Step(config, old(View()), Success(now))
    {
      if mode.Closed? {
        consecutiveFailures := 0;
      } else if mode.HalfOpen? {
        if inFlightProbes > 0 {
          inFlightProbes := inFlightProbes - 1;
        }
        consecutiveSuccesses := consecutiveSuccesses + 1;
        if consecutiveSuccesses >= config.successThreshold {
          mode := Closed;
          consecutiveFailures := 0;
          consecutiveSuccesses := 0;
        }
      }
    }

    method RecordFailure(now: nat)
      requires Valid()
      modifies this`mode, this`consecutiveFailures, this`consecutiveSuccesses, this`lastFailureTime, this`inFlightProbes
      ensures Valid()
      ensures View() == Step(config, old(View()), Failure(now))
    {
      lastFailureTime := Some(now);
      if mode.Closed? {
        consecutiveFailures := consecutiveFailures + 1;
        if consecutiveFailures >= config.failureThreshold {
          mode := Open;
        }
      } else if mode.HalfOpen? {
        mode := Open;
        consecutiveSuccesses := 0;
        inFlightProbes := 0;
      }
    }

    method AllowCall(now: nat) returns (allowed: bool)
      requires Valid()
      modifies this`mode, this`consecutiveSuccesses, this`inFlightProbes
      ensures Valid()
      ensures View() == Step(config, old(View()), Allow(now))
      ensures allowed == Admits(config, old(View()), now)
    {
      MaybeTransitionToHalfOpen(now);
      if mode.Closed? {
        allowed := true;
      } else if mode.HalfOpen? && inFlightProbes < config.successThreshold {
        inFlightProbes := inFlightProbes + 1;
        allowed := true;
      } else {
        allowed := false;
      }
    }
  }
}
