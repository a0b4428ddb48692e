/** The circuit breaker: three phases, a bounded outcome window and half-open probe
    counters.  Every public operation is one critical section under the breaker's lock,
    so a run is a sequence of such sections; calls admitted in one phase may complete in
    any later one. */
module CircuitBreakers {
  import opened Wrappers

  datatype Config = Config(
    failureThreshold: nat,
    recoveryTimeout: real,
    halfOpenMaxCalls: nat,
    successThreshold: nat,
    windowSize: nat,
    minimumCalls: nat,
    failureRateThreshold: Option<real>)
  {
    predicate Valid() {
      && failureThreshold >= 1 && recoveryTimeout >= 0.0
      && halfOpenMaxCalls >= 1 && successThreshold >= 1
      && windowSize >= 1 && 1 <= minimumCalls <= windowSize
      && (failureRateThreshold.Some? ==> 0.0 <= failureRateThreshold.value <= 1.0)
    }
  }

  datatype Phase = Closed | Open | HalfOpen

  datatype Breaker = Breaker(
    phase: Phase,
    window: seq<bool>,
    streak: nat,
    openedAt: Option<real>,
    inflight: nat,
    successes: nat)

  const INITIAL := Breaker(Closed, [], 0, None, 0, 0)

  // ----- The critical sections as functions ------------------------------------------

  function Opened(b: Breaker, now: real): Breaker {
    b.(phase := Open, openedAt := Some(now), inflight := 0, successes := 0)
  }

  function CountFailures(outcomes: seq<bool>): nat {
    if outcomes == [] then 0
    else CountFailures(outcomes[..|outcomes| - 1]) + if outcomes[|outcomes| - 1] then 0 else 1
  }

  predicate RateTooHigh(cfg: Config, window: seq<bool>) {
    && cfg.failureRateThreshold.Some?
    && 1 <= cfg.minimumCalls <= |window|
    && CountFailures(window) as real / |window| as real >= cfg.failureRateThreshold.value
  }

  lemma {:induction false} CountIsSize(outcomes: seq<bool>)
    ensures CountFailures(outcomes) == |set i | 0 <= i < |outcomes| && !outcomes[i]|
    decreases |outcomes|
  {
    if outcomes != [] {
      var n := |outcomes| - 1;
      CountIsSize(outcomes[..n]);
      var front := set i | 0 <= i < n && !outcomes[..n][i];
      assert (set i | 0 <= i < |outcomes| && !outcomes[i]) == front + if outcomes[n] then {} else {n};
    }
  }

  lemma QuotientAtLeast(f: real, n: real, limit: real)
    requires n > 0.0
    ensures f / n >= limit <==> f >= limit * n
  {
    var q := f / n;
    assert q * n == f;
    if q >= limit { assert (q - limit) * n >= 0.0; } else { assert (limit - q) * n > 0.0; }
  }

  /** The rate rule as a policy states it: enough outcomes in the window, and the failures among
      them at least the limit's share. */
  ghost predicate RateReached(cfg: Config, window: seq<bool>) {
    var failures := set i | 0 <= i < |window| && !window[i];
    && cfg.failureRateThreshold.Some? && |window| >= cfg.minimumCalls
    && |failures| as real >= cfg.failureRateThreshold.value * |window| as real
  }

  lemma RateRule(cfg: Config, window: seq<bool>)
    requires cfg.Valid()
    ensures RateTooHigh(cfg, window) <==> RateReached(cfg, window)
  {
    CountIsSize(window);
    if cfg.failureRateThreshold.Some? && |window| >= cfg.minimumCalls {
      QuotientAtLeast(CountFailures(window) as real, |window| as real, cfg.failureRateThreshold.value);
    }
  }

  /** `deque.append` on a deque with a maximum length drops from the other end. */
  function Push(size: nat, window: seq<bool>, outcome: bool): seq<bool>
    requires size >= 1
  {
    var longer := window + [outcome];
    if |longer| > size then longer[|longer| - size..] else longer
  }

  function Decremented(n: nat): nat { if n > 0 then n - 1 else 0 }

  function RetryAfter(cfg: Config, openedAt: real, now: real): real {
    var elapsed := if now - openedAt > 0.0 then now - openedAt else 0.0;
    if cfg.recoveryTimeout - elapsed > 0.0 then cfg.recoveryTimeout - elapsed else 0.0
  }

  /** An open circuit whose recovery time has passed turns half-open with clean counters. */
  function Recovered(cfg: Config, b: Breaker, now: real): Breaker {
    if b.phase.Open? && b.openedAt.Some? && RetryAfter(cfg, b.openedAt.value, now) <= 0.0
    then b.(phase := HalfOpen, successes := 0, inflight := 0)
    else b
  }

  predicate Admits(cfg: Config, b: Breaker, now: real) {
    var r := Recovered(cfg, b, now);
    match r.phase
    case Closed => true
    case Open => false
    case HalfOpen => r.inflight < cfg.halfOpenMaxCalls
  }

  function BeforeCall(cfg: Config, b: Breaker, now: real): Breaker {
    var r := Recovered(cfg, b, now);
    if r.phase.HalfOpen? && Admits(cfg, b, now) then r.(inflight := r.inflight + 1) else r
  }

  function RecordSuccess(cfg: Config, b: Breaker): Breaker
    requires cfg.Valid()
  {
    match b.phase
    case HalfOpen =>
      if b.successes + 1 >= cfg.successThreshold then INITIAL
      else b.(inflight := Decremented(b.inflight), successes := b.successes + 1)
    case Closed => b.(window := Push(cfg.windowSize, b.window, true), streak := 0)
    case Open => b
  }

  function RecordFailure(cfg: Config, b: Breaker, now: real): Breaker
    requires cfg.Valid()
  {
    match b.phase
    case HalfOpen => Opened(b, now)
    case Closed =>
      var counted := b.(window := Push(cfg.windowSize, b.window, false), streak := b.streak + 1);
      if counted.streak >= cfg.failureThreshold || RateTooHigh(cfg, counted.window)
      then Opened(counted, now) else counted
    case Open => b
  }

  function ReleaseProbe(b: Breaker): Breaker {
    if b.phase.HalfOpen? then b.(inflight := Decremented(b.inflight)) else b
  }

  // ----- The breaker ---------------------------------------------------------------------

  class CircuitBreaker {
    const config: Config
    var phase: Phase
    var window: seq<bool>
    var streak: nat
    var openedAt: Option<real>
    var inflight: nat
    var successes: nat

    ghost function Value(): Breaker
      reads this
    {
      Breaker(phase, window, streak, openedAt, inflight, successes)
    }

    constructor (config: Config)
      requires config.Valid()
      ensures this.config == config && Value() == INITIAL
    {
      this.config := config;
      phase, window, streak, openedAt, inflight, successes := Closed, [], 0, None, 0, 0;
    }

    method ShouldOpen() returns (open: bool)
      requires config.Valid()
      ensures open == (streak >= config.failureThreshold || RateTooHigh(config, window))
      ensures open <==> streak >= config.failureThreshold || RateReached(config, window)
    {
      RateRule(config, window);
      if streak >= config.failureThreshold {
        return true;
      }
      if config.failureRateThreshold.None? || |window| < config.minimumCalls {
        return false;
      }
      var failures := 0;
      for i := 0 to |window|
        invariant failures == CountFailures(window[..i])
      {
        assert window[..i + 1][..i] == window[..i];
        if !window[i] { failures := failures + 1; }
      }
      assert window[..|window|] == window;
      return failures as real / |window| as real >= config.failureRateThreshold.value;
    }

    method OpenLocked(now: real)
      modifies this
      ensures Value() == Opened(old(Value()), now)
    {
      phase := Open;
      openedAt := Some(now);
      inflight := 0;
      successes := 0;
    }

    method CloseLocked()
      modifies this
      ensures Value() == INITIAL
    {
      phase := Closed;
      openedAt := None;
      streak := 0;
      window := [];
      inflight := 0;
      successes := 0;
    }

    /** Returns false where the source raises CircuitOpenError. */
    method Before(now: real) returns (admitted: bool)
      requires phase.Open? ==> openedAt.Some?
      modifies this
      ensures admitted == Admits(config, old(Value()), now)
      ensures Value() == BeforeCall(config, old(Value()), now)
    {
      if phase.Open? {
        var elapsed := if now - openedAt.value > 0.0 then now - openedAt.value else 0.0;
        var retryAfter := if config.recoveryTimeout - elapsed > 0.0 then config.recoveryTimeout - elapsed else 0.0;
        if retryAfter <= 0.0 {
          phase := HalfOpen;
          successes := 0;
          inflight := 0;
        } else {
          return false;
        }
      }
      if phase.HalfOpen? {
        if inflight >= config.halfOpenMaxCalls {
          return false;
        }
        inflight := inflight + 1;
      }
      return true;
    }

    method Success()
      requires config.Valid()
      modifies this
      ensures Value() == RecordSuccess(config, old(Value()))
    {
      if phase.HalfOpen? {
        inflight := if inflight - 1 > 0 then inflight - 1 else 0;
        successes := successes + 1;
        if successes >= config.successThreshold {
          CloseLocked();
        }
      } else if phase.Closed? {
        window := Push(config.windowSize, window, true);
        streak := 0;
      }
    }

    method Failure(now: real)
      requires config.Valid()
      modifies this
      ensures Value() == RecordFailure(config, old(Value()), now)
    {
      if phase.HalfOpen? {
        inflight := if inflight - 1 > 0 then inflight - 1 else 0;
        OpenLocked(now);
      } else if phase.Closed? {
        window := Push(config.windowSize, window, false);
        streak := streak + 1;
        var open := ShouldOpen();
        if open {
          OpenLocked(now);
        }
      }
    }

    method Release()
      modifies this
      ensures Value() == ReleaseProbe(old(Value()))
    {
      if phase.HalfOpen? {
        inflight := if inflight - 1 > 0 then inflight - 1 else 0;
      }
    }

    method Trip(now: real)
      modifies this
      ensures Value() == Opened(old(Value()), now)
    {
      OpenLocked(now);
    }

    method Reset()
      modifies this
      ensures Value() == INITIAL
    {
      CloseLocked();
    }
  }
}
