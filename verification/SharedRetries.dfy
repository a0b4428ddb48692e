/** Several retry runs, each with its own policy, over one retry budget.  A run takes a token
    for each of its retries, whichever runs took the others. */
module SharedRetries {
  import opened RetryLoop
  import B = RetryBudgets

  /** `attempt` is the attempt that a run is in. */
  datatype Progress = Progress(started: real, attempt: nat)

  /** `calls` are the requests made of the budget, `retries` the moments at which a token was taken
      for a retry that is then announced and slept for, and `wasted` those at which one was taken
      for a retry that the time limit then forbade. */
  datatype System = System(runs: map<nat, Progress>, calls: seq<B.Call>, retries: seq<real>, wasted: seq<real>)

  const START := System(map[], [], [], [])

  datatype Event<T> =
    | Begin(run: nat, clock: real)
    | Attempted(run: nat, outcome: Outcome<T>, clock: real, delay: real, now: real, pause: Pause)  // `now` is the budget's clock

  datatype Budget = Budget(maxRetries: nat, window: real)

  /** The attempt failed in a way that makes its run ask for a token. */
  predicate AsksToken<T>(policy: Policy, r: Progress, outcome: Outcome<T>, clock: real) {
    Retryable(policy, outcome) && r.attempt < policy.maxAttempts && TimeLeft(policy, Elapsed(r.started, clock))
  }

  function TurnOf<T>(b: Budget, s: System, e: Event<T>): Turn<T>
    requires e.Attempted?
  {
    Turn(e.outcome, e.clock, B.Granted(b.maxRetries, b.window, s.calls, e.now), e.delay, e.pause)
  }

  function Step<T>(policies: nat -> Policy, b: Budget, s: System, e: Event<T>): System {
    match e
    case Begin(run, clock) => if run in s.runs then s else s.(runs := s.runs[run := Progress(clock, 1)])
    case Attempted(run, outcome, clock, delay, now, pause) =>
      if run !in s.runs then s
      else
        var policy, r, turn := policies(run).(budgeted := true), s.runs[run], TurnOf(b, s, e);
        if !AsksToken(policy, r, outcome, clock) then s.(runs := s.runs - {run})
        else
          var asked := s.(calls := s.calls + [B.TryConsume(now)]);
          if Retries(policy, r.started, turn, r.attempt)
          then asked.(runs := if pause.Unbroken? then s.runs[run := r.(attempt := r.attempt + 1)] else s.runs - {run},
                      retries := s.retries + [now])
          else asked.(runs := s.runs - {run}, wasted := if turn.token then s.wasted + [now] else s.wasted)
  }

  function After<T>(policies: nat -> Policy, b: Budget, events: seq<Event<T>>): System {
    if events == [] then START else Step(policies, b, After(policies, b, events[..|events| - 1]), events[|events| - 1])
  }

  ghost predicate BudgetClockOk<T>(events: seq<Event<T>>) {
    forall i, j :: 0 <= i < j < |events| && events[i].Attempted? && events[j].Attempted? ==> events[i].now <= events[j].now
  }

  /** What an attempt of a run comes to: it asks for a token exactly when its failure is classified as
      transient and neither attempts nor time are used up; a granted token is spent on a retry when
      the delay fits and wasted otherwise; and the run goes on exactly with an unbroken pause. */
  lemma AttemptOutcome<T>(policies: nat -> Policy, b: Budget, s: System, e: Event<T>)
    requires e.Attempted? && e.run in s.runs
    ensures var policy, r, next := policies(e.run), s.runs[e.run], Step(policies, b, s, e);
      var elapsed := if e.clock >= r.started then e.clock - r.started else 0.0;
      var asks := && (e.outcome == Error(true) || (e.outcome == Cancelled(true) && policy.classifyCancellation))
                  && r.attempt < policy.maxAttempts
                  && (policy.maxElapsed.Some? ==> elapsed < policy.maxElapsed.value);
      var granted := B.Granted(b.maxRetries, b.window, s.calls, e.now);
      var fits := policy.maxElapsed.Some? ==> elapsed + e.delay <= policy.maxElapsed.value;
      && next.calls == s.calls + (if asks then [B.TryConsume(e.now)] else [])
      && next.retries == s.retries + (if asks && granted && fits then [e.now] else [])
      && next.wasted == s.wasted + (if asks && granted && !fits then [e.now] else [])
      && (e.run in next.runs <==> asks && granted && fits && e.pause.Unbroken?)
      && (e.run in next.runs ==> next.runs[e.run] == Progress(r.started, r.attempt + 1))
  {
    assert s.calls + [] == s.calls && s.retries + [] == s.retries && s.wasted + [] == s.wasted;
  }

  // ----- Tokens, retries and waste -----------------------------------------------------------------

  ghost predicate EachTokenSpent(b: Budget, s: System) {
    forall lo, hi :: B.CountIn(B.After(b.maxRetries, b.window, s.calls).grants, lo, hi)
                  == B.CountIn(s.retries, lo, hi) + B.CountIn(s.wasted, lo, hi)
  }

  lemma CountOneMore(times: seq<real>, t: real, lo: real, hi: real)
    ensures B.CountIn(times + [t], lo, hi) == B.CountIn(times, lo, hi) + if lo < t <= hi then 1 else 0
  {
    assert (times + [t])[..|times|] == times;
  }

  /** A granted request adds one grant, now; a refused one adds none. */
  lemma RequestGrants(b: Budget, calls: seq<B.Call>, now: real)
    ensures B.After(b.maxRetries, b.window, calls + [B.TryConsume(now)]).grants
         == B.After(b.maxRetries, b.window, calls).grants
            + if B.Granted(b.maxRetries, b.window, calls, now) then [now] else []
  {
    B.AfterMore(b.maxRetries, b.window, calls, B.TryConsume(now));
  }

  /** What a step that asks for a token adds. */
  lemma StepAdds<T>(policies: nat -> Policy, b: Budget, s: System, e: Event<T>)
    requires Step(policies, b, s, e).calls != s.calls
    ensures var next := Step(policies, b, s, e);
      && e.Attempted? && next.calls == s.calls + [B.TryConsume(e.now)]
      && (if !B.Granted(b.maxRetries, b.window, s.calls, e.now) then next.retries == s.retries && next.wasted == s.wasted
          else || (next.retries == s.retries + [e.now] && next.wasted == s.wasted)
               || (next.retries == s.retries && next.wasted == s.wasted + [e.now]))
  {
  }

  lemma StepSpends<T>(policies: nat -> Policy, b: Budget, s: System, e: Event<T>)
    requires EachTokenSpent(b, s)
    ensures EachTokenSpent(b, Step(policies, b, s, e))
  {
    var next := Step(policies, b, s, e);
    if next.calls != s.calls {
      StepAdds(policies, b, s, e);
      RequestGrants(b, s.calls, e.now);
      forall lo, hi { Spends(b, s, next, e.now, lo, hi); }
    }
  }

  lemma Spends(b: Budget, s: System, next: System, now: real, lo: real, hi: real)
    requires EachTokenSpent(b, s)
    requires var grants := B.After(b.maxRetries, b.window, s.calls).grants;
      B.After(b.maxRetries, b.window, next.calls).grants
        == grants + if B.Granted(b.maxRetries, b.window, s.calls, now) then [now] else []
    requires if !B.Granted(b.maxRetries, b.window, s.calls, now) then next.retries == s.retries && next.wasted == s.wasted
             else || (next.retries == s.retries + [now] && next.wasted == s.wasted)
                  || (next.retries == s.retries && next.wasted == s.wasted + [now])
    ensures B.CountIn(B.After(b.maxRetries, b.window, next.calls).grants, lo, hi)
         == B.CountIn(next.retries, lo, hi) + B.CountIn(next.wasted, lo, hi)
  {
    var grants := B.After(b.maxRetries, b.window, s.calls).grants;
    CountOneMore(grants, now, lo, hi);
    CountOneMore(s.retries, now, lo, hi);
    CountOneMore(s.wasted, now, lo, hi);
    assert grants + [] == grants;
  }

  lemma {:induction false} TokensSpent<T>(policies: nat -> Policy, b: Budget, events: seq<Event<T>>)
    ensures EachTokenSpent(b, After(policies, b, events))
    decreases |events|
  {
    if events == [] {
      assert B.After(b.maxRetries, b.window, []).grants == [];
    } else {
      TokensSpent(policies, b, events[..|events| - 1]);
      StepSpends(policies, b, After(policies, b, events[..|events| - 1]), events[|events| - 1]);
    }
  }

  lemma {:induction false} CallsInOrder<T>(policies: nat -> Policy, b: Budget, events: seq<Event<T>>, clock: real)
    requires BudgetClockOk(events) && forall i :: 0 <= i < |events| && events[i].Attempted? ==> events[i].now <= clock
    ensures var calls := After(policies, b, events).calls;
      B.ClockNeverRunsBack(calls) && forall i :: 0 <= i < |calls| ==> calls[i].now <= clock
    decreases |events|
  {
    if events != [] {
      var front, last := events[..|events| - 1], events[|events| - 1];
      if last.Attempted? {
        CallsInOrder(policies, b, front, last.now);
      } else {
        CallsInOrder(policies, b, front, clock);
      }
    }
  }

  // ----- Main results ------------------------------------------------------------------------------

  /** However many runs share the budget, in any window of its length all of them together schedule at
      most `max_retries` retries, less the tokens that were wasted in that window. */
  lemma RetriesWithinBudget<T>(policies: nat -> Policy, b: Budget, events: seq<Event<T>>, x: real)
    requires b.window > 0.0 && BudgetClockOk(events)
    ensures var s := After(policies, b, events);
      B.CountIn(s.retries, x - b.window, x) + B.CountIn(s.wasted, x - b.window, x) <= b.maxRetries
  {
    var s := After(policies, b, events);
    var clock := LatestClock(events);
    CallsInOrder(policies, b, events, clock);
    TokensSpent(policies, b, events);
    B.EveryWindowWithinBudget(b.maxRetries, b.window, s.calls, x);
  }

  lemma {:induction false} LatestClock<T>(events: seq<Event<T>>) returns (clock: real)
    ensures forall i :: 0 <= i < |events| && events[i].Attempted? ==> events[i].now <= clock
    decreases |events|
  {
    clock := 0.0;
    if events != [] {
      var front, last := events[..|events| - 1], events[|events| - 1];
      clock := LatestClock(front);
      assert forall i :: 0 <= i < |front| ==> events[i] == front[i];
      if last.Attempted? && last.now > clock { clock := last.now; }
    }
  }
}
