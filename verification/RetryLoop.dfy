/** The retry loop.  The operation, the classifier, the clock, the shared budget and
    the backoff strategy are callbacks: a `Turn` holds whatever they answer during
    one attempt, so a theorem over every `turns` is a theorem over every callback. */
module RetryLoop {
  import opened Wrappers

  datatype Outcome<+T> =
    | Value(value: T)
    | Error(retryable: bool)      // an Exception, classified
    | Cancelled(retryable: bool)  // CancelledError, and what the classifier would say of it
    | Abort                       // any other BaseException: never caught

  /** Between two attempts the loop awaits the notification and then the sleep.  An error or a
      cancellation in either leaves the run. */
  datatype Pause = Unbroken | CutInNotice | CutInSleep

  datatype Turn<+T> = Turn(outcome: Outcome<T>, clock: real, token: bool, delay: real, pause: Pause)

  datatype Policy = Policy(maxAttempts: nat, maxElapsed: Option<real>, budgeted: bool, classifyCancellation: bool)

  datatype Reason = AttemptsReached | BudgetExhausted | ElapsedWouldExceed

  datatype Ending<+T> =
    | Returned(value: T)
    | Reraised(attempt: nat)
    | Exhausted(reason: Reason, attempts: nat)
    | Interrupted(attempt: nat)   // in the pause after this attempt

  /** `Slept`: a sleep of this length began. */
  datatype Effect = Invoked(attempt: nat) | TokenTaken | Slept(delay: real)

  function Elapsed(started: real, clock: real): real {
    if clock - started > 0.0 then clock - started else 0.0
  }

  // ----- What the loop should do ---------------------------------------------------

  /** The failure of this attempt is one the policy lets the loop retry. */
  predicate Retryable<T>(policy: Policy, outcome: Outcome<T>) {
    match outcome
    case Value(_) => false
    case Error(retryable) => retryable
    case Cancelled(retryable) => policy.classifyCancellation && retryable
    case Abort => false
  }

  predicate TimeLeft(policy: Policy, elapsed: real) {
    policy.maxElapsed.Some? ==> elapsed < policy.maxElapsed.value
  }

  predicate DelayFits(policy: Policy, elapsed: real, delay: real) {
    policy.maxElapsed.Some? ==> elapsed + delay <= policy.maxElapsed.value
  }

  /** The loop is to retry after this attempt. */
  predicate Retries<T>(policy: Policy, started: real, turn: Turn<T>, attempt: nat) {
    var elapsed := Elapsed(started, turn.clock);
    && Retryable(policy, turn.outcome)
    && attempt < policy.maxAttempts
    && TimeLeft(policy, elapsed)
    && (policy.budgeted ==> turn.token)
    && DelayFits(policy, elapsed, turn.delay)
  }

  /** The loop goes round again after this attempt. */
  predicate GoesAgain<T>(policy: Policy, started: real, turn: Turn<T>, attempt: nat) {
    Retries(policy, started, turn, attempt) && turn.pause.Unbroken?
  }

  /** How the run ends when attempt number `attempt` is its last. */
  function EndingAt<T>(policy: Policy, started: real, turn: Turn<T>, attempt: nat): Ending<T> {
    var elapsed := Elapsed(started, turn.clock);
    if turn.outcome.Value? then Returned(turn.outcome.value)
    else if !Retryable(policy, turn.outcome) then Reraised(attempt)
    else if Retries(policy, started, turn, attempt) then Interrupted(attempt)
    else if attempt < policy.maxAttempts && TimeLeft(policy, elapsed) then
      Exhausted(if policy.budgeted && !turn.token then BudgetExhausted else ElapsedWouldExceed, attempt)
    else Exhausted(AttemptsReached, attempt)
  }

  function TokenEffect(policy: Policy): seq<Effect> {
    if policy.budgeted then [TokenTaken] else []
  }

  /** The sleep in which the run is cut short, if it is. */
  function CutSleep<T>(policy: Policy, started: real, turn: Turn<T>, attempt: nat): seq<real> {
    if Retries(policy, started, turn, attempt) && turn.pause.CutInSleep? then [turn.delay] else []
  }

  function SleepEffect(delays: seq<real>): seq<Effect>
    requires |delays| <= 1
  {
    if delays == [] then [] else [Slept(delays[0])]
  }

  /** The token was taken and no further attempt follows. */
  predicate WastesToken<T>(ending: Ending<T>) {
    ending.Interrupted? || (ending.Exhausted? && ending.reason.ElapsedWouldExceed?)
  }

  /** The run from a given attempt on, as a recursive function of the turns. */
  function RunFrom<T>(policy: Policy, started: real, turns: nat -> Turn<T>, attempt: nat): (Ending<T>, seq<Effect>)
    requires attempt <= policy.maxAttempts
    decreases policy.maxAttempts - attempt
  {
    var turn := turns(attempt);
    if GoesAgain(policy, started, turn, attempt) then
      var (ending, log) := RunFrom(policy, started, turns, attempt + 1);
      (ending, [Invoked(attempt)] + TokenEffect(policy) + [Slept(turn.delay)] + log)
    else
      var ending := EndingAt(policy, started, turn, attempt);
      (ending, [Invoked(attempt)] + (if WastesToken(ending) then TokenEffect(policy) else [])
               + SleepEffect(CutSleep(policy, started, turn, attempt)))
  }

  // ----- The loop ---------------------------------------------------------------------

  method Run<T>(policy: Policy, started: real, turns: nat -> Turn<T>)
    returns (ending: Ending<T>, log: seq<Effect>)
    requires policy.maxAttempts >= 1
    ensures (ending, log) == RunFrom(policy, started, turns, 1)
  {
    log := [];
    var attempt := 1;
    assert forall rest: seq<Effect> :: [] + rest == rest;
    while attempt <= policy.maxAttempts
      invariant 1 <= attempt <= policy.maxAttempts
      invariant var rest := RunFrom(policy, started, turns, attempt);
        RunFrom(policy, started, turns, 1) == (rest.0, log + rest.1)
      decreases policy.maxAttempts - attempt
    {
      ghost var before := log;
      var turn := turns(attempt);
      log := log + [Invoked(attempt)];
      assert [Invoked(attempt)] + [] + [] == [Invoked(attempt)];
      match turn.outcome {
        case Value(v) => return Returned(v), log;
        case Abort => return Reraised(attempt), log;
        case Cancelled(retryable) =>
          if !policy.classifyCancellation || !retryable { return Reraised(attempt), log; }
        case Error(retryable) =>
          if !retryable { return Reraised(attempt), log; }
      }
      var elapsed := Elapsed(started, turn.clock);
      if attempt >= policy.maxAttempts {
        return Exhausted(AttemptsReached, attempt), log;
      }
      if policy.maxElapsed.Some? && elapsed >= policy.maxElapsed.value {
        return Exhausted(AttemptsReached, attempt), log;
      }
      if policy.budgeted {
        if !turn.token { return Exhausted(BudgetExhausted, attempt), log; }
        log := log + [TokenTaken];
      }
      if policy.maxElapsed.Some? && elapsed + turn.delay > policy.maxElapsed.value {
        assert log == before + ([Invoked(attempt)] + TokenEffect(policy) + []);
        return Exhausted(ElapsedWouldExceed, attempt), log;
      }
      if turn.pause.CutInNotice? {
        assert log == before + ([Invoked(attempt)] + TokenEffect(policy) + []);
        return Interrupted(attempt), log;
      }
      log := log + [Slept(turn.delay)];
      assert log == before + ([Invoked(attempt)] + TokenEffect(policy) + [Slept(turn.delay)]);
      if turn.pause.CutInSleep? { return Interrupted(attempt), log; }
      assert forall rest :: before + ([Invoked(attempt)] + TokenEffect(policy) + [Slept(turn.delay)] + rest) == log + rest;
      attempt := attempt + 1;
    }
    assert false;  // the statement after the loop cannot be reached
  }

  // ----- Reading the effect log ---------------------------------------------------------

  function Invocations(log: seq<Effect>): nat {
    if log == [] then 0 else (if log[0].Invoked? then 1 else 0) + Invocations(log[1..])
  }

  function Tokens(log: seq<Effect>): nat {
    if log == [] then 0 else (if log[0].TokenTaken? then 1 else 0) + Tokens(log[1..])
  }

  function Sleeps(log: seq<Effect>): seq<real> {
    if log == [] then [] else (if log[0].Slept? then [log[0].delay] else []) + Sleeps(log[1..])
  }

  function Sum(delays: seq<real>): real {
    if delays == [] then 0.0 else delays[0] + Sum(delays[1..])
  }

  /** What one more effect at the front adds to the three readings. */
  lemma ReadOne(e: Effect, rest: seq<Effect>)
    ensures Invocations([e] + rest) == (if e.Invoked? then 1 else 0) + Invocations(rest)
    ensures Tokens([e] + rest) == (if e.TokenTaken? then 1 else 0) + Tokens(rest)
    ensures Sleeps([e] + rest) == (if e.Slept? then [e.delay] else []) + Sleeps(rest)
  {
    assert ([e] + rest)[1..] == rest;
  }

  // ----- Main results -----------------------------------------------------------------------

  /** The attempt at which a run started at `attempt` stops: the first that does not go again. */
  function LastAttempt<T>(policy: Policy, started: real, turns: nat -> Turn<T>, attempt: nat): (last: nat)
    requires attempt <= policy.maxAttempts
    ensures attempt <= last <= policy.maxAttempts
    ensures forall i :: attempt <= i < last ==> GoesAgain(policy, started, turns(i), i)
    ensures !GoesAgain(policy, started, turns(last), last)
    decreases policy.maxAttempts - attempt
  {
    if GoesAgain(policy, started, turns(attempt), attempt)
    then LastAttempt(policy, started, turns, attempt + 1)
    else attempt
  }

  ghost function DelaysUpTo<T>(turns: nat -> Turn<T>, from: nat, last: nat): seq<real>
    requires from <= last
  {
    seq(last - from, i requires 0 <= i < last - from => turns(from + i).delay)
  }

  ghost predicate HasShape<T>(policy: Policy, started: real, turns: nat -> Turn<T>, attempt: nat, last: nat,
                              ending: Ending<T>, log: seq<Effect>)
  {
    && attempt <= last && ending == EndingAt(policy, started, turns(last), last)
    && Invocations(log) == last - attempt + 1
    && Sleeps(log) == DelaysUpTo(turns, attempt, last) + CutSleep(policy, started, turns(last), last)
    && Tokens(log) == if !policy.budgeted then 0
                      else last - attempt + (if ending.Interrupted? || ending == Exhausted(ElapsedWouldExceed, last) then 1 else 0)
  }

  /** The whole shape of a run: it stops at the first attempt that does not go again,
      it invokes the operation once per attempt, it sleeps exactly the delays between
      consecutive attempts in order, and after the last one only a sleep in which it is cut
      short.  It takes one token per further attempt, plus one that is wasted when the run
      ends because the next delay would pass the time limit, or is cut short in the pause. */
  lemma {:induction false} RunShape<T>(policy: Policy, started: real, turns: nat -> Turn<T>, attempt: nat)
    requires attempt <= policy.maxAttempts
    ensures var (ending, log) := RunFrom(policy, started, turns, attempt);
      HasShape(policy, started, turns, attempt, LastAttempt(policy, started, turns, attempt), ending, log)
    decreases policy.maxAttempts - attempt
  {
    if GoesAgain(policy, started, turns(attempt), attempt) {
      RunShape(policy, started, turns, attempt + 1);
      RoundAdded(policy, started, turns, attempt);
    } else {
      LastRound(policy, started, turns, attempt);
    }
  }

  lemma LastRound<T>(policy: Policy, started: real, turns: nat -> Turn<T>, attempt: nat)
    requires attempt <= policy.maxAttempts && !GoesAgain(policy, started, turns(attempt), attempt)
    ensures var (ending, log) := RunFrom(policy, started, turns, attempt);
      HasShape(policy, started, turns, attempt, attempt, ending, log)
  {
    var (ending, log) := RunFrom(policy, started, turns, attempt);
    var slept := SleepEffect(CutSleep(policy, started, turns(attempt), attempt));
    var taken := if WastesToken(ending) then TokenEffect(policy) else [];
    if slept != [] {
      ReadOne(slept[0], []);
      assert slept == [slept[0]] + [];
    }
    if taken != [] { ReadOne(TokenTaken, slept); } else { assert taken + slept == slept; }
    ReadOne(Invoked(attempt), taken + slept);
    assert log == [Invoked(attempt)] + (taken + slept);
  }

  lemma RoundAdded<T>(policy: Policy, started: real, turns: nat -> Turn<T>, attempt: nat)
    requires attempt < policy.maxAttempts && GoesAgain(policy, started, turns(attempt), attempt)
    requires var (ending, log) := RunFrom(policy, started, turns, attempt + 1);
      HasShape(policy, started, turns, attempt + 1, LastAttempt(policy, started, turns, attempt + 1), ending, log)
    ensures var (ending, log) := RunFrom(policy, started, turns, attempt);
      HasShape(policy, started, turns, attempt, LastAttempt(policy, started, turns, attempt), ending, log)
  {
    var last := LastAttempt(policy, started, turns, attempt + 1);
    var (ending, log) := RunFrom(policy, started, turns, attempt + 1);
    var round := [Invoked(attempt)] + TokenEffect(policy) + [Slept(turns(attempt).delay)];
    ShapeGrows(policy, started, turns, attempt, last, ending, log, round + log);
    assert LastAttempt(policy, started, turns, attempt) == last;
  }

  lemma ShapeGrows<T>(policy: Policy, started: real, turns: nat -> Turn<T>, attempt: nat, last: nat,
                      ending: Ending<T>, rest: seq<Effect>, log: seq<Effect>)
    requires HasShape(policy, started, turns, attempt + 1, last, ending, rest)
    requires log == [Invoked(attempt)] + TokenEffect(policy) + [Slept(turns(attempt).delay)] + rest
    ensures HasShape(policy, started, turns, attempt, last, ending, log)
  {
    var delay := turns(attempt).delay;
    var slept := [Slept(delay)] + rest;
    ReadOne(Slept(delay), rest);
    var taken := TokenEffect(policy) + slept;
    if policy.budgeted {
      ReadOne(TokenTaken, slept);
    } else {
      assert taken == slept;
    }
    ReadOne(Invoked(attempt), taken);
    assert log == [Invoked(attempt)] + taken;
    assert [delay] + DelaysUpTo(turns, attempt + 1, last) == DelaysUpTo(turns, attempt, last);
    var cut := CutSleep(policy, started, turns(last), last);
    assert [delay] + (DelaysUpTo(turns, attempt + 1, last) + cut) == DelaysUpTo(turns, attempt, last) + cut;
  }

  /** The first success is what is returned: a run returns `v` exactly when some attempt
      within the limit yields `v` and every attempt before it went round again. */
  lemma ReturnsFirstSuccess<T>(policy: Policy, started: real, turns: nat -> Turn<T>, v: T)
    requires policy.maxAttempts >= 1
    ensures RunFrom(policy, started, turns, 1).0 == Returned(v)
       <==> exists k :: 1 <= k <= policy.maxAttempts && turns(k).outcome == Value(v)
                        && forall i :: 1 <= i < k ==> GoesAgain(policy, started, turns(i), i)
  {
    RunShape(policy, started, turns, 1);
    var last := LastAttempt(policy, started, turns, 1);
    if k :| 1 <= k <= policy.maxAttempts && turns(k).outcome == Value(v)
            && forall i :: 1 <= i < k ==> GoesAgain(policy, started, turns(i), i) {
      assert !GoesAgain(policy, started, turns(k), k);
      assert k == last;
    }
  }

  /** The attempts that are made are those up to the last. */
  lemma {:induction false} InvokedUpToLast<T>(policy: Policy, started: real, turns: nat -> Turn<T>, attempt: nat, k: nat)
    requires attempt <= policy.maxAttempts
    ensures Invoked(k) in RunFrom(policy, started, turns, attempt).1
       <==> attempt <= k <= LastAttempt(policy, started, turns, attempt)
    decreases policy.maxAttempts - attempt
  {
    var turn := turns(attempt);
    var log := RunFrom(policy, started, turns, attempt).1;
    if GoesAgain(policy, started, turn, attempt) {
      InvokedUpToLast(policy, started, turns, attempt + 1, k);
      var rest := RunFrom(policy, started, turns, attempt + 1).1;
      assert log == [Invoked(attempt)] + TokenEffect(policy) + [Slept(turn.delay)] + rest;
      assert Invoked(k) in log <==> k == attempt || Invoked(k) in rest;
    } else {
      var ending := EndingAt(policy, started, turn, attempt);
      var slept := SleepEffect(CutSleep(policy, started, turn, attempt));
      var taken := if WastesToken(ending) then TokenEffect(policy) else [];
      assert log == [Invoked(attempt)] + taken + slept;
      assert log[0] == Invoked(attempt);
    }
  }

  lemma EndsAt<T>(policy: Policy, started: real, turns: nat -> Turn<T>, k: nat)
    requires policy.maxAttempts >= 1 && Invoked(k) in RunFrom(policy, started, turns, 1).1
    ensures 1 <= k <= policy.maxAttempts
    ensures Invoked(k + 1) in RunFrom(policy, started, turns, 1).1 <==> GoesAgain(policy, started, turns(k), k)
    ensures !GoesAgain(policy, started, turns(k), k) ==> RunFrom(policy, started, turns, 1).0 == EndingAt(policy, started, turns(k), k)
  {
    InvokedUpToLast(policy, started, turns, 1, k);
    InvokedUpToLast(policy, started, turns, 1, k + 1);
    RunShape(policy, started, turns, 1);
  }

  /** Which failures are not retried: an error classified as terminal, a cancellation that is to
      propagate or is classified so, and what the loop never catches.  The attempt is the last
      one, and its failure leaves the run unchanged.  A value ends the run as well. */
  lemma NotRetried<T>(policy: Policy, started: real, turns: nat -> Turn<T>, k: nat)
    requires policy.maxAttempts >= 1 && Invoked(k) in RunFrom(policy, started, turns, 1).1
    ensures var (ending, log) := RunFrom(policy, started, turns, 1);
      var outcome := turns(k).outcome;
      && (outcome == Error(false) || outcome.Abort? || (outcome.Cancelled? && !(policy.classifyCancellation && outcome.retryable))
          ==> ending == Reraised(k) && Invoked(k + 1) !in log)
      && (outcome.Value? ==> ending == Returned(outcome.value) && Invoked(k + 1) !in log)
  {
    EndsAt(policy, started, turns, k);
  }

  /** Which failures are retried: one that is classified as transient, cancellation included when
      it is to be classified, exactly when it is not the last permitted attempt, time is left, a
      token is granted, the delay fits and the pause is not cut short.  Otherwise the first of
      these that fails gives the reason of the end. */
  lemma RetriedExactly<T>(policy: Policy, started: real, turns: nat -> Turn<T>, k: nat)
    requires policy.maxAttempts >= 1 && Invoked(k) in RunFrom(policy, started, turns, 1).1
    requires turns(k).outcome == Error(true) || (turns(k).outcome == Cancelled(true) && policy.classifyCancellation)
    ensures var (ending, log) := RunFrom(policy, started, turns, 1);
      var turn := turns(k);
      var elapsed := if turn.clock >= started then turn.clock - started else 0.0;
      var exhausted := k == policy.maxAttempts || (policy.maxElapsed.Some? && elapsed >= policy.maxElapsed.value);
      var refused := policy.budgeted && !turn.token;
      var late := policy.maxElapsed.Some? && elapsed + turn.delay > policy.maxElapsed.value;
      && (Invoked(k + 1) in log <==> !exhausted && !refused && !late && turn.pause.Unbroken?)
      && (exhausted ==> ending == Exhausted(AttemptsReached, k))
      && (!exhausted && refused ==> ending == Exhausted(BudgetExhausted, k))
      && (!exhausted && !refused && late ==> ending == Exhausted(ElapsedWouldExceed, k))
      && (!exhausted && !refused && !late && !turn.pause.Unbroken? ==> ending == Interrupted(k))
  {
    EndsAt(policy, started, turns, k);
  }

  /** Every reading of the clock comes after the sleep that preceded it. */
  ghost predicate ClockCoversSleeps<T>(started: real, turns: nat -> Turn<T>) {
    turns(1).clock >= started && forall i :: 1 <= i ==> SleepCovered(turns, i)
  }

  ghost predicate SleepCovered<T>(turns: nat -> Turn<T>, i: nat) {
    0.0 <= turns(i).delay <= turns(i + 1).clock - turns(i).clock
  }

  lemma {:induction false} SleptBeforeReading<T>(started: real, turns: nat -> Turn<T>, last: nat)
    requires ClockCoversSleeps(started, turns) && 1 <= last
    ensures started + Sum(DelaysUpTo(turns, 1, last)) <= turns(last).clock
  {
    if last > 1 {
      SleptBeforeReading(started, turns, last - 1);
      assert SleepCovered(turns, last - 1);
      var delays := DelaysUpTo(turns, 1, last - 1);
      SumAppend(delays, turns(last - 1).delay);
      assert DelaysUpTo(turns, 1, last) == delays + [turns(last - 1).delay];
    }
  }

  lemma {:induction false} SumAppend(delays: seq<real>, d: real)
    ensures Sum(delays + [d]) == Sum(delays) + d
  {
    if delays == [] {
      assert delays + [d] == [d];
    } else {
      assert (delays + [d])[1..] == delays[1..] + [d];
      SumAppend(delays[1..], d);
    }
  }

  /** A run never invokes the operation more than `maxAttempts` times, and all sleeps it begins,
      with the one in which it may be cut short, ask for no more in total than the elapsed-time
      limit. */
  lemma RunWithinLimits<T>(policy: Policy, started: real, turns: nat -> Turn<T>)
    requires policy.maxAttempts >= 1
    ensures var (ending, log) := RunFrom(policy, started, turns, 1);
      && 1 <= Invocations(log) <= policy.maxAttempts
      && |Sleeps(log)| == Invocations(log) - (if ending.Interrupted? && turns(ending.attempt).pause.CutInSleep? then 0 else 1)
      && (policy.maxElapsed.Some? && policy.maxElapsed.value > 0.0 && ClockCoversSleeps(started, turns)
          ==> Sum(Sleeps(log)) <= policy.maxElapsed.value)
  {
    RunShape(policy, started, turns, 1);
    var last := LastAttempt(policy, started, turns, 1);
    if policy.maxElapsed.Some? && policy.maxElapsed.value > 0.0 && ClockCoversSleeps(started, turns) {
      if last > 1 { CompleteSleepsFit(policy, started, turns, last); }
      var delays, cut := DelaysUpTo(turns, 1, last), CutSleep(policy, started, turns(last), last);
      if cut != [] {
        SleptBeforeReading(started, turns, last);
        SumAppend(delays, turns(last).delay);
      } else {
        assert delays + cut == delays;
      }
    }
  }

  lemma CompleteSleepsFit<T>(policy: Policy, started: real, turns: nat -> Turn<T>, last: nat)
    requires last > 1 && policy.maxElapsed.Some? && ClockCoversSleeps(started, turns)
    requires GoesAgain(policy, started, turns(last - 1), last - 1)
    ensures Sum(DelaysUpTo(turns, 1, last)) <= policy.maxElapsed.value
  {
    SleptBeforeReading(started, turns, last - 1);
    var delays := DelaysUpTo(turns, 1, last - 1);
    SumAppend(delays, turns(last - 1).delay);
    assert DelaysUpTo(turns, 1, last) == delays + [turns(last - 1).delay];
  }
}
