/** Whole runs of a circuit breaker shared by concurrent calls.  A call is admitted by a
    request and completes later, possibly after the breaker has changed phase, so the run
    keeps what the breaker does not: which calls are live and when they were admitted,
    what each half-open episode admitted, and every outcome since the last close. */
module CircuitRuns {
  import opened Wrappers
  import opened CircuitBreakers

  datatype Event =
    | Request(now: real)
    | Success(now: real, id: nat)   // also an excluded exception
    | Failure(now: real, id: nat)
    | Cancelled(now: real, id: nat)
    | TurnEmitted(now: real, id: nat) // the call that turned the circuit half-open goes on
    | Lost(now: real, id: nat)      // it was cancelled while it emitted that turn
    | Trip(now: real)
    | Reset(now: real)

  /** One stay in the half-open phase: calls admitted in it, cancellations reported in it,
      and completions in it of calls that were admitted before it began.  `freed` counts those of
      the late completions that freed a slot, `starved` the completions of its own probes that
      found no slot to free, `lost` the calls cancelled before their operation began, which
      keep their slot. */
  datatype Episode = Episode(admitted: nat, cancelled: nat, late: nat, freed: nat, starved: nat, lost: nat)

  /** `live` maps an unfinished call to 0 when it was admitted by a closed circuit, and to
      the number of its half-open episode otherwise.  `turning` are the live calls that have
      turned the circuit half-open and are still emitting that turn. */
  datatype System = System(b: Breaker, live: map<nat, nat>, nextId: nat, episodes: seq<Episode>, outcomes: seq<bool>,
                           turning: set<nat>)

  const NEW_EPISODE := Episode(0, 0, 0, 0, 0, 0)

  const START := System(INITIAL, map[], 0, [], [], {})

  function Last(episodes: seq<Episode>): Episode {
    if episodes == [] then NEW_EPISODE else episodes[|episodes| - 1]
  }

  function WithLast(episodes: seq<Episode>, e: Episode): seq<Episode> {
    if episodes == [] then [] else episodes[..|episodes| - 1] + [e]
  }

  predicate IsProbe(s: System, id: nat) {
    id in s.live && s.live[id] == |s.episodes|
  }

  /** The episode as a completion of call `id` leaves it. */
  function Completed(s: System, id: nat, cancelled: bool): seq<Episode> {
    var e := Last(s.episodes);
    if s.b.phase.HalfOpen? then
      WithLast(s.episodes, Episode(e.admitted,
                                   if cancelled then e.cancelled + 1 else e.cancelled,
                                   if IsProbe(s, id) then e.late else e.late + 1,
                                   if !IsProbe(s, id) && s.b.inflight > 0 then e.freed + 1 else e.freed,
                                   if IsProbe(s, id) && s.b.inflight == 0 then e.starved + 1 else e.starved,
                                   e.lost))
    else s.episodes
  }

  function Requested(cfg: Config, s: System, now: real): System {
    var r := Recovered(cfg, s.b, now);
    var episodes := if r.phase != s.b.phase then s.episodes + [NEW_EPISODE] else s.episodes;
    var b := BeforeCall(cfg, s.b, now);
    if !Admits(cfg, s.b, now) then s.(b := b, episodes := episodes)
    else if r.phase.HalfOpen? then
      var e := Last(episodes);
      System(b, s.live[s.nextId := |episodes|], s.nextId + 1,
             WithLast(episodes, e.(admitted := e.admitted + 1)), s.outcomes,
             if r.phase != s.b.phase then s.turning + {s.nextId} else s.turning)
    else s.(b := b, live := s.live[s.nextId := 0], nextId := s.nextId + 1)
  }

  /** A call that ends while it emits its turn: `call` has not begun to watch over it, so nothing
      is recorded and its slot stays taken. */
  function LosesCall(s: System, id: nat): System {
    s.(live := s.live - {id}, turning := s.turning - {id},
       episodes := if s.b.phase.HalfOpen? && IsProbe(s, id)
                   then WithLast(s.episodes, Last(s.episodes).(lost := Last(s.episodes).lost + 1)) else s.episodes)
  }

  function Step(cfg: Config, s: System, e: Event): System
    requires cfg.Valid()
  {
    match e
    case Request(now) => Requested(cfg, s, now)
    case Success(_, id) =>
      var b := RecordSuccess(cfg, s.b);
      System(b, s.live - {id}, s.nextId, Completed(s, id, false),
             if s.b.phase.Closed? then s.outcomes + [true]
             else if b.phase.Closed? then [] else s.outcomes, s.turning - {id})
    case Failure(now, id) =>
      System(RecordFailure(cfg, s.b, now), s.live - {id}, s.nextId, Completed(s, id, false),
             if s.b.phase.Closed? then s.outcomes + [false] else s.outcomes, s.turning - {id})
    case Cancelled(_, id) =>
      System(ReleaseProbe(s.b), s.live - {id}, s.nextId, Completed(s, id, true), s.outcomes, s.turning - {id})
    case TurnEmitted(_, id) => s.(turning := s.turning - {id})
    case Lost(_, id) => if id in s.turning then LosesCall(s, id) else s
    case Trip(now) => s.(b := Opened(s.b, now))
    case Reset(_) => s.(b := INITIAL, outcomes := [])
  }

  function After(cfg: Config, events: seq<Event>): System
    requires cfg.Valid()
  {
    if events == [] then START
    else Step(cfg, After(cfg, events[..|events| - 1]), events[|events| - 1])
  }

  ghost predicate ClockNeverRunsBack(events: seq<Event>) {
    forall i, j :: 0 <= i < j < |events| ==> events[i].now <= events[j].now
  }

  lemma AfterPrefix(cfg: Config, events: seq<Event>, i: nat)
    requires cfg.Valid() && i < |events|
    ensures After(cfg, events[..i + 1]) == Step(cfg, After(cfg, events[..i]), events[i])
  {
    assert events[..i + 1][..i] == events[..i];
  }

  lemma AfterAppend(cfg: Config, events: seq<Event>, e: Event)
    requires cfg.Valid()
    ensures After(cfg, events + [e]) == Step(cfg, After(cfg, events), e)
  {
    assert (events + [e])[..|events|] == events;
  }

  // ----- What a closed circuit remembers -------------------------------------------------

  function LastN(s: seq<bool>, n: nat): seq<bool> {
    if |s| > n then s[|s| - n..] else s
  }

  /** The length of the run of failures at the end of a history. */
  function TrailingFailures(outcomes: seq<bool>): nat {
    if outcomes == [] || outcomes[|outcomes| - 1] then 0
    else 1 + TrailingFailures(outcomes[..|outcomes| - 1])
  }

  lemma PushKeepsLastN(size: nat, outcomes: seq<bool>, x: bool)
    requires size >= 1
    ensures Push(size, LastN(outcomes, size), x) == LastN(outcomes + [x], size)
  {
  }

  lemma TrailingAppend(outcomes: seq<bool>, x: bool)
    ensures TrailingFailures(outcomes + [x]) == if x then 0 else TrailingFailures(outcomes) + 1
  {
    assert (outcomes + [x])[..|outcomes|] == outcomes;
  }

  ghost predicate RemembersOutcomes(cfg: Config, s: System) {
    && s.b.window == LastN(s.outcomes, cfg.windowSize)
    && s.b.streak == TrailingFailures(s.outcomes) < cfg.failureThreshold
    && (s.outcomes != [] && !s.outcomes[|s.outcomes| - 1] ==> !RateTooHigh(cfg, s.b.window))
  }

  ghost predicate PhaseInvariant(cfg: Config, s: System) {
    && (s.b.openedAt.None? <==> s.b.phase.Closed?)
    && (s.b.phase.Closed? ==> RemembersOutcomes(cfg, s))
  }

  lemma StepPhaseInvariant(cfg: Config, s: System, e: Event)
    requires cfg.Valid() && PhaseInvariant(cfg, s)
    ensures PhaseInvariant(cfg, Step(cfg, s, e))
  {
    if s.b.phase.Closed? && (e.Success? || e.Failure?) {
      PushKeepsLastN(cfg.windowSize, s.outcomes, e.Success?);
      TrailingAppend(s.outcomes, e.Success?);
    }
  }

  /** In every reachable closed state the window is exactly the last `windowSize` outcomes
      since the last close, the streak is the trailing failure run since then and is below
      the threshold, and the opening time is absent exactly when the circuit is closed.  The
      windowed rate may exceed its limit in a closed state, but only after a success. */
  lemma {:induction false} ClosedRemembersOutcomes(cfg: Config, events: seq<Event>)
    requires cfg.Valid()
    ensures PhaseInvariant(cfg, After(cfg, events))
  {
    if events != [] {
      ClosedRemembersOutcomes(cfg, events[..|events| - 1]);
      StepPhaseInvariant(cfg, After(cfg, events[..|events| - 1]), events[|events| - 1]);
    }
  }

  lemma {:induction false} StreakReaches(outcomes: seq<bool>, n: nat)
    ensures TrailingFailures(outcomes) >= n <==> |outcomes| >= n && forall i :: |outcomes| - n <= i < |outcomes| ==> !outcomes[i]
    decreases |outcomes|
  {
    if n > 0 && outcomes != [] && !outcomes[|outcomes| - 1] {
      StreakReaches(outcomes[..|outcomes| - 1], n - 1);
    }
  }

  lemma OpensByRule(cfg: Config, s: System, e: Event)
    requires cfg.Valid() && (e.Success? || e.Failure?) && s.b.phase.Closed? && PhaseInvariant(cfg, s)
    ensures var history := s.outcomes + [e.Success?];
      Step(cfg, s, e).b.phase.Open?
      <==> e.Failure? && (TrailingFailures(history) >= cfg.failureThreshold
                          || RateTooHigh(cfg, LastN(history, cfg.windowSize)))
  {
    PushKeepsLastN(cfg.windowSize, s.outcomes, e.Success?);
    TrailingAppend(s.outcomes, e.Success?);
  }

  /** The opening policy, on the outcomes since the last close: the last `failureThreshold` are
      failures, or the last `windowSize` reach the rate limit. */
  ghost predicate PolicyOpens(cfg: Config, history: seq<bool>) {
    || (|history| >= cfg.failureThreshold
        && forall i :: |history| - cfg.failureThreshold <= i < |history| ==> !history[i])
    || RateReached(cfg, LastN(history, cfg.windowSize))
  }

  lemma PolicyRead(cfg: Config, history: seq<bool>)
    requires cfg.Valid()
    ensures PolicyOpens(cfg, history)
       <==> TrailingFailures(history) >= cfg.failureThreshold || RateTooHigh(cfg, LastN(history, cfg.windowSize))
  {
    StreakReaches(history, cfg.failureThreshold);
    RateRule(cfg, LastN(history, cfg.windowSize));
  }

  /** A recorded outcome opens a closed circuit exactly when it is a failure and, with it, the
      policy is to open. */
  lemma OpensExactlyOnPolicy(cfg: Config, events: seq<Event>, e: Event)
    requires cfg.Valid() && (e.Success? || e.Failure?)
    requires After(cfg, events).b.phase.Closed?
    ensures var s := After(cfg, events);
      Step(cfg, s, e).b.phase.Open? <==> e.Failure? && PolicyOpens(cfg, s.outcomes + [e.Success?])
  {
    var s := After(cfg, events);
    ClosedRemembersOutcomes(cfg, events);
    OpensByRule(cfg, s, e);
    PolicyRead(cfg, s.outcomes + [e.Success?]);
  }

  /** Three failures and a success: the failure rate is 3/4 against a limit of 1/2 and the
      circuit is closed, because the rate is looked at only when a failure is recorded. */
  lemma RateMayExceedWhileClosed() returns (cfg: Config, events: seq<Event>)
    ensures cfg.Valid()
    ensures var s := After(cfg, events); s.b.phase.Closed? && RateReached(cfg, s.b.window)
  {
    cfg := Config(5, 30.0, 1, 1, 4, 4, Some(0.5));
    events := [];
    var failures := 0;
    while failures < 3
      invariant failures <= 3 && FailedSoFar(After(cfg, events).b, failures)
    {
      OneFailure(cfg, events, failures);
      events, failures := events + [Failure(0.0, 0)], failures + 1;
    }
    ThenSuccess(cfg, events);
    events := events + [Success(0.0, 0)];
    RateRule(cfg, After(cfg, events).b.window);
  }

  predicate FailedSoFar(b: Breaker, failures: nat) {
    b.phase.Closed? && |b.window| == b.streak == CountFailures(b.window) == failures
  }

  lemma OneFailure(cfg: Config, events: seq<Event>, failures: nat)
    requires cfg.Valid() && failures + 1 < cfg.failureThreshold && failures + 1 < cfg.minimumCalls
    requires FailedSoFar(After(cfg, events).b, failures)
    ensures FailedSoFar(After(cfg, events + [Failure(0.0, 0)]).b, failures + 1)
  {
    AfterAppend(cfg, events, Failure(0.0, 0));
    FailureCounts(cfg, After(cfg, events), failures);
  }

  lemma FailureCounts(cfg: Config, s: System, failures: nat)
    requires cfg.Valid() && failures + 1 < cfg.failureThreshold && failures + 1 < cfg.minimumCalls
    requires FailedSoFar(s.b, failures)
    ensures FailedSoFar(Step(cfg, s, Failure(0.0, 0)).b, failures + 1)
  {
    CountAppend(s.b.window, false);
    FailureStays(cfg, s, Failure(0.0, 0));
  }

  lemma ThenSuccess(cfg: Config, events: seq<Event>)
    requires cfg == Config(5, 30.0, 1, 1, 4, 4, Some(0.5)) && FailedSoFar(After(cfg, events).b, 3)
    ensures var s := After(cfg, events + [Success(0.0, 0)]); s.b.phase.Closed? && RateTooHigh(cfg, s.b.window)
  {
    AfterAppend(cfg, events, Success(0.0, 0));
    SuccessFills(cfg, After(cfg, events));
  }

  lemma SuccessFills(cfg: Config, s: System)
    requires cfg.Valid() && cfg.windowSize == cfg.minimumCalls == 4 && cfg.failureRateThreshold == Some(0.5) && FailedSoFar(s.b, 3)
    ensures var b := Step(cfg, s, Success(0.0, 0)).b; b.phase.Closed? && RateTooHigh(cfg, b.window)
  {
    CountAppend(s.b.window, true);
    assert Step(cfg, s, Success(0.0, 0)).b.window == s.b.window + [true];
  }

  lemma CountAppend(outcomes: seq<bool>, x: bool)
    ensures CountFailures(outcomes + [x]) == CountFailures(outcomes) + if x then 0 else 1
  {
    assert (outcomes + [x])[..|outcomes|] == outcomes;
  }

  lemma FailureStays(cfg: Config, s: System, e: Event)
    requires cfg.Valid() && e.Failure? && s.b.phase.Closed?
    requires s.b.streak + 1 < cfg.failureThreshold && |s.b.window| + 1 < cfg.minimumCalls
    ensures var b := Step(cfg, s, e).b;
      b.phase.Closed? && b.streak == s.b.streak + 1 && b.window == s.b.window + [false]
  {
  }

  // ----- No admission before the recovery time -----------------------------------------------

  predicate Opens(cfg: Config, s: System, e: Event)
    requires cfg.Valid()
  {
    Step(cfg, s, e).b.phase.Open? && (e.Trip? || (e.Failure? && !s.b.phase.Open?))
  }

  predicate AdmittedAt(cfg: Config, events: seq<Event>, j: nat)
    requires cfg.Valid() && j < |events|
  {
    events[j].Request? && Admits(cfg, After(cfg, events[..j]).b, events[j].now)
  }

  ghost predicate ShutSince(b: Breaker, t: real) {
    b.phase.Open? && b.openedAt.Some? && b.openedAt.value >= t
  }

  lemma StepStaysShut(cfg: Config, s: System, e: Event, t: real)
    requires cfg.Valid() && t <= e.now < t + cfg.recoveryTimeout
    requires ShutSince(s.b, t) && !e.Reset?
    ensures ShutSince(Step(cfg, s, e).b, t)
  {
  }

  lemma OpeningShuts(cfg: Config, s: System, e: Event)
    requires cfg.Valid() && Opens(cfg, s, e)
    ensures ShutSince(Step(cfg, s, e).b, e.now)
  {
  }

  /** After opening at event `i` the circuit stays open while neither the recovery time passes
      nor a reset comes. */
  lemma {:induction false} StaysShut(cfg: Config, events: seq<Event>, i: nat, j: nat)
    requires cfg.Valid() && ClockNeverRunsBack(events) && i < j <= |events|
    requires Opens(cfg, After(cfg, events[..i]), events[i])
    requires forall k :: i < k < j ==> !events[k].Reset?
    requires events[j - 1].now < events[i].now + cfg.recoveryTimeout
    ensures ShutSince(After(cfg, events[..j]).b, events[i].now)
    decreases j
  {
    if j - 1 > i {
      assert events[j - 2].now <= events[j - 1].now;
      StaysShut(cfg, events, i, j - 1);
      assert events[i].now <= events[j - 1].now && !events[j - 1].Reset?;
      ShutNext(cfg, events, j, events[i].now);
    } else {
      ShutFirst(cfg, events, i);
    }
  }

  lemma ShutNext(cfg: Config, events: seq<Event>, j: nat, t: real)
    requires cfg.Valid() && 0 < j <= |events| && t <= events[j - 1].now < t + cfg.recoveryTimeout
    requires ShutSince(After(cfg, events[..j - 1]).b, t) && !events[j - 1].Reset?
    ensures ShutSince(After(cfg, events[..j]).b, t)
  {
    AfterPrefix(cfg, events, j - 1);
    StepStaysShut(cfg, After(cfg, events[..j - 1]), events[j - 1], t);
  }

  lemma ShutFirst(cfg: Config, events: seq<Event>, i: nat)
    requires cfg.Valid() && i < |events| && Opens(cfg, After(cfg, events[..i]), events[i])
    ensures ShutSince(After(cfg, events[..i + 1]).b, events[i].now)
  {
    AfterPrefix(cfg, events, i);
    OpeningShuts(cfg, After(cfg, events[..i]), events[i]);
  }

  /** No call is admitted within the recovery time of an opening unless the circuit was
      reset in between. */
  lemma NoAdmissionBeforeRecovery(cfg: Config, events: seq<Event>, i: nat, j: nat)
    requires cfg.Valid() && ClockNeverRunsBack(events) && i < j < |events|
    requires Opens(cfg, After(cfg, events[..i]), events[i])
    requires AdmittedAt(cfg, events, j) && events[j].now < events[i].now + cfg.recoveryTimeout
    ensures exists k :: i < k < j && events[k].Reset?
  {
    if forall k :: i < k < j ==> !events[k].Reset? {
      assert events[j - 1].now <= events[j].now;
      StaysShut(cfg, events, i, j);
    }
  }

  // ----- Half-open episodes ----------------------------------------------------------------------

  function Bound(cfg: Config, e: Episode): int {
    cfg.halfOpenMaxCalls + cfg.successThreshold - 1 + e.cancelled
  }

  ghost predicate EpisodesBounded(cfg: Config, s: System) {
    && (forall e :: e in s.episodes ==> e.admitted <= Bound(cfg, e))
    && (s.b.phase.HalfOpen? ==>
          && s.episodes != []
          && s.b.inflight <= cfg.halfOpenMaxCalls
          && s.b.successes < cfg.successThreshold
          && Last(s.episodes).admitted <= s.b.inflight + s.b.successes + Last(s.episodes).cancelled)
  }

  lemma WithLastBounded(cfg: Config, episodes: seq<Episode>, e: Episode)
    requires forall x :: x in episodes ==> x.admitted <= Bound(cfg, x)
    requires e.admitted <= Bound(cfg, e)
    ensures forall x :: x in WithLast(episodes, e) ==> x.admitted <= Bound(cfg, x)
    ensures episodes != [] ==> WithLast(episodes, e) != [] && Last(WithLast(episodes, e)) == e
  {
    if episodes != [] {
      var front := episodes[..|episodes| - 1];
      forall x | x in front + [e] ensures x.admitted <= Bound(cfg, x) {
        if x in front { assert x in episodes; }
      }
    }
  }

  lemma RequestEpisodesBounded(cfg: Config, s: System, now: real)
    requires cfg.Valid() && EpisodesBounded(cfg, s)
    ensures EpisodesBounded(cfg, Requested(cfg, s, now))
  {
    var r := Recovered(cfg, s.b, now);
    var episodes := if r.phase != s.b.phase then s.episodes + [NEW_EPISODE] else s.episodes;
    if Admits(cfg, s.b, now) && r.phase.HalfOpen? {
      var e := Last(episodes);
      WithLastBounded(cfg, episodes, e.(admitted := e.admitted + 1));
    }
  }

  lemma CompletionEpisodesBounded(cfg: Config, s: System, id: nat, cancelled: bool)
    requires cfg.Valid() && EpisodesBounded(cfg, s) && s.b.phase.HalfOpen?
    ensures var next := Completed(s, id, cancelled);
      && next != [] && (forall e :: e in next ==> e.admitted <= Bound(cfg, e))
      && Last(next).admitted == Last(s.episodes).admitted
      && Last(next).cancelled == Last(s.episodes).cancelled + if cancelled then 1 else 0
  {
    assert Last(s.episodes) in s.episodes;
    WithLastBounded(cfg, s.episodes, Last(Completed(s, id, cancelled)));
  }

  lemma LossEpisodesBounded(cfg: Config, s: System, id: nat)
    requires cfg.Valid() && EpisodesBounded(cfg, s)
    ensures EpisodesBounded(cfg, LosesCall(s, id))
  {
    if s.b.phase.HalfOpen? && IsProbe(s, id) {
      assert Last(s.episodes) in s.episodes;
      WithLastBounded(cfg, s.episodes, Last(s.episodes).(lost := Last(s.episodes).lost + 1));
    }
  }

  lemma StepEpisodesBounded(cfg: Config, s: System, e: Event)
    requires cfg.Valid() && EpisodesBounded(cfg, s)
    ensures EpisodesBounded(cfg, Step(cfg, s, e))
  {
    match e
    case Request(now) => RequestEpisodesBounded(cfg, s, now);
    case Success(_, id) => if s.b.phase.HalfOpen? { CompletionEpisodesBounded(cfg, s, id, false); }
    case Failure(_, id) => if s.b.phase.HalfOpen? { CompletionEpisodesBounded(cfg, s, id, false); }
    case Cancelled(_, id) => if s.b.phase.HalfOpen? { CompletionEpisodesBounded(cfg, s, id, true); }
    case Lost(_, id) => LossEpisodesBounded(cfg, s, id);
    case _ =>
  }

  lemma {:induction false} RunEpisodesBounded(cfg: Config, events: seq<Event>)
    requires cfg.Valid()
    ensures EpisodesBounded(cfg, After(cfg, events))
  {
    if events != [] {
      RunEpisodesBounded(cfg, events[..|events| - 1]);
      StepEpisodesBounded(cfg, After(cfg, events[..|events| - 1]), events[|events| - 1]);
    }
  }

  /** One half-open episode admits at most halfOpenMaxCalls + successThreshold - 1 calls, plus
      one for each cancellation, whatever late completions arrive during it. */
  lemma EpisodeAdmissionsBounded(cfg: Config, events: seq<Event>, n: nat)
    requires cfg.Valid() && n < |After(cfg, events).episodes|
    ensures var e := After(cfg, events).episodes[n];
      e.admitted <= cfg.halfOpenMaxCalls + cfg.successThreshold - 1 + e.cancelled
  {
    RunEpisodesBounded(cfg, events);
    assert After(cfg, events).episodes[n] in After(cfg, events).episodes;
  }

  /** A half-open state whose only episode admitted all that the bound allows so far. */
  ghost predicate Tight(cfg: Config, s: System) {
    && cfg.Valid() && s.b.phase.HalfOpen? && |s.episodes| == 1 && s.nextId >= 1
    && s.episodes[0] == Episode(s.b.inflight + s.b.successes + s.episodes[0].cancelled, s.episodes[0].cancelled, 0, 0, 0, 0)
    && s.b.inflight <= cfg.halfOpenMaxCalls && s.b.successes < cfg.successThreshold
  }

  lemma TightRequest(cfg: Config, s: System, now: real)
    requires Tight(cfg, s) && s.b.inflight < cfg.halfOpenMaxCalls
    ensures var next := Step(cfg, s, Request(now));
      && Tight(cfg, next) && IsProbe(next, next.nextId - 1)
      && next.b == s.b.(inflight := s.b.inflight + 1)
      && next.episodes[0].cancelled == s.episodes[0].cancelled
  {
  }

  lemma TightSuccess(cfg: Config, s: System, now: real)
    requires Tight(cfg, s) && s.b.inflight > 0 && IsProbe(s, s.nextId - 1)
    requires s.b.successes + 1 < cfg.successThreshold
    ensures var next := Step(cfg, s, Success(now, s.nextId - 1));
      && Tight(cfg, next)
      && next.b == s.b.(inflight := s.b.inflight - 1, successes := s.b.successes + 1)
      && next.episodes[0].cancelled == s.episodes[0].cancelled
  {
  }

  lemma TightCancelled(cfg: Config, s: System, now: real)
    requires Tight(cfg, s) && s.b.inflight > 0 && IsProbe(s, s.nextId - 1)
    ensures var next := Step(cfg, s, Cancelled(now, s.nextId - 1));
      && Tight(cfg, next)
      && next.b == s.b.(inflight := s.b.inflight - 1)
      && next.episodes[0].cancelled == s.episodes[0].cancelled + 1
  {
  }

  /** `events`, all at or before `now`, lead to `s`.  The run is read at its end index, so that
      it is unfolded only where that index is mentioned. */
  ghost predicate Reaches(cfg: Config, events: seq<Event>, s: System, now: real)
    requires cfg.Valid()
  {
    && (forall n :: |events| <= n <= |events| ==> After(cfg, events[..n]) == s && ClockNeverRunsBack(events[..n]))
    && (forall e :: e in events ==> e.now <= now)
  }

  lemma ReachedRun(cfg: Config, events: seq<Event>, s: System, now: real)
    requires cfg.Valid() && Reaches(cfg, events, s, now)
    ensures After(cfg, events) == s && ClockNeverRunsBack(events)
  {
    assert events[..|events|] == events;
  }

  lemma ReachNext(cfg: Config, events: seq<Event>, s: System, e: Event)
    requires cfg.Valid() && Reaches(cfg, events, s, e.now)
    ensures Reaches(cfg, events + [e], Step(cfg, s, e), e.now)
  {
    ReachedRun(cfg, events, s, e.now);
    AfterAppend(cfg, events, e);
    assert (events + [e])[..|events + [e]|] == events + [e];
    assert forall i :: 0 <= i < |events| ==> events[i] in events;
  }

  /** One more admission. */
  lemma AdmitOne(cfg: Config, before: seq<Event>, start: System, now: real) returns (events: seq<Event>, s: System)
    requires Tight(cfg, start) && Reaches(cfg, before, start, now) && start.b.inflight < cfg.halfOpenMaxCalls
    ensures Tight(cfg, s) && Reaches(cfg, events, s, now) && IsProbe(s, s.nextId - 1)
    ensures s.b == start.b.(inflight := start.b.inflight + 1)
    ensures s.episodes[0].cancelled == start.episodes[0].cancelled
  {
    TightRequest(cfg, start, now);
    ReachNext(cfg, before, start, Request(now));
    events, s := before + [Request(now)], Step(cfg, start, Request(now));
  }

  /** The latest probe succeeds or is cancelled, and another call takes its place. */
  lemma ReplaceOne(cfg: Config, before: seq<Event>, start: System, now: real, cancelled: bool)
    returns (events: seq<Event>, s: System)
    requires Tight(cfg, start) && Reaches(cfg, before, start, now) && IsProbe(start, start.nextId - 1)
    requires start.b.inflight == cfg.halfOpenMaxCalls
    requires !cancelled ==> start.b.successes + 1 < cfg.successThreshold
    ensures Tight(cfg, s) && Reaches(cfg, events, s, now) && IsProbe(s, s.nextId - 1)
    ensures s.b.inflight == cfg.halfOpenMaxCalls
    ensures s.b.successes == start.b.successes + if cancelled then 0 else 1
    ensures s.episodes[0].cancelled == start.episodes[0].cancelled + if cancelled then 1 else 0
  {
    var e;
    if cancelled {
      TightCancelled(cfg, start, now);
      e := Cancelled(now, start.nextId - 1);
    } else {
      TightSuccess(cfg, start, now);
      e := Success(now, start.nextId - 1);
    }
    ReachNext(cfg, before, start, e);
    events, s := AdmitOne(cfg, before + [e], Step(cfg, start, e), now);
  }

  lemma OpenEpisode(cfg: Config) returns (events: seq<Event>, s: System)
    requires cfg.Valid()
    ensures Tight(cfg, s) && Reaches(cfg, events, s, cfg.recoveryTimeout) && IsProbe(s, s.nextId - 1)
    ensures s.b.inflight == 1 && s.b.successes == 0 && s.episodes[0].cancelled == 0
  {
    var trip, request := Trip(0.0), Request(cfg.recoveryTimeout);
    var tripped := START.(b := Opened(INITIAL, 0.0));
    assert Step(cfg, START, trip) == tripped;
    ReachNext(cfg, [], START, trip);
    ReachNext(cfg, [] + [trip], tripped, request);
    events, s := [] + [trip] + [request], Step(cfg, tripped, request);
  }

  /** The bound cannot be lowered: for every configuration and every number of cancellations
      some run, without any late completion, admits exactly that many calls in one episode. */
  lemma EpisodeBoundReached(cfg: Config, cancellations: nat) returns (events: seq<Event>)
    requires cfg.Valid()
    ensures ClockNeverRunsBack(events)
    ensures var episodes := After(cfg, events).episodes;
      && |episodes| == 1 && episodes[0].cancelled == cancellations && episodes[0].late == 0
      && episodes[0].admitted == cfg.halfOpenMaxCalls + cfg.successThreshold - 1 + cancellations
  {
    var now := cfg.recoveryTimeout;
    var s;
    events, s := OpenEpisode(cfg);
    while s.b.inflight < cfg.halfOpenMaxCalls
      invariant Tight(cfg, s) && Reaches(cfg, events, s, now) && IsProbe(s, s.nextId - 1)
      invariant s.b.successes == 0 && s.episodes[0].cancelled == 0
      decreases cfg.halfOpenMaxCalls - s.b.inflight
    {
      events, s := AdmitOne(cfg, events, s, now);
    }
    while s.b.successes + 1 < cfg.successThreshold
      invariant Tight(cfg, s) && Reaches(cfg, events, s, now) && IsProbe(s, s.nextId - 1)
      invariant s.b.inflight == cfg.halfOpenMaxCalls && s.episodes[0].cancelled == 0
      decreases cfg.successThreshold - s.b.successes
    {
      events, s := ReplaceOne(cfg, events, s, now, false);
    }
    while s.episodes[0].cancelled < cancellations
      invariant Tight(cfg, s) && Reaches(cfg, events, s, now) && IsProbe(s, s.nextId - 1)
      invariant s.b.inflight == cfg.halfOpenMaxCalls && s.b.successes + 1 == cfg.successThreshold
      invariant s.episodes[0].cancelled <= cancellations
      decreases cancellations - s.episodes[0].cancelled
    {
      events, s := ReplaceOne(cfg, events, s, now, true);
    }
    ReachedRun(cfg, events, s, now);
  }

  // ----- Live probes ----------------------------------------------------------------------------------

  function Probes(s: System): set<nat> {
    set id | id in s.live && s.live[id] == |s.episodes|
  }

  ghost predicate Balanced(s: System) {
    var e := Last(s.episodes);
    && s.episodes != []
    && |Probes(s)| == s.b.inflight + e.freed - e.starved - e.lost
    && e.starved <= e.freed <= e.late
  }

  ghost predicate ProbesCounted(s: System) {
    && (forall id :: id in s.live ==> id < s.nextId && s.live[id] <= |s.episodes|)
    && (s.b.phase.HalfOpen? ==> Balanced(s))
  }

  lemma CompletionProbes(s: System, next: System, id: nat, cancelled: bool)
    requires ProbesCounted(s) && s.b.phase.HalfOpen?
    requires next.live == s.live - {id} && next.nextId == s.nextId
    requires next.episodes == Completed(s, id, cancelled)
    requires next.b.phase.HalfOpen? ==> next.b.inflight == Decremented(s.b.inflight)
    ensures ProbesCounted(next)
  {
    assert |next.episodes| == |s.episodes|;
    if IsProbe(s, id) {
      assert Probes(next) == Probes(s) - {id};
      assert id in Probes(s);
    } else {
      assert Probes(next) == Probes(s);
    }
  }

  lemma RequestProbes(cfg: Config, s: System, now: real)
    requires ProbesCounted(s)
    ensures ProbesCounted(Requested(cfg, s, now))
  {
    var r := Recovered(cfg, s.b, now);
    var next := Requested(cfg, s, now);
    if r.phase.HalfOpen? && Admits(cfg, s.b, now) {
      if r.phase != s.b.phase {
        assert Probes(next) == {s.nextId};
      } else {
        assert Probes(next) == Probes(s) + {s.nextId};
        assert s.nextId !in Probes(s);
      }
    }
  }

  lemma LossProbes(s: System, id: nat)
    requires ProbesCounted(s)
    ensures ProbesCounted(LosesCall(s, id))
  {
    var next := LosesCall(s, id);
    assert |next.episodes| == |s.episodes|;
    if IsProbe(s, id) {
      assert Probes(next) == Probes(s) - {id} && id in Probes(s);
    } else {
      assert Probes(next) == Probes(s);
    }
  }

  lemma StepProbes(cfg: Config, s: System, e: Event)
    requires cfg.Valid() && ProbesCounted(s)
    ensures ProbesCounted(Step(cfg, s, e))
  {
    match e
    case Request(now) => RequestProbes(cfg, s, now);
    case Success(_, id) => if s.b.phase.HalfOpen? { CompletionProbes(s, Step(cfg, s, e), id, false); }
    case Failure(_, id) => if s.b.phase.HalfOpen? { CompletionProbes(s, Step(cfg, s, e), id, false); }
    case Cancelled(_, id) => if s.b.phase.HalfOpen? { CompletionProbes(s, Step(cfg, s, e), id, true); }
    case Lost(_, id) => LossProbes(s, id);
    case TurnEmitted(_, id) => assert Probes(Step(cfg, s, e)) == Probes(s);
    case _ =>
  }

  /** By how much the in-flight counter misses the number of live probes, exactly: live probes
      are the counter, plus the late completions that freed a slot, minus the probes that ended
      when the counter was zero, minus the calls that were lost while they emitted the turn.
      Without a late completion they are the counter less the lost ones. */
  lemma {:induction false} InflightVersusLiveProbes(cfg: Config, events: seq<Event>)
    requires cfg.Valid()
    ensures ProbesCounted(After(cfg, events))
    ensures var s := After(cfg, events);
      s.b.phase.HalfOpen? ==>
        var e := Last(s.episodes);
        && s.episodes != []
        && |Probes(s)| == s.b.inflight + e.freed - e.starved - e.lost
        && s.b.inflight - e.lost <= |Probes(s)| <= s.b.inflight - e.lost + e.late
        && (e.late == 0 ==> |Probes(s)| == s.b.inflight - e.lost)
  {
    if events != [] {
      InflightVersusLiveProbes(cfg, events[..|events| - 1]);
      StepProbes(cfg, After(cfg, events[..|events| - 1]), events[|events| - 1]);
    }
  }

  // ----- A lost call ------------------------------------------------------------------------------------

  ghost predicate TurnsOk(s: System) {
    && (forall id :: id in s.live ==> id < s.nextId && s.live[id] <= |s.episodes|)
    && (forall id :: id in s.turning ==> id in s.live && s.live[id] >= 1)
    && (forall id, other :: id in s.turning && other in s.turning && s.live[id] == s.live[other] ==> id == other)
    && (forall e :: e in s.episodes ==> e.lost <= 1)
    && (forall id :: id in s.turning && s.live[id] == |s.episodes| ==> Last(s.episodes).lost == 0)
  }

  lemma WithLastLost(episodes: seq<Episode>, e: Episode)
    requires (forall x :: x in episodes ==> x.lost <= 1) && e.lost <= 1
    ensures |WithLast(episodes, e)| == |episodes| && forall x :: x in WithLast(episodes, e) ==> x.lost <= 1
    ensures episodes != [] ==> Last(WithLast(episodes, e)) == e
  {
    if episodes != [] {
      var front := episodes[..|episodes| - 1];
      forall x | x in front + [e] ensures x.lost <= 1 {
        if x in front { assert x in episodes; }
      }
    }
  }

  lemma CompletionTurns(s: System, id: nat, cancelled: bool)
    requires TurnsOk(s)
    ensures var next := Completed(s, id, cancelled);
      |next| == |s.episodes| && Last(next).lost == Last(s.episodes).lost && forall x :: x in next ==> x.lost <= 1
  {
    if s.b.phase.HalfOpen? && s.episodes != [] {
      assert Last(s.episodes) in s.episodes;
      WithLastLost(s.episodes, Last(Completed(s, id, cancelled)));
    }
  }

  lemma RequestTurns(cfg: Config, s: System, now: real)
    requires cfg.Valid() && TurnsOk(s)
    ensures TurnsOk(Requested(cfg, s, now))
  {
    var r := Recovered(cfg, s.b, now);
    if r.phase != s.b.phase {
      TurnTurns(cfg, s, now);
    } else if Admits(cfg, s.b, now) && r.phase.HalfOpen? {
      var e := Last(s.episodes);
      assert s.episodes != [] ==> e in s.episodes;
      WithLastLost(s.episodes, e.(admitted := e.admitted + 1));
    }
  }

  lemma TurnTurns(cfg: Config, s: System, now: real)
    requires cfg.Valid() && TurnsOk(s) && Recovered(cfg, s.b, now).phase != s.b.phase
    ensures TurnsOk(Requested(cfg, s, now))
  {
    var first := NEW_EPISODE.(admitted := 1);
    var next := Requested(cfg, s, now);
    assert next.episodes == s.episodes + [first];
    assert next.turning == s.turning + {s.nextId} && s.nextId !in s.turning;
    assert next.live == s.live[s.nextId := |s.episodes| + 1];
  }

  lemma LossTurns(s: System, id: nat)
    requires TurnsOk(s) && id in s.turning
    ensures TurnsOk(LosesCall(s, id))
  {
    if s.b.phase.HalfOpen? && IsProbe(s, id) {
      WithLastLost(s.episodes, Last(s.episodes).(lost := Last(s.episodes).lost + 1));
    }
  }

  lemma StepTurns(cfg: Config, s: System, e: Event)
    requires cfg.Valid() && TurnsOk(s)
    ensures TurnsOk(Step(cfg, s, e))
  {
    match e
    case Request(now) => RequestTurns(cfg, s, now);
    case Success(_, id) => CompletionTurns(s, id, false);
    case Failure(_, id) => CompletionTurns(s, id, false);
    case Cancelled(_, id) => CompletionTurns(s, id, true);
    case Lost(_, id) => if id in s.turning { LossTurns(s, id); }
    case _ =>
  }

  lemma {:induction false} RunTurns(cfg: Config, events: seq<Event>)
    requires cfg.Valid()
    ensures TurnsOk(After(cfg, events))
    decreases |events|
  {
    if events != [] {
      RunTurns(cfg, events[..|events| - 1]);
      StepTurns(cfg, After(cfg, events[..|events| - 1]), events[|events| - 1]);
    }
  }

  /** At most one call is lost in an episode, the one that began it; its slot is lost with it: from
      then on, without a late completion, one probe less than the maximum can be live. */
  lemma OneSlotLost(cfg: Config, events: seq<Event>, n: nat)
    requires cfg.Valid() && n < |After(cfg, events).episodes|
    ensures var s := After(cfg, events);
      && s.episodes[n].lost <= 1
      && (s.b.phase.HalfOpen? && Last(s.episodes).late == 0 ==> |Probes(s)| <= cfg.halfOpenMaxCalls - Last(s.episodes).lost)
  {
    RunTurns(cfg, events);
    RunEpisodesBounded(cfg, events);
    InflightVersusLiveProbes(cfg, events);
    assert After(cfg, events).episodes[n] in After(cfg, events).episodes;
  }

  /** Half-open, every slot taken, and no probe to give one back. */
  ghost predicate Jammed(cfg: Config, s: System) {
    s.b.phase.HalfOpen? && s.b.inflight >= cfg.halfOpenMaxCalls && Probes(s) == {}
  }

  /** From every state of every run whose open circuit has recovered, the loss of the call that
      turns it leaves a circuit of one probe, the stock configuration, jammed. */
  lemma LossJams(cfg: Config, events: seq<Event>, now: real)
    requires cfg.Valid() && cfg.halfOpenMaxCalls == 1
    requires var b := After(cfg, events).b; b.phase.Open? && Recovered(cfg, b, now).phase.HalfOpen?
    ensures var id := After(cfg, events).nextId;
      var s := After(cfg, events + [Request(now)] + [Lost(now, id)]);
      Jammed(cfg, s) && Last(s.episodes).lost == 1 && Last(s.episodes).late == 0
  {
    var s := After(cfg, events);
    InflightVersusLiveProbes(cfg, events);
    AfterAppend(cfg, events, Request(now));
    AfterAppend(cfg, events + [Request(now)], Lost(now, s.nextId));
    var turned := Step(cfg, s, Request(now));
    RequestProbes(cfg, s, now);
    assert s.nextId in turned.turning && IsProbe(turned, s.nextId) && turned.b.inflight == 1;
    LossProbes(turned, s.nextId);
  }

  /** The event can end a jam: the circuit is tripped or reset, or a call from before completes. */
  predicate Unjams(e: Event) {
    e.Trip? || e.Reset? || e.Success? || e.Failure? || e.Cancelled?
  }

  lemma StepJammed(cfg: Config, s: System, e: Event)
    requires cfg.Valid() && Jammed(cfg, s) && !Unjams(e)
    ensures Jammed(cfg, Step(cfg, s, e)) && Step(cfg, s, e).b == s.b && Step(cfg, s, e).nextId == s.nextId
    ensures !Admits(cfg, s.b, e.now)
  {
    var next := Step(cfg, s, e);
    assert |next.episodes| == |s.episodes|;
    assert Probes(next) <= Probes(s);
  }

  /** A jammed circuit admits no call at all, however much time passes, until it is tripped or
      reset or a late completion arrives. */
  lemma {:induction false} JammedUntil(cfg: Config, events: seq<Event>, i: nat, j: nat)
    requires cfg.Valid() && i <= j < |events| && Jammed(cfg, After(cfg, events[..i]))
    requires forall k :: i <= k < j ==> !Unjams(events[k])
    ensures Jammed(cfg, After(cfg, events[..j])) && !AdmittedAt(cfg, events, j)
    decreases j
  {
    if i < j {
      JammedUntil(cfg, events, i, j - 1);
      AfterPrefix(cfg, events, j - 1);
      StepJammed(cfg, After(cfg, events[..j - 1]), events[j - 1]);
    }
    JammedRefuses(cfg, After(cfg, events[..j]), events[j].now);
  }

  lemma JammedRefuses(cfg: Config, s: System, now: real)
    requires cfg.Valid() && Jammed(cfg, s)
    ensures !Admits(cfg, s.b, now)
  {
  }

  /** Conversely each of these events does end it: after a reset, or a late completion that is no
      failure, the next call is admitted, and after a trip or a late failure the next call once
      the recovery time has passed. */
  lemma JamEnded(cfg: Config, s: System, e: Event, now: real)
    requires cfg.Valid() && Jammed(cfg, s) && s.b.inflight == cfg.halfOpenMaxCalls && Unjams(e) && e.now <= now
    ensures Admits(cfg, Step(cfg, s, e).b, now) <==>
      e.Reset? || e.Success? || e.Cancelled? || now >= e.now + cfg.recoveryTimeout
  {
  }

  lemma LateSteps(cfg: Config, s: System)
    requires cfg.Valid() && cfg.recoveryTimeout == 0.0 && cfg.halfOpenMaxCalls == 1 && cfg.successThreshold == 2
    requires s == System(Opened(INITIAL, 0.0), map[0 := 0], 1, [], [], {})
    ensures Step(cfg, START.(b := INITIAL), Request(0.0)) == s.(b := INITIAL)
    ensures Step(cfg, s, Request(0.0))
         == System(Breaker(HalfOpen, [], 0, Some(0.0), 1, 0), map[0 := 0, 1 := 1], 2, [Episode(1, 0, 0, 0, 0, 0)], [], {1})
  {
  }

  lemma LateCompletion(cfg: Config, s: System)
    requires cfg.Valid() && cfg.recoveryTimeout == 0.0 && cfg.halfOpenMaxCalls == 1 && cfg.successThreshold == 2
    requires s == System(Breaker(HalfOpen, [], 0, Some(0.0), 1, 0), map[0 := 0, 1 := 1], 2, [Episode(1, 0, 0, 0, 0, 0)], [], {1})
    ensures Step(cfg, s, Success(0.0, 0))
         == System(Breaker(HalfOpen, [], 0, Some(0.0), 0, 1), map[1 := 1], 2, [Episode(1, 0, 1, 1, 0, 0)], [], {1})
  {
    assert s.live - {0} == map[1 := 1];
  }

  lemma LateAdmission(cfg: Config, s: System)
    requires cfg.Valid() && cfg.recoveryTimeout == 0.0 && cfg.halfOpenMaxCalls == 1 && cfg.successThreshold == 2
    requires s == System(Breaker(HalfOpen, [], 0, Some(0.0), 0, 1), map[1 := 1], 2, [Episode(1, 0, 1, 1, 0, 0)], [], {1})
    ensures var next := Step(cfg, s, Request(0.0));
      next.b.phase.HalfOpen? && next.b.inflight == 1 && Probes(next) == {1, 2}
  {
    assert Step(cfg, s, Request(0.0)).live == map[1 := 1, 2 := 1];
  }

  /** A call admitted while closed completes during the episode and frees a slot it never
      held: two probes are live although one is the configured maximum. */
  lemma LateCompletionAdmitsExtraProbe() returns (cfg: Config, events: seq<Event>)
    ensures cfg.Valid() && cfg.halfOpenMaxCalls == 1 && ClockNeverRunsBack(events)
    ensures var s := After(cfg, events); s.b.phase.HalfOpen? && s.b.inflight == 1 && |Probes(s)| == 2
  {
    cfg := Config(5, 0.0, 1, 2, 5, 5, None);
    var tripped := System(Opened(INITIAL, 0.0), map[0 := 0], 1, [], [], {});
    var probing := System(Breaker(HalfOpen, [], 0, Some(0.0), 1, 0), map[0 := 0, 1 := 1], 2, [Episode(1, 0, 0, 0, 0, 0)], [], {1});
    var freed := System(Breaker(HalfOpen, [], 0, Some(0.0), 0, 1), map[1 := 1], 2, [Episode(1, 0, 1, 1, 0, 0)], [], {1});
    LateSteps(cfg, tripped);
    LateCompletion(cfg, probing);
    LateAdmission(cfg, freed);
    ReachNext(cfg, [], START, Request(0.0));
    events := [] + [Request(0.0)];
    ReachNext(cfg, events, tripped.(b := INITIAL), Trip(0.0));
    events := events + [Trip(0.0)];
    ReachNext(cfg, events, tripped, Request(0.0));
    events := events + [Request(0.0)];
    ReachNext(cfg, events, probing, Success(0.0, 0));
    events := events + [Success(0.0, 0)];
    ReachNext(cfg, events, freed, Request(0.0));
    events := events + [Request(0.0)];
    ReachedRun(cfg, events, Step(cfg, freed, Request(0.0)), 0.0);
  }
}
