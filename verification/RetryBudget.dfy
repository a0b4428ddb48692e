/** The sliding-window retry budget: a deque of grant times that is trimmed on
    every call.  The deque forgets expired grants, so the promise "at most
    `maxRetries` grants in any window" is about a history the object no longer
    holds.  A run therefore carries the whole history of grants beside the deque. */
module RetryBudgets {

  // ----- The deque operations ---------------------------------------------

  /** What the trimming loop leaves: leading entries at or before the cutoff go. */
  function Trim(uses: seq<real>, cutoff: real): seq<real> {
    if uses != [] && uses[0] <= cutoff then Trim(uses[1..], cutoff) else uses
  }

  class RetryBudget {
    const maxRetries: nat
    const window: real
    var uses: seq<real>

    constructor (maxRetries: nat, window: real)
      requires window > 0.0
      ensures this.maxRetries == maxRetries && this.window == window && uses == []
    {
      this.maxRetries, this.window, uses := maxRetries, window, [];
    }

    method TryConsume(now: real) returns (granted: bool)
      modifies this
      ensures granted == (|Trim(old(uses), now - window)| < maxRetries)
      ensures uses == Trim(old(uses), now - window) + (if granted then [now] else [])
    {
      var cutoff := now - window;
      while uses != [] && uses[0] <= cutoff
        invariant Trim(uses, cutoff) == Trim(old(uses), cutoff)
        decreases |uses|
      {
        uses := uses[1..];
      }
      if |uses| >= maxRetries {
        return false;
      }
      uses := uses + [now];
      return true;
    }

    method Remaining(now: real) returns (tokens: nat)
      modifies this
      ensures uses == Trim(old(uses), now - window)
      ensures tokens == if |uses| < maxRetries then maxRetries - |uses| else 0
    {
      var cutoff := now - window;
      while uses != [] && uses[0] <= cutoff
        invariant Trim(uses, cutoff) == Trim(old(uses), cutoff)
        decreases |uses|
      {
        uses := uses[1..];
      }
      tokens := if maxRetries - |uses| > 0 then maxRetries - |uses| else 0;
    }

    method Reset()
      modifies this
      ensures uses == []
    {
      uses := [];
    }
  }

  // ----- Runs ---------------------------------------------------------------

  datatype Call = TryConsume(now: real) | Remaining(now: real)

  /** `uses` is the deque; `grants` is every grant ever made, oldest first. */
  datatype Run = Run(uses: seq<real>, grants: seq<real>)

  function Step(max: nat, window: real, r: Run, call: Call): Run {
    Decided(max, Run(Trim(r.uses, call.now - window), r.grants), call)
  }

  /** The call once the deque has been trimmed. */
  function Decided(max: nat, trimmed: Run, call: Call): Run {
    if call.TryConsume? && |trimmed.uses| < max then Run(trimmed.uses + [call.now], trimmed.grants + [call.now]) else trimmed
  }

  function After(max: nat, window: real, calls: seq<Call>): Run {
    if calls == [] then Run([], [])
    else Step(max, window, After(max, window, calls[..|calls| - 1]), calls[|calls| - 1])
  }

  /** Whether a request made after `calls` at time `now` would be granted. */
  predicate Granted(max: nat, window: real, calls: seq<Call>, now: real) {
    |Trim(After(max, window, calls).uses, now - window)| < max
  }

  ghost predicate ClockNeverRunsBack(calls: seq<Call>) {
    forall i, j :: 0 <= i < j < |calls| ==> calls[i].now <= calls[j].now
  }

  /** The independent reading of the limit: grants in the interval (lo, hi]. */
  function CountIn(grants: seq<real>, lo: real, hi: real): nat {
    if grants == [] then 0
    else CountIn(grants[..|grants| - 1], lo, hi) + if lo < grants[|grants| - 1] <= hi then 1 else 0
  }

  // ----- Counting -------------------------------------------------------------

  lemma {:induction false} CountConcat(a: seq<real>, b: seq<real>, lo: real, hi: real)
    ensures CountIn(a + b, lo, hi) == CountIn(a, lo, hi) + CountIn(b, lo, hi)
    decreases |b|
  {
    if b == [] {
      assert a + b == a;
    } else {
      var n := |b| - 1;
      assert (a + b)[..|a + b| - 1] == a + b[..n];
      CountConcat(a, b[..n], lo, hi);
    }
  }

  lemma {:induction false} CountOutside(s: seq<real>, lo: real, hi: real)
    requires forall i :: 0 <= i < |s| ==> !(lo < s[i] <= hi)
    ensures CountIn(s, lo, hi) == 0
  {
    if s != [] { CountOutside(s[..|s| - 1], lo, hi); }
  }

  lemma {:induction false} CountInside(s: seq<real>, lo: real, hi: real)
    requires forall i :: 0 <= i < |s| ==> lo < s[i] <= hi
    ensures CountIn(s, lo, hi) == |s|
  {
    if s != [] { CountInside(s[..|s| - 1], lo, hi); }
  }

  lemma {:induction false} CountAtMostLength(s: seq<real>, lo: real, hi: real)
    ensures CountIn(s, lo, hi) <= |s|
  {
    if s != [] { CountAtMostLength(s[..|s| - 1], lo, hi); }
  }

  // ----- The run invariant ------------------------------------------------------

  ghost predicate NoneEarlierAfter(s: seq<real>, i: nat) {
    forall j :: i < j < |s| ==> s[i] <= s[j]
  }

  ghost predicate Sorted(s: seq<real>) {
    forall i: nat :: i < |s| ==> NoneEarlierAfter(s, i)
  }

  /** The grants at least `max` places after this one come at least a window later. */
  ghost predicate SpacedAt(grants: seq<real>, i: nat, max: nat, window: real) {
    forall j :: i + max <= j < |grants| ==> grants[i] + window <= grants[j]
  }

  /** Grants at least `max` apart in the history are at least a window apart in time. */
  ghost predicate Spaced(grants: seq<real>, max: nat, window: real) {
    forall i: nat :: i < |grants| ==> SpacedAt(grants, i, max, window)
  }

  /** The history up to `gone` had expired by `lo`, and the rest had not. */
  ghost predicate Splits(grants: seq<real>, gone: nat, lo: real) {
    && gone <= |grants|
    && (forall i :: 0 <= i < gone ==> grants[i] <= lo)
    && (forall i :: gone <= i < |grants| ==> grants[i] > lo)
  }

  /** The deque is the tail of the history, and what it forgot had expired by `clock`. */
  ghost predicate Consistent(r: Run, max: nat, window: real, clock: real) {
    && |r.uses| <= |r.grants| && |r.uses| <= max
    && r.uses == r.grants[|r.grants| - |r.uses|..]
    && Sorted(r.grants)
    && (forall i :: 0 <= i < |r.grants| ==> r.grants[i] <= clock)
    && (forall i :: 0 <= i < |r.grants| - |r.uses| ==> r.grants[i] <= clock - window)
    && Spaced(r.grants, max, window)
  }

  lemma SortedTail(s: seq<real>, from: nat)
    requires from <= |s| && Sorted(s)
    ensures Sorted(s[from..])
  {
    forall i: nat | i < |s| - from ensures NoneEarlierAfter(s[from..], i) {
      assert NoneEarlierAfter(s, from + i);
    }
  }

  lemma {:induction false} TrimKeepsTheUnexpired(uses: seq<real>, cutoff: real)
    requires Sorted(uses)
    ensures var kept := Trim(uses, cutoff);
      |kept| <= |uses| && kept == uses[|uses| - |kept|..] && Splits(uses, |uses| - |kept|, cutoff)
    decreases |uses|
  {
    if uses == [] {
    } else if uses[0] <= cutoff {
      SortedTail(uses, 1);
      TrimKeepsTheUnexpired(uses[1..], cutoff);
      var kept := Trim(uses[1..], cutoff);
      assert kept == uses[1..][|uses| - 1 - |kept|..] == uses[|uses| - |kept|..];
      assert forall i :: 1 <= i < |uses| ==> uses[i] == uses[1..][i - 1];
    } else {
      assert NoneEarlierAfter(uses, 0);
    }
  }

  /** Trimming extends the forgotten part of the history by expired grants only. */
  lemma TrimSplitsHistory(uses: seq<real>, grants: seq<real>, kept: seq<real>, cutoff: real)
    requires |uses| <= |grants| && uses == grants[|grants| - |uses|..]
    requires forall i :: 0 <= i < |grants| - |uses| ==> grants[i] <= cutoff
    requires |kept| <= |uses| && kept == uses[|uses| - |kept|..] && Splits(uses, |uses| - |kept|, cutoff)
    ensures kept == grants[|grants| - |kept|..] && Splits(grants, |grants| - |kept|, cutoff)
  {
    var early := |grants| - |uses|;
    assert forall i :: early <= i < |grants| ==> grants[i] == uses[i - early];
  }

  lemma TailCounts(grants: seq<real>, gone: nat, lo: real, hi: real)
    requires Splits(grants, gone, lo)
    requires forall i :: 0 <= i < |grants| ==> grants[i] <= hi
    ensures CountIn(grants, lo, hi) == |grants| - gone
  {
    CountOutside(grants[..gone], lo, hi);
    CountInside(grants[gone..], lo, hi);
    CountConcat(grants[..gone], grants[gone..], lo, hi);
    assert grants == grants[..gone] + grants[gone..];
  }

  lemma KeptConsistent(r: Run, kept: seq<real>, max: nat, window: real, clock: real, now: real)
    requires clock <= now && Consistent(r, max, window, clock)
    requires |kept| <= |r.uses| && kept == r.grants[|r.grants| - |kept|..]
    requires Splits(r.grants, |r.grants| - |kept|, now - window)
    ensures Consistent(Run(kept, r.grants), max, window, now)
    ensures |kept| == CountIn(r.grants, now - window, now)
  {
    TailCounts(r.grants, |r.grants| - |kept|, now - window, now);
  }

  lemma TrimmedConsistent(r: Run, max: nat, window: real, clock: real, now: real)
    requires window > 0.0 && clock <= now && Consistent(r, max, window, clock)
    ensures var kept := Trim(r.uses, now - window);
      && Consistent(Run(kept, r.grants), max, window, now)
      && |kept| == CountIn(r.grants, now - window, now)
  {
    TrimmedTail(r, max, window, clock, now);
    KeptConsistent(r, Trim(r.uses, now - window), max, window, clock, now);
  }

  lemma TrimmedTail(r: Run, max: nat, window: real, clock: real, now: real)
    requires window > 0.0 && clock <= now && Consistent(r, max, window, clock)
    ensures var kept := Trim(r.uses, now - window);
      |kept| <= |r.uses| && kept == r.grants[|r.grants| - |kept|..] && Splits(r.grants, |r.grants| - |kept|, now - window)
  {
    SortedTail(r.grants, |r.grants| - |r.uses|);
    TrimKeepsTheUnexpired(r.uses, now - window);
    TrimSplitsHistory(r.uses, r.grants, Trim(r.uses, now - window), now - window);
  }

  lemma GrantConsistent(r: Run, max: nat, window: real, now: real)
    requires |r.uses| < max && Consistent(r, max, window, now)
    ensures Consistent(Run(r.uses + [now], r.grants + [now]), max, window, now)
  {
    var next := r.grants + [now];
    assert r.uses + [now] == next[|next| - |r.uses + [now]|..];
    forall i: nat | i < |next| ensures NoneEarlierAfter(next, i) && SpacedAt(next, i, max, window) {
      if i < |r.grants| {
        assert NoneEarlierAfter(r.grants, i) && SpacedAt(r.grants, i, max, window);
      }
    }
  }

  lemma StepConsistent(r: Run, max: nat, window: real, clock: real, call: Call)
    requires window > 0.0 && clock <= call.now && Consistent(r, max, window, clock)
    ensures Consistent(Step(max, window, r, call), max, window, call.now)
  {
    TrimmedConsistent(r, max, window, clock, call.now);
    DecidedConsistent(max, Run(Trim(r.uses, call.now - window), r.grants), window, call);
  }

  lemma DecidedConsistent(max: nat, trimmed: Run, window: real, call: Call)
    requires Consistent(trimmed, max, window, call.now)
    ensures Consistent(Decided(max, trimmed, call), max, window, call.now)
  {
    if call.TryConsume? && |trimmed.uses| < max {
      GrantConsistent(trimmed, max, window, call.now);
    }
  }

  lemma {:induction false} RunConsistent(max: nat, window: real, calls: seq<Call>, clock: real)
    requires window > 0.0 && ClockNeverRunsBack(calls)
    requires calls != [] ==> calls[|calls| - 1].now <= clock
    ensures Consistent(After(max, window, calls), max, window, clock)
    decreases |calls|
  {
    if calls != [] {
      var last := calls[|calls| - 1];
      var before := calls[..|calls| - 1];
      RunConsistent(max, window, before, last.now);
      StepConsistent(After(max, window, before), max, window, last.now, last);
    }
  }

  lemma TailBoundsCount(grants: seq<real>, max: nat, lo: real, hi: real)
    requires max <= |grants|
    requires forall i :: 0 <= i < |grants| - max ==> grants[i] <= lo
    ensures CountIn(grants, lo, hi) <= max
  {
    var far, near := grants[..|grants| - max], grants[|grants| - max..];
    assert grants == far + near;
    CountOutside(far, lo, hi);
    CountConcat(far, near, lo, hi);
    CountAtMostLength(near, lo, hi);
  }

  lemma {:induction false} SpacedBoundsEveryWindow(grants: seq<real>, max: nat, window: real, x: real)
    requires Spaced(grants, max, window)
    ensures CountIn(grants, x - window, x) <= max
    decreases |grants|
  {
    if |grants| <= max {
      CountAtMostLength(grants, x - window, x);
    } else if grants[|grants| - 1] > x {
      var older := grants[..|grants| - 1];
      forall i: nat | i < |older| ensures SpacedAt(older, i, max, window) {
        assert SpacedAt(grants, i, max, window);
      }
      SpacedBoundsEveryWindow(older, max, window, x);
    } else {
      forall i: nat | i < |grants| - max ensures grants[i] <= x - window {
        assert SpacedAt(grants, i, max, window);
      }
      TailBoundsCount(grants, max, x - window, x);
    }
  }

  // ----- Main results -------------------------------------------------------------

  /** Any interval (x - window, x], anywhere in the whole history, holds at most
      `max` grants, although the deque has forgotten most of that history. */
  lemma EveryWindowWithinBudget(max: nat, window: real, calls: seq<Call>, x: real)
    requires window > 0.0 && ClockNeverRunsBack(calls)
    ensures CountIn(After(max, window, calls).grants, x - window, x) <= max
  {
    RunConsistent(max, window, calls, if calls == [] then 0.0 else calls[|calls| - 1].now);
    SpacedBoundsEveryWindow(After(max, window, calls).grants, max, window, x);
  }

  /** A request is refused exactly when the last window of the full history is full. */
  lemma RefusedIffWindowFull(max: nat, window: real, calls: seq<Call>, now: real)
    requires window > 0.0 && ClockNeverRunsBack(calls + [TryConsume(now)])
    ensures !Granted(max, window, calls, now)
       <==> CountIn(After(max, window, calls).grants, now - window, now) == max
  {
    var all := calls + [TryConsume(now)];
    assert forall i :: 0 <= i < |calls| ==> all[i] == calls[i] && calls[i].now <= all[|calls|].now;
    RunConsistent(max, window, calls, now);
    TrimmedConsistent(After(max, window, calls), max, window, now, now);
    EveryWindowWithinBudget(max, window, calls, now);
  }

  /** What reading the budget counts are the grants in the last window of the full history. */
  lemma ReadingCountsWindow(max: nat, window: real, calls: seq<Call>, now: real)
    requires window > 0.0 && ClockNeverRunsBack(calls + [Remaining(now)])
    ensures |After(max, window, calls + [Remaining(now)]).uses| == CountIn(After(max, window, calls).grants, now - window, now)
    ensures After(max, window, calls + [Remaining(now)]).grants == After(max, window, calls).grants
  {
    var all := calls + [Remaining(now)];
    assert forall i :: 0 <= i < |calls| ==> all[i] == calls[i] && calls[i].now <= all[|calls|].now;
    RunConsistent(max, window, calls, now);
    AfterMore(max, window, calls, Remaining(now));
    ReadingCounts(After(max, window, calls), max, window, now);
  }

  lemma ReadingCounts(r: Run, max: nat, window: real, now: real)
    requires window > 0.0 && Consistent(r, max, window, now)
    ensures var next := Step(max, window, r, Remaining(now));
      |next.uses| == CountIn(r.grants, now - window, now) && next.grants == r.grants
  {
    TrimmedConsistent(r, max, window, now, now);
  }

  /** Non-decreasing time is what the bound needs: reading the budget with a later
      clock and then consuming with an earlier one overfills a window. */
  lemma BackwardClockOverfills()
    ensures var calls := [TryConsume(200.0), Remaining(300.0), TryConsume(205.0)];
      CountIn(After(1, 10.0, calls).grants, 195.0, 205.0) == 2
  {
    var first := FirstTwo();
    AfterMore(1, 10.0, first, TryConsume(205.0));
    assert first + [TryConsume(205.0)] == [TryConsume(200.0), Remaining(300.0), TryConsume(205.0)];
    assert [200.0] + [205.0] == [200.0, 205.0];
    CountInside([200.0, 205.0], 195.0, 205.0);
  }

  lemma FirstTwo() returns (calls: seq<Call>)
    ensures calls == [TryConsume(200.0), Remaining(300.0)]
    ensures After(1, 10.0, calls) == Run([], [200.0])
  {
    AfterMore(1, 10.0, [], TryConsume(200.0));
    assert [] + [TryConsume(200.0)] == [TryConsume(200.0)];
    assert After(1, 10.0, [TryConsume(200.0)]) == Run([200.0], [200.0]) by { assert [] + [200.0] == [200.0]; }
    calls := [TryConsume(200.0)] + [Remaining(300.0)];
    AfterMore(1, 10.0, [TryConsume(200.0)], Remaining(300.0));
    assert [200.0][1..] == [];
  }

  lemma AfterMore(max: nat, window: real, calls: seq<Call>, next: Call)
    ensures After(max, window, calls + [next]) == Step(max, window, After(max, window, calls), next)
  {
    assert (calls + [next])[..|calls|] == calls;
  }
}
