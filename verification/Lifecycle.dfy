/** Components start in registration order and stop in reverse, also when one of them fails to
    start.  The trace of starts and stops must be properly nested. */
module Lifecycle {
  import opened Wrappers

  datatype State = New | Starting | Running | Draining | Stopping | Stopped | Failed

  /** A component that has started, a stop attempt and a drain attempt, whatever came of them. */
  datatype Mark = Started(name: string) | StopTried(name: string) | DrainTried(name: string)

  datatype Answer = Done | WrongState | BadName | StartFailed | DrainFailed | StopFailed

  // ----- The manager ---------------------------------------------------------------------

  datatype Life = Life(state: State, components: seq<string>, started: seq<string>, trace: seq<Mark>)

  class LifecycleManager {
    var state: State
    var components: seq<string>
    var started: seq<string>
    ghost var trace: seq<Mark>

    ghost function Now(): Life
      reads this
    {
      Life(state, components, started, trace)
    }

    constructor ()
      ensures Now() == NEWBORN
    {
      state, components, started, trace := New, [], [], [];
    }

    method Register(name: string) returns (answer: Answer)
      modifies this
      ensures Now() == After(old(Now()), Call.Register(name))
      ensures answer.Done? <==> (old(state).New? || old(state).Stopped?) && name != "" && name !in old(components)
    {
      if !state.New? && !state.Stopped? { return WrongState; }
      if name == "" { return BadName; }
      if name in components { return BadName; }
      components := components + [name];
      return Done;
    }

    /** `ok(n)` says whether component `n` starts. */
    method Startup(ok: string -> bool) returns (answer: Answer)
      modifies this
      ensures Now() == After(old(Now()), Call.Startup(ok))
      ensures answer.Done? <==> state.Running?
      ensures answer.StartFailed? ==> state.Failed?
    {
      if state.Running? { return Done; }
      if state.Starting? || state.Draining? || state.Stopping? { return WrongState; }
      state := Starting;
      started := [];
      var i := 0;
      while i < |components|
        invariant 0 <= i <= FirstFailure(components, ok)
        invariant state == Starting && components == old(components)
        invariant started == components[..i] && trace == old(trace) + Ups(started)
      {
        FirstFailureIs(components, ok);
        if !ok(components[i]) {
          Unwind();
          state := Failed;
          return StartFailed;
        }
        started := started + [components[i]];
        trace := trace + [Started(components[i])];
        assert started[..i] == components[..i];
        i := i + 1;
      }
      state := Running;
      return Done;
    }

    method Unwind()
      modifies this
      ensures state == old(state) && components == old(components) && started == []
      ensures trace == old(trace) + Downs(old(started))
    {
      var i := |started|;
      assert started[..i] == started;
      while i > 0
        invariant 0 <= i <= |started| && started == old(started)
        invariant state == old(state) && components == old(components)
        invariant trace + Downs(started[..i]) == old(trace) + Downs(started)
      {
        assert started[..i][..i - 1] == started[..i - 1];
        i := i - 1;
        trace := trace + [StopTried(started[i])];
      }
      started := [];
    }

    /** `hook(n)` says whether `n` has a drain hook, `ok(n)` whether that hook returns in time. */
    method Drain(hook: string -> bool, ok: string -> bool) returns (answer: Answer)
      modifies this
      ensures Now() == After(old(Now()), Call.Drain(hook, ok))
      ensures answer.WrongState? <==> !(old(state).New? || old(state).Stopped? || old(state).Running?)
    {
      if state.New? || state.Stopped? { return Done; }
      if !state.Running? { return WrongState; }
      state := Draining;
      var i := 0;
      while i < |started|
        invariant 0 <= i <= |started|
        invariant state == Draining && components == old(components) && started == old(started)
        invariant trace + Drains(started[i..], hook, ok) == old(trace) + Drains(started, hook, ok)
      {
        assert started[i..][1..] == started[i + 1..];
        if hook(started[i]) {
          trace := trace + [DrainTried(started[i])];
          if !ok(started[i]) { return DrainFailed; }
        }
        i := i + 1;
      }
      return Done;
    }

    /** Every started component gets its stop attempt, however the earlier attempts ended. */
    method Shutdown(ok: string -> bool) returns (answer: Answer)
      modifies this
      ensures Now() == After(old(Now()), Call.Shutdown)
      ensures state.Stopped? || old(state).Stopping?
    {
      if state.New? || state.Stopped? {
        state := Stopped;
        return Done;
      }
      if state.Stopping? { return Done; }
      state := Stopping;
      var errors, i := false, |started|;
      assert started[..i] == started;
      while i > 0
        invariant 0 <= i <= |started| && started == old(started)
        invariant state == Stopping && components == old(components)
        invariant trace + Downs(started[..i]) == old(trace) + Downs(started)
      {
        assert started[..i][..i - 1] == started[..i - 1];
        i := i - 1;
        trace := trace + [StopTried(started[i])];
        errors := errors || !ok(started[i]);
      }
      started := [];
      state := Stopped;
      return if errors then StopFailed else Done;
    }
  }

  const NEWBORN := Life(New, [], [], [])

  /** The number of components that start before one fails. */
  function FirstFailure(components: seq<string>, ok: string -> bool): (n: nat)
    ensures n <= |components|
    decreases |components|
  {
    if components == [] then 0
    else
      var n := |components| - 1;
      var front := FirstFailure(components[..n], ok);
      if front == n && ok(components[n]) then n + 1 else front
  }

  lemma {:induction false} FirstFailureIs(components: seq<string>, ok: string -> bool)
    ensures forall i :: 0 <= i < FirstFailure(components, ok) ==> ok(components[i])
    ensures FirstFailure(components, ok) < |components| ==> !ok(components[FirstFailure(components, ok)])
    decreases |components|
  {
    if components != [] {
      FirstFailureIs(components[..|components| - 1], ok);
    }
  }

  function Ups(names: seq<string>): seq<Mark> {
    seq(|names|, i requires 0 <= i < |names| => Started(names[i]))
  }

  function Downs(names: seq<string>): seq<Mark> {
    if names == [] then [] else [StopTried(names[|names| - 1])] + Downs(names[..|names| - 1])
  }

  function Drains(names: seq<string>, hook: string -> bool, ok: string -> bool): seq<Mark> {
    if names == [] then []
    else if !hook(names[0]) then Drains(names[1..], hook, ok)
    else [DrainTried(names[0])] + if ok(names[0]) then Drains(names[1..], hook, ok) else []
  }

  // ----- Runs ------------------------------------------------------------------------------

  datatype Call =
    | Register(name: string)
    | Startup(ok: string -> bool)
    | Drain(hook: string -> bool, drained: string -> bool)
    | Shutdown

  function After(l: Life, c: Call): Life {
    match c
    case Register(name) =>
      if (l.state.New? || l.state.Stopped?) && name != "" && name !in l.components
      then l.(components := l.components + [name]) else l
    case Startup(ok) =>
      if l.state.Running? || l.state.Starting? || l.state.Draining? || l.state.Stopping? then l
      else
        var up := l.components[..FirstFailure(l.components, ok)];
        if up == l.components then l.(state := Running, started := up, trace := l.trace + Ups(up))
        else l.(state := Failed, started := [], trace := l.trace + Ups(up) + Downs(up))
    case Drain(hook, ok) =>
      if !l.state.Running? then l else l.(state := Draining, trace := l.trace + Drains(l.started, hook, ok))
    case Shutdown =>
      if l.state.New? || l.state.Stopped? then l.(state := Stopped)
      else if l.state.Stopping? then l else l.(state := Stopped, started := [], trace := l.trace + Downs(l.started))
  }

  function Run(calls: seq<Call>): Life {
    if calls == [] then NEWBORN else After(Run(calls[..|calls| - 1]), calls[|calls| - 1])
  }

  // ----- What each call comes to, in states -----------------------------------------------------

  /** A startup runs every component from a new, stopped or failed manager, and fails exactly when one
      of them does not start.  While running it changes nothing, nor in the middle of another call. */
  lemma StartupOutcome(l: Life, ok: string -> bool)
    ensures var next, idle := After(l, Call.Startup(ok)), l.state.New? || l.state.Stopped? || l.state.Failed?;
      && (next.state.Running? <==> l.state.Running? || (idle && forall n :: n in l.components ==> ok(n)))
      && (next.state.Failed? <==> idle && exists n :: n in l.components && !ok(n))
      && (!idle ==> next == l) && next.components == l.components
  {
    FirstFailureIs(l.components, ok);
    var n := FirstFailure(l.components, ok);
    if n < |l.components| {
      assert l.components[n] in l.components;
    } else {
      assert l.components[..n] == l.components;
    }
  }

  /** Components are added while the manager is new or stopped.  Only a running manager drains.  A
      shutdown stops the manager from every state, and does nothing more when it has nothing up. */
  lemma OtherOutcomes(l: Life, name: string, hook: string -> bool, ok: string -> bool)
    ensures After(l, Call.Register(name))
         == if (l.state.New? || l.state.Stopped?) && name != "" && name !in l.components
            then Life(l.state, l.components + [name], l.started, l.trace) else l
    ensures var next := After(l, Call.Drain(hook, ok));
      if l.state.Running? then next.state.Draining? && next.started == l.started && next.components == l.components else next == l
    ensures var next := After(l, Call.Shutdown);
      && (next.state.Stopped? <==> !l.state.Stopping?) && next.components == l.components
      && (l.state.New? || l.state.Stopped? || l.state.Stopping? ==> next.trace == l.trace && next.started == l.started)
      && (!l.state.New? && !l.state.Stopped? && !l.state.Stopping? ==> next.started == [])
  {
  }

  /** The components with a drain hook, in order. */
  function Hooked(names: seq<string>, hook: string -> bool): seq<string> {
    if names == [] then [] else (if hook(names[0]) then [names[0]] else []) + Hooked(names[1..], hook)
  }

  /** A drain calls the hooks in start order up to the first that fails, which is called too. */
  lemma {:induction false} DrainsExactly(names: seq<string>, hook: string -> bool, ok: string -> bool) returns (n: nat)
    ensures CallsFirst(Drains(names, hook, ok), Hooked(names, hook), ok, n)
    decreases |names|
  {
    n := 0;
    if names != [] {
      n := DrainsExactly(names[1..], hook, ok);
      if hook(names[0]) {
        n := if ok(names[0]) then n + 1 else 1;
        assert Hooked(names, hook)[1..] == Hooked(names[1..], hook);
        assert forall i :: 0 <= i < |Hooked(names[1..], hook)| ==> Hooked(names, hook)[i + 1] == Hooked(names[1..], hook)[i];
      } else {
        assert Hooked(names, hook) == Hooked(names[1..], hook);
      }
    }
  }

  /** The trace is that of the first n hooks, of which only the last can have failed, and none is left
      out after a success. */
  ghost predicate CallsFirst(trace: seq<Mark>, hooked: seq<string>, ok: string -> bool, n: nat) {
    && n <= |hooked| && |trace| == n
    && (forall i :: 0 <= i < n ==> trace[i] == DrainTried(hooked[i]))
    && (forall i :: 0 <= i < n - 1 ==> ok(hooked[i]))
    && (n < |hooked| ==> n > 0 && !ok(hooked[n - 1]))
  }

  // ----- Nesting -----------------------------------------------------------------------------

  /** The components that are up after a trace, the latest last, when `up` were up before it;
      None when a stop does not match the latest start still up, or a component is drained that
      is not up. */
  function UpAfter(up: seq<string>, trace: seq<Mark>): Option<seq<string>>
    decreases |trace|
  {
    if trace == [] then Some(up)
    else
      match trace[0]
      case Started(n) => UpAfter(up + [n], trace[1..])
      case StopTried(n) => if up != [] && up[|up| - 1] == n then UpAfter(up[..|up| - 1], trace[1..]) else None
      case DrainTried(n) => if n in up then UpAfter(up, trace[1..]) else None
  }

  lemma {:induction false} UpAfterBoth(up: seq<string>, first: seq<Mark>, second: seq<Mark>)
    requires UpAfter(up, first).Some?
    ensures UpAfter(up, first + second) == UpAfter(UpAfter(up, first).value, second)
    decreases |first|
  {
    if first == [] {
      assert first + second == second;
    } else {
      assert (first + second)[1..] == first[1..] + second;
      match first[0]
      case Started(n) => UpAfterBoth(up + [n], first[1..], second);
      case StopTried(n) => UpAfterBoth(up[..|up| - 1], first[1..], second);
      case DrainTried(n) => UpAfterBoth(up, first[1..], second);
    }
  }

  lemma {:induction false} UpsPush(up: seq<string>, names: seq<string>)
    ensures UpAfter(up, Ups(names)) == Some(up + names)
    decreases |names|
  {
    if names == [] {
      assert up + names == up;
    } else {
      UpsPush(up + [names[0]], names[1..]);
      assert Ups(names)[1..] == Ups(names[1..]);
      assert up + [names[0]] + names[1..] == up + names;
    }
  }

  lemma {:induction false} DownsPop(up: seq<string>, names: seq<string>)
    ensures UpAfter(up + names, Downs(names)) == Some(up)
    decreases |names|
  {
    if names == [] {
      assert up + names == up;
    } else {
      var front := names[..|names| - 1];
      assert (up + names)[..|up + names| - 1] == up + front;
      assert Downs(names)[1..] == Downs(front);
      DownsPop(up, front);
    }
  }

  lemma {:induction false} DrainsKeep(up: seq<string>, names: seq<string>, hook: string -> bool, ok: string -> bool)
    requires forall n :: n in names ==> n in up
    ensures UpAfter(up, Drains(names, hook, ok)) == Some(up)
    decreases |names|
  {
    if names != [] {
      DrainsKeep(up, names[1..], hook, ok);
      if hook(names[0]) {
        assert Drains(names, hook, ok)[1..] == if ok(names[0]) then Drains(names[1..], hook, ok) else [];
      }
    }
  }

  ghost predicate NoRepeats(names: seq<string>) {
    forall i, j :: 0 <= i < j < |names| ==> names[i] != names[j]
  }

  ghost predicate Sound(l: Life) {
    && UpAfter([], l.trace) == Some(l.started)
    && NoRepeats(l.components)
    && l.started == (if l.state.Running? || l.state.Draining? then l.components else [])
    && !l.state.Starting? && !l.state.Stopping?
  }

  lemma StartupKeepsNesting(l: Life, ok: string -> bool)
    requires Sound(l) && !l.state.Running? && !l.state.Draining?
    ensures Sound(After(l, Call.Startup(ok)))
  {
    var up := l.components[..FirstFailure(l.components, ok)];
    assert [] + up == up;
    UpsPush([], up);
    UpAfterBoth([], l.trace, Ups(up));
    DownsPop([], up);
    UpAfterBoth([], l.trace + Ups(up), Downs(up));
  }

  lemma StepKeepsNesting(l: Life, c: Call)
    requires Sound(l)
    ensures Sound(After(l, c))
  {
    match c
    case Register(_) =>
    case Startup(ok) =>
      if !l.state.Running? && !l.state.Draining? {
        StartupKeepsNesting(l, ok);
      }
    case Drain(hook, ok) =>
      DrainsKeep(l.started, l.started, hook, ok);
      UpAfterBoth([], l.trace, Drains(l.started, hook, ok));
    case Shutdown =>
      assert [] + l.started == l.started;
      DownsPop([], l.started);
      UpAfterBoth([], l.trace, Downs(l.started));
  }

  /** Over any sequence of register, startup, drain and shutdown, with any failures: every stop
      attempt is of the component that started last among those still up, and what is up is
      exactly what the manager remembers: all components, in order, while running or draining,
      and nothing at all in every other state. */
  lemma {:induction false} ProperlyNested(calls: seq<Call>)
    ensures Sound(Run(calls))
    decreases |calls|
  {
    if calls != [] {
      ProperlyNested(calls[..|calls| - 1]);
      StepKeepsNesting(Run(calls[..|calls| - 1]), calls[|calls| - 1]);
    }
  }

  // ----- What nesting means for one component -----------------------------------------------------

  function Count(trace: seq<Mark>, m: Mark): nat {
    if trace == [] then 0 else (if trace[0] == m then 1 else 0) + Count(trace[1..], m)
  }

  lemma {:induction false} StartsBalanceStops(up: seq<string>, trace: seq<Mark>, name: string)
    requires UpAfter(up, trace).Some?
    ensures multiset(up)[name] + Count(trace, Started(name))
         == Count(trace, StopTried(name)) + multiset(UpAfter(up, trace).value)[name]
    decreases |trace|
  {
    if trace != [] {
      match trace[0]
      case Started(n) => StartsBalanceStops(up + [n], trace[1..], name);
      case StopTried(n) =>
        assert up == up[..|up| - 1] + [n];
        StartsBalanceStops(up[..|up| - 1], trace[1..], name);
      case DrainTried(n) => StartsBalanceStops(up, trace[1..], name);
    }
  }

  lemma {:induction false} MemberOnce(names: seq<string>, name: string)
    requires NoRepeats(names)
    ensures multiset(names)[name] == if name in names then 1 else 0
    decreases |names|
  {
    if names != [] {
      var front := names[..|names| - 1];
      MemberOnce(front, name);
      assert names == front + [names[|names| - 1]];
    }
  }

  /** After any run a component has been stopped as often as it has started, or once less
      while the manager runs or drains: nothing is stopped twice and nothing is left up. */
  lemma EachStartStoppedOnce(calls: seq<Call>, name: string)
    ensures var l := Run(calls);
      Count(l.trace, Started(name)) == Count(l.trace, StopTried(name))
        + if (l.state.Running? || l.state.Draining?) && name in l.components then 1 else 0
  {
    ProperlyNested(calls);
    StartsBalanceStops([], Run(calls).trace, name);
    MemberOnce(Run(calls).components, name);
  }
}
