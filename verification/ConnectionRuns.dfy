/** Every interleaving of callers that start up, lease, run, reconnect, drain and shut down one
    connection manager.  A caller rests at an await; a step runs one caller to its next await.
    An await that only delays its caller (emitting an event, backing off) is merged with the
    await that follows it.  Any await may end in cancellation. */
module ConnectionRuns {
  import opened Connection
  import opened Wrappers

  /** Why a caller wants a connection: for itself, for a lease, for an operation under `run`, or to
      replace a broken one. */
  datatype Use = Alone | ForLease | ForRun | ForReconnect

  datatype Pc =
    | Idle
    | WantStartup(use: Use)                     // queued for the operation lock
    | WantReconnect
    | WantShutdown
    | Connect(use: Use)                         // holding the lock, inside the connect attempt
    | Abandon(use: Use, cancelled: bool)        // holding the lock, disconnecting after a failed restore
    | ConnectDone(use: Use)                     // holding the lock, connected
    | ConnectGaveUp(use: Use, cancelled: bool)  // holding the lock, failed, about to raise
    | Disconnect                                // holding the lock, dropping the stale connection
    | Leased(run: bool)
    | DrainWait                                 // a drain called by itself
    | StopHeartbeat                             // holding the lock, in shutdown, until the heartbeat has ended
    | ShutdownDrain                             // holding the lock, waiting for leases
    | ShutdownDrained                           // holding the lock, drain about to return true
    | ShutdownDisconnect(drained: bool)         // holding the lock, disconnecting the engine
    | ShutdownDone                              // holding the lock, closed

  /** Whether heartbeats are configured, whether the manager owns the supervisor that runs them,
      and the caller that stands for the heartbeat. */
  datatype Setting = Setting(heartbeats: bool, ownsSupervisor: bool, caller: nat)

  /** `running`: a heartbeat has started and not ended.  `stopped`: the supervisor takes no more. */
  datatype Heart = Heart(setting: Setting, running: bool, stopped: bool)

  datatype System = System(m: Manager, lock: Option<nat>, pcs: map<nat, Pc>, heart: Heart)

  /** What the caller whose turn it is can change. */
  datatype View = View(pc: Pc, m: Manager, heart: Heart)

  function Start(c: Setting): System {
    System(INITIAL, None, map[], Heart(c, false, false))
  }

  datatype Action =
    | CallStartup | CallLease | CallRun | CallReconnect | CallDrain | CallShutdown
    | HeartbeatFails | HeartbeatEnds
    | SupervisorStops                           // a supervisor of someone else is shut down
    | Acquire                                   // takes the free operation lock
    | Succeed                                   // the awaited thing completes
    | Fail                                      // the awaited thing raises, or times out
    | FailRestore                               // the transport connected but a restore callback raised
    | Cancel
    | CancelRestore                             // cancelled inside a restore callback

  /** `reconnects`: an error that this step brings into `run` is a connection error by the
      manager's classifier, or a failing heartbeat is to reconnect.  The stock classifier says so
      of every refusal by the manager itself. */
  datatype Event = Event(caller: nat, action: Action, reconnects: bool := true)

  function PcOf(s: System, t: nat): Pc {
    if t in s.pcs then s.pcs[t] else Idle
  }

  predicate HoldsLock(pc: Pc) {
    || pc.Connect? || pc.Abandon? || pc.ConnectDone? || pc.ConnectGaveUp? || pc.Disconnect?
    || pc.StopHeartbeat? || pc.ShutdownDrain? || pc.ShutdownDrained? || pc.ShutdownDisconnect? || pc.ShutdownDone?
  }

  // ----- One turn of one caller -----------------------------------------------------------

  function To(v: View, m: Manager, pc: Pc): View {
    View(pc, m, v.heart)
  }

  /** An error leaves startup, lease or run: `run` catches it, and on a connection error fails the
      connection and reconnects. */
  function Raising(v: View, m: Manager, run: bool, reconnects: bool): View {
    To(v, Noted(m, run && reconnects), if run && reconnects then WantReconnect else Idle)
  }

  /** A connection is there, or was: the caller takes its lease, if it wants one. */
  function Continuing(v: View, use: Use, reconnects: bool): View {
    if use.Alone? || use.ForReconnect? then To(v, v.m, Idle)
    else if v.m.state.Connected? then To(v, Leasing(v.m), Leased(use.ForRun?))
    else Raising(v, v.m, use.ForRun?, reconnects)
  }

  /** A startup has connected: it makes sure that a heartbeat runs, which raises when the supervisor
      takes no more.  The connection stays. */
  function Started(v: View, use: Use, reconnects: bool): View {
    if !v.heart.setting.heartbeats || v.heart.running then Continuing(v, use, reconnects)
    else if v.heart.stopped then Raising(v, v.m, use.ForRun?, reconnects)
    else Continuing(v.(heart := v.heart.(running := true)), use, reconnects)
  }

  /** Asking for a lease starts up first unless connected. */
  function Asking(v: View, use: Use, reconnects: bool): View {
    if v.m.state.Connected? then Continuing(v, use, reconnects) else To(v, v.m, WantStartup(use))
  }

  /** A caller with the lock granted runs to its next await. */
  function Acquired(v: View, reconnects: bool): View {
    var m := v.m;
    match v.pc
    case WantStartup(use) =>
      (match StartupVerdict(m.state)
       case AlreadyDone => Continuing(v, use, reconnects)
       case Refused => Raising(v, m, use.ForRun?, reconnects)
       case Proceed => To(v, Entered(m, Proceed, Connecting), Connect(use)))
    case WantReconnect =>
      if ReconnectVerdict(m.state).Proceed? then To(v, Entered(m, Proceed, Reconnecting), Disconnect) else To(v, m, Idle)
    case WantShutdown =>
      if ShutdownVerdict(m.state).Proceed? then To(v, m, StopHeartbeat) else To(v, m, Idle)
    case _ => v
  }

  /** What a waiting caller does when the thing it awaits completes. */
  function Succeeded(v: View, reconnects: bool): View {
    var m := v.m;
    match v.pc
    case Connect(use) => To(v, ConnectEnded(m, true), ConnectDone(use))
    case Abandon(use, cancelled) => To(v, ConnectEnded(m, false), ConnectGaveUp(use, cancelled))
    case ConnectDone(use) => if use.ForReconnect? then To(v, m, Idle) else Started(v, use, reconnects)
    case ConnectGaveUp(use, cancelled) => Raising(v, m, use.ForRun? && !cancelled, reconnects)
    case Disconnect => To(v, Dropped(m), Connect(ForReconnect))
    case Leased(_) => To(v, Returned(m), Idle)
    case DrainWait => if m.activeLeases == 0 then To(v, m, Idle) else v
    case StopHeartbeat =>
      if v.heart.running then v
      else if DrainVerdict(m.state).Proceed? then To(v, Entered(m, Proceed, Draining), ShutdownDrain)
      else To(v, ClosingBegun(m), ShutdownDisconnect(true))
    case ShutdownDrain => if m.activeLeases == 0 then To(v, m, ShutdownDrained) else v
    case ShutdownDrained => To(v, ClosingBegun(m), ShutdownDisconnect(true))
    case ShutdownDisconnect(_) => To(v, DisconnectEnded(m, true), ShutdownDone)
    case ShutdownDone => View(Idle, m, v.heart.(stopped := v.heart.stopped || v.heart.setting.ownsSupervisor))
    case _ => v
  }

  /** What a waiting caller does when the thing it awaits raises or times out. */
  function Raised(v: View, reconnects: bool): View {
    var m := v.m;
    match v.pc
    case Connect(use) => To(v, ConnectEnded(m, false), ConnectGaveUp(use, false))
    case Abandon(use, cancelled) => To(v, ConnectEnded(m, false), ConnectGaveUp(use, cancelled))
    case Disconnect => To(v, Dropped(m), Connect(ForReconnect))
    case Leased(run) => Raising(v, Returned(m), run, reconnects)
    case DrainWait => To(v, m, Idle)
    case ShutdownDrain => To(v, ClosingBegun(m), ShutdownDisconnect(false))
    case ShutdownDisconnect(_) => To(v, DisconnectEnded(m, false), Idle)
    case _ => v
  }

  /** Cancellation at an await: the lock and the lease go back, `run` does not reconnect, and the
      state stays as it was unless a connect attempt was cut short. */
  function CancelledAt(v: View): View {
    match v.pc
    case Connect(use) => To(v, ConnectEnded(v.m, false), ConnectGaveUp(use, true))
    case Leased(_) => To(v, Returned(v.m), Idle)
    case _ => To(v, v.m, Idle)
  }

  /** A caller that may call the manager. */
  predicate MayCall(v: View, t: nat) {
    v.pc.Idle? && t != v.heart.setting.caller
  }

  /** The heartbeat, between two of its reconnects. */
  predicate Beats(v: View, t: nat) {
    v.pc.Idle? && t == v.heart.setting.caller && v.heart.running
  }

  /** The caller makes a call of its own, or the heartbeat does something. */
  function Called(v: View, e: Event): View {
    var m := v.m;
    match e.action
    case CallStartup => if MayCall(v, e.caller) then To(v, m, WantStartup(Alone)) else v
    case CallLease => if MayCall(v, e.caller) then Asking(v, ForLease, e.reconnects) else v
    case CallRun => if MayCall(v, e.caller) then Asking(v, ForRun, e.reconnects) else v
    case CallReconnect => if MayCall(v, e.caller) || Beats(v, e.caller) then To(v, m, WantReconnect) else v
    case CallDrain =>
      if MayCall(v, e.caller) && DrainVerdict(m.state).Proceed? then To(v, Entered(m, Proceed, Draining), DrainWait) else v
    case CallShutdown => if MayCall(v, e.caller) then To(v, m, WantShutdown) else v
    case HeartbeatFails => if Beats(v, e.caller) then To(v, Noted(m, true), if e.reconnects then WantReconnect else Idle) else v
    case HeartbeatEnds => if Beats(v, e.caller) then v.(heart := v.heart.(running := false)) else v
    case SupervisorStops =>
      if MayCall(v, e.caller) && !v.heart.setting.ownsSupervisor then v.(heart := v.heart.(stopped := true)) else v
    case _ => v
  }

  function Next(v: View, e: Event, lockFree: bool): View {
    match e.action
    case Acquire => if lockFree then Acquired(v, e.reconnects) else v
    case Succeed => Succeeded(v, e.reconnects)
    case Fail => Raised(v, e.reconnects)
    case FailRestore => if v.pc.Connect? then To(v, v.m, Abandon(v.pc.use, false)) else v
    case CancelRestore => if v.pc.Connect? then To(v, v.m, Abandon(v.pc.use, true)) else v
    case Cancel => CancelledAt(v)
    case _ => Called(v, e)
  }

  // ----- Runs -------------------------------------------------------------------------------

  function Seen(s: System, t: nat): View {
    View(PcOf(s, t), s.m, s.heart)
  }

  function Put(s: System, t: nat, v: View): System {
    var lock := if HoldsLock(v.pc) then Some(t) else if s.lock == Some(t) then None else s.lock;
    System(v.m, lock, s.pcs[t := v.pc], v.heart)
  }

  function Step(s: System, e: Event): System {
    var v := Next(Seen(s, e.caller), e, s.lock.None?);
    if v == Seen(s, e.caller) then s else Put(s, e.caller, v)
  }

  predicate Free(s: System, t: nat) {
    MayCall(Seen(s, t), t)
  }

  predicate Beating(s: System, t: nat) {
    Beats(Seen(s, t), t)
  }

  function After(c: Setting, events: seq<Event>): System {
    if events == [] then Start(c) else Step(After(c, events[..|events| - 1]), events[|events| - 1])
  }

  // ----- The invariant --------------------------------------------------------------------

  function Holders(s: System): set<nat> {
    set t | t in s.pcs && s.pcs[t].Leased?
  }

  /** From the moment shutdown starts draining until it lets the lock go. */
  predicate ShuttingDown(pc: Pc) {
    pc.ShutdownDrain? || pc.ShutdownDrained? || pc.ShutdownDisconnect? || pc.ShutdownDone?
  }

  predicate Drained(pc: Pc) {
    pc.ShutdownDrained? || pc == ShutdownDisconnect(true)
  }

  /** What holds of every caller's view. */
  predicate ViewOk(v: View) {
    && (ShuttingDown(v.pc) ==> !v.m.state.Connected? && !v.heart.running)
    && (Drained(v.pc) ==> v.m.activeLeases == 0)
    && (HoldsLock(v.pc) && !v.pc.ShutdownDone? ==> !v.m.state.Closed?)
    && (v.pc.Leased? ==> v.m.activeLeases > 0)
    && (v.m.state.Disconnected? ==> v.m.activeLeases == 0)
    && (v.m.state.Closed? ==> !v.heart.running)
    && v.m.activeLeases >= 0
  }

  ghost predicate CallerOk(s: System, t: nat) {
    && (HoldsLock(PcOf(s, t)) <==> s.lock == Some(t))
    && ViewOk(Seen(s, t))
  }

  ghost predicate Ok(s: System) {
    && s.m.activeLeases == |Holders(s)|
    && (!s.heart.running ==> PcOf(s, s.heart.setting.caller).Idle?)
    && forall t :: CallerOk(s, t)
  }

  function LeasesIn(pc: Pc): nat {
    if pc.Leased? then 1 else 0
  }

  /** What a turn of caller t must respect for the invariant to survive. */
  predicate Respects(v: View, next: View, t: nat, lockFree: bool) {
    && ViewOk(next)
    && next.heart.setting == v.heart.setting
    && (HoldsLock(next.pc) ==> lockFree || HoldsLock(v.pc))
    && next.m.activeLeases == v.m.activeLeases + LeasesIn(next.pc) - LeasesIn(v.pc)
    && (next.m.state.Connected? && !v.m.state.Connected? ==> HoldsLock(v.pc))
    && (next.m.state.Closed? && !v.m.state.Closed? ==> HoldsLock(v.pc))
    && (next.m.activeLeases > v.m.activeLeases ==> v.m.state.Connected?)
    && (next.heart.running && !v.heart.running ==> HoldsLock(v.pc))
    && (!next.heart.running ==> if t == v.heart.setting.caller then next.pc.Idle? else !v.heart.running)
  }

  lemma TurnRespects(v: View, e: Event, lockFree: bool)
    requires ViewOk(v) && Awake(v, e.caller)
    ensures Respects(v, Next(v, e, lockFree), e.caller, lockFree) || Next(v, e, lockFree) == v
  {
    match e.action
    case Acquire => if lockFree { AcquiringRespects(v, e); }
    case Succeed => if v.pc.ConnectDone? { ConnectingRespects(v, e); } else { SuccessRespects(v, e); }
    case Fail => FailureRespects(v, e);
    case Cancel =>
    case FailRestore =>
    case CancelRestore =>
    case _ => CallRespects(v, e);
  }

  /** The caller is the heartbeat only if one runs. */
  predicate Awake(v: View, t: nat) {
    t == v.heart.setting.caller && !v.heart.running ==> v.pc.Idle?
  }

  lemma AcquiringRespects(v: View, e: Event)
    requires ViewOk(v) && Awake(v, e.caller)
    ensures Respects(v, Acquired(v, e.reconnects), e.caller, true) || Acquired(v, e.reconnects) == v
  {
  }

  lemma ConnectingRespects(v: View, e: Event)
    requires ViewOk(v) && Awake(v, e.caller) && v.pc.ConnectDone?
    ensures Respects(v, Succeeded(v, e.reconnects), e.caller, false)
  {
  }

  lemma SuccessRespects(v: View, e: Event)
    requires ViewOk(v) && Awake(v, e.caller) && !v.pc.ConnectDone?
    ensures Respects(v, Succeeded(v, e.reconnects), e.caller, false) || Succeeded(v, e.reconnects) == v
  {
  }

  lemma FailureRespects(v: View, e: Event)
    requires ViewOk(v) && Awake(v, e.caller)
    ensures Respects(v, Raised(v, e.reconnects), e.caller, false) || Raised(v, e.reconnects) == v
  {
  }

  lemma CallRespects(v: View, e: Event)
    requires ViewOk(v) && Awake(v, e.caller)
    ensures Respects(v, Called(v, e), e.caller, false) || Called(v, e) == v
  {
  }

  lemma HoldersAfter(s: System, t: nat, v: View)
    ensures |Holders(Put(s, t, v))| == |Holders(s)| + LeasesIn(v.pc) - LeasesIn(PcOf(s, t))
  {
    HoldersAt(s, t, v);
    if v.pc.Leased? {
      assert Holders(Put(s, t, v)) == Holders(s) + {t};
    } else {
      assert Holders(Put(s, t, v)) == Holders(s) - {t};
    }
  }

  lemma HoldersAt(s: System, t: nat, v: View)
    ensures forall u :: u in Holders(Put(s, t, v)) <==> if u == t then v.pc.Leased? else u in Holders(s)
    ensures t in Holders(s) <==> PcOf(s, t).Leased?
  {
  }

  lemma OthersLeased(s: System, t: nat, other: nat)
    requires Ok(s) && t != other && PcOf(s, t).Leased? && PcOf(s, other).Leased?
    ensures s.m.activeLeases > 1
  {
    assert {t, other} <= Holders(s);
    assert |Holders(s) - {t, other}| == |Holders(s)| - 2;
  }

  lemma OthersOk(s: System, t: nat, v: View, other: nat)
    requires Ok(s) && Respects(Seen(s, t), v, t, s.lock.None?) && other != t
    ensures CallerOk(Put(s, t, v), other)
  {
    assert CallerOk(s, other) && CallerOk(s, t);
    assert PcOf(Put(s, t, v), other) == PcOf(s, other);
    if PcOf(s, t).Leased? && PcOf(s, other).Leased? { OthersLeased(s, t, other); }
  }

  lemma StepOk(s: System, e: Event)
    requires Ok(s)
    ensures Ok(Step(s, e))
  {
    var t := e.caller;
    var v := Next(Seen(s, t), e, s.lock.None?);
    assert CallerOk(s, t);
    TurnRespects(Seen(s, t), e, s.lock.None?);
    if v != Seen(s, t) {
      HoldersAfter(s, t, v);
      forall other ensures CallerOk(Put(s, t, v), other) {
        if other != t { OthersOk(s, t, v, other); }
      }
    }
  }

  lemma {:induction false} RunOk(c: Setting, events: seq<Event>)
    ensures Ok(After(c, events))
  {
    if events != [] {
      RunOk(c, events[..|events| - 1]);
      StepOk(After(c, events[..|events| - 1]), events[|events| - 1]);
    }
  }

  // ----- Main results -----------------------------------------------------------------------

  /** In every interleaving the lease counter is the number of lease holders, and at most
      one caller is inside the operation lock. */
  lemma LeasesCounted(c: Setting, events: seq<Event>, t: nat, u: nat)
    ensures var s := After(c, events);
      && s.m.activeLeases == |Holders(s)|
      && (HoldsLock(PcOf(s, t)) && HoldsLock(PcOf(s, u)) ==> t == u)
  {
    RunOk(c, events);
    assert CallerOk(After(c, events), t) && CallerOk(After(c, events), u);
  }

  /** When shutdown's drain has returned true, its engine disconnect runs with no leases. */
  lemma DrainedDisconnectRunsAlone(c: Setting, events: seq<Event>, t: nat)
    requires PcOf(After(c, events), t) == ShutdownDisconnect(true)
    ensures After(c, events).m.activeLeases == 0 && Holders(After(c, events)) == {}
  {
    RunOk(c, events);
    assert CallerOk(After(c, events), t);
  }

  lemma TurnGrantsNothing(v: View, e: Event, lockFree: bool)
    requires !v.m.state.Connected?
    ensures Next(v, e, lockFree) == v || !Next(v, e, lockFree).pc.Leased?
    ensures Next(v, e, lockFree).m.activeLeases <= v.m.activeLeases
  {
  }

  lemma LeaseNeedsConnected(s: System, e: Event)
    requires !s.m.state.Connected?
    ensures Step(s, e).m.activeLeases <= s.m.activeLeases && Holders(Step(s, e)) <= Holders(s)
  {
    TurnGrantsNothing(Seen(s, e.caller), e, s.lock.None?);
  }

  lemma ConnectedOnlyByConnecting(s: System, e: Event)
    requires Step(s, e).m.state.Connected? && !s.m.state.Connected?
    ensures PcOf(s, e.caller).Connect? && e.action.Succeed?
  {
  }

  /** From the moment shutdown starts draining until it releases the operation lock, no step
      of any caller grants a lease: the holders only become fewer. */
  lemma {:induction false} NoLeaseWhileShuttingDown(c: Setting, events: seq<Event>, t: nat, i: nat, j: nat)
    requires i <= j <= |events|
    requires forall k :: i <= k < j ==> ShuttingDown(PcOf(After(c, events[..k]), t))
    ensures Holders(After(c, events[..j])) <= Holders(After(c, events[..i]))
    decreases j
  {
    if i < j {
      NoLeaseWhileShuttingDown(c, events, t, i, j - 1);
      var s := After(c, events[..j - 1]);
      RunOk(c, events[..j - 1]);
      assert CallerOk(s, t);
      assert events[..j][..j - 1] == events[..j - 1];
      LeaseNeedsConnected(s, events[j - 1]);
    }
  }

  // ----- What drain and shutdown do not promise ------------------------------------------------

  /** The event completes a connect attempt. */
  predicate Completes(s: System, e: Event) {
    e.action.Succeed? && PcOf(s, e.caller).Connect?
  }

  /** A drain called by itself writes its state without the operation lock.  A lease granted after
      event `i` left the manager draining means that a connect attempt completed in between. */
  lemma {:induction false} DrainKeepsLeasesOutUntilConnect(c: Setting, events: seq<Event>, i: nat, j: nat)
    requires i <= j < |events| && After(c, events[..i]).m.state.Draining?
    requires Step(After(c, events[..j]), events[j]).m.activeLeases > After(c, events[..j]).m.activeLeases
    ensures exists k :: i <= k < j && Completes(After(c, events[..k]), events[k])
  {
    if After(c, events[..j]).m.state.Connected? {
      var _ := ConnectedSince(c, events, i, j);
    } else {
      LeaseNeedsConnected(After(c, events[..j]), events[j]);
    }
  }

  lemma AfterPrefix(c: Setting, events: seq<Event>, k: nat)
    requires k < |events|
    ensures After(c, events[..k + 1]) == Step(After(c, events[..k]), events[k])
  {
    assert events[..k + 1][..k] == events[..k];
  }

  predicate ConnectedAfter(c: Setting, events: seq<Event>, k: nat)
    requires k <= |events|
  {
    After(c, events[..k]).m.state.Connected?
  }

  lemma ConnectedByStep(c: Setting, events: seq<Event>, k: nat)
    requires k < |events| && !ConnectedAfter(c, events, k) && ConnectedAfter(c, events, k + 1)
    ensures Completes(After(c, events[..k]), events[k])
  {
    AfterPrefix(c, events, k);
    ConnectedOnlyByConnecting(After(c, events[..k]), events[k]);
  }

  /** Where a flag that is down at i and up at j goes up. */
  lemma {:induction false} GoesUp(flags: seq<bool>, i: nat, j: nat) returns (k: nat)
    requires i <= j < |flags| && !flags[i] && flags[j]
    ensures i <= k < j && !flags[k] && flags[k + 1]
    decreases j
  {
    if flags[j - 1] { k := GoesUp(flags, i, j - 1); } else { k := j - 1; }
  }

  lemma ConnectedSince(c: Setting, events: seq<Event>, i: nat, j: nat) returns (k: nat)
    requires i <= j <= |events| && !ConnectedAfter(c, events, i) && ConnectedAfter(c, events, j)
    ensures i <= k < j && Completes(After(c, events[..k]), events[k])
  {
    k := GoesUp(seq(|events| + 1, n requires 0 <= n <= |events| => ConnectedAfter(c, events, n)), i, j);
    ConnectedByStep(c, events, k);
  }

  /** A caller that asks for a lease in this state gets it. */
  predicate Serves(s: System, t: nat) {
    PcOf(Step(s, Event(t, CallLease)), t).Leased?
  }

  lemma {:induction false} StrangerIsIdle(c: Setting, events: seq<Event>, t: nat)
    requires forall e :: e in events ==> e.caller != t
    ensures PcOf(After(c, events), t).Idle?
    decreases |events|
  {
    if events != [] {
      var front, last := events[..|events| - 1], events[|events| - 1];
      StrangerIsIdle(c, front, t);
      OnlyTheCallerMoves(After(c, front), last, t);
    }
  }

  lemma OnlyTheCallerMoves(s: System, e: Event, t: nat)
    requires e.caller != t
    ensures PcOf(Step(s, e), t) == PcOf(s, t)
  {
  }

  /** A drain keeps a new caller out up to some event exactly as long as no connect attempt
      completes. */
  lemma DrainHoldsExactly(c: Setting, events: seq<Event>, i: nat, t: nat)
    requires i <= |events| && After(c, events[..i]).m.state.Draining?
    requires t != c.caller && forall e :: e in events ==> e.caller != t
    ensures (exists k :: i <= k <= |events| && Serves(After(c, events[..k]), t))
       <==> (exists k :: i <= k < |events| && Completes(After(c, events[..k]), events[k]))
  {
    if k: nat :| i <= k <= |events| && Serves(After(c, events[..k]), t) {
      ServedSince(c, events, i, k, t);
    }
    if k: nat :| i <= k < |events| && Completes(After(c, events[..k]), events[k]) {
      ServesAfter(c, events, k, t);
    }
  }

  lemma StrangerServed(c: Setting, events: seq<Event>, t: nat)
    requires t != c.caller && forall e :: e in events ==> e.caller != t
    ensures Serves(After(c, events), t) <==> After(c, events).m.state.Connected?
  {
    StrangerIsIdle(c, events, t);
    SettingStays(c, events);
  }

  lemma {:induction false} SettingStays(c: Setting, events: seq<Event>)
    ensures After(c, events).heart.setting == c
    decreases |events|
  {
    if events != [] {
      SettingStays(c, events[..|events| - 1]);
      SettingKept(After(c, events[..|events| - 1]), events[|events| - 1]);
    }
  }

  lemma SettingKept(s: System, e: Event)
    ensures Step(s, e).heart.setting == s.heart.setting
  {
  }

  lemma ServedSince(c: Setting, events: seq<Event>, i: nat, k: nat, t: nat)
    requires i <= k <= |events| && !After(c, events[..i]).m.state.Connected?
    requires t != c.caller && forall e :: e in events ==> e.caller != t
    requires Serves(After(c, events[..k]), t)
    ensures exists n :: i <= n < |events| && Completes(After(c, events[..n]), events[n])
  {
    StrangerServed(c, events[..k], t);
    var _ := ConnectedSince(c, events, i, k);
  }

  lemma ServesAfter(c: Setting, events: seq<Event>, k: nat, t: nat)
    requires k < |events| && Completes(After(c, events[..k]), events[k])
    requires t != c.caller && forall e :: e in events ==> e.caller != t
    ensures Serves(After(c, events[..k + 1]), t)
  {
    assert events[..k + 1][..k] == events[..k];
    StrangerServed(c, events[..k + 1], t);
  }

  /** The event brings an error into `run`. */
  predicate ErrorInRun(s: System, e: Event) {
    var pc := PcOf(s, e.caller);
    || (e.action.Acquire? && s.lock.None? && pc == WantStartup(ForRun))
    || (e.action.Succeed? && (pc == ConnectGaveUp(ForRun, false) || pc == ConnectDone(ForRun)))
    || (e.action.Fail? && pc == Leased(true))
  }

  /** The event ends a connect attempt or the disconnect of a shutdown, either way. */
  predicate EndsAttempt(s: System, e: Event) {
    var pc := PcOf(s, e.caller);
    || ((e.action.Succeed? || e.action.Fail?) && (pc.Connect? || pc.Abandon? || pc.ShutdownDisconnect?))
    || (e.action.Cancel? && pc.Connect?)
  }

  /** Exactly what moves a draining manager on: an attempt that was in flight ends, an error under
      `run` is taken for a connection error (also a mere refusal to connect because the manager is
      draining), a heartbeat fails, or a shutdown gets past its own drain. */
  lemma DrainingLeftExactly(s: System, e: Event)
    requires s.m.state.Draining?
    ensures !Step(s, e).m.state.Draining? <==>
      var pc := PcOf(s, e.caller);
      || EndsAttempt(s, e)
      || (ErrorInRun(s, e) && e.reconnects)
      || (e.action.HeartbeatFails? && Beating(s, e.caller))
      || (e.action.Fail? && pc.ShutdownDrain?) || (e.action.Succeed? && pc.ShutdownDrained?)
  {
  }

  /** Exactly what reopens a closed manager, in any run: a startup that was waiting or is called
      later, or an operation under `run` that fails late.  Its heartbeat has ended. */
  lemma ClosedLeftExactly(c: Setting, events: seq<Event>, e: Event)
    requires After(c, events).m.state.Closed?
    ensures var s := After(c, events);
      var pc := PcOf(s, e.caller);
      !Step(s, e).m.state.Closed? <==>
        || (e.action.Acquire? && s.lock.None? && pc.WantStartup?)
        || (e.action.Fail? && pc == Leased(true) && e.reconnects)
    ensures !After(c, events).heart.running && PcOf(After(c, events), After(c, events).heart.setting.caller).Idle?
  {
    RunOk(c, events);
    assert CallerOk(After(c, events), e.caller);
  }

  // ----- Runs that show it ---------------------------------------------------------------------------

  function Steps(s: System, events: seq<Event>): System
    decreases |events|
  {
    if events == [] then s else Steps(Step(s, events[0]), events[1..])
  }

  lemma {:induction false} AfterSteps(c: Setting, before: seq<Event>, events: seq<Event>)
    ensures After(c, before + events) == Steps(After(c, before), events)
    decreases |events|
  {
    if events == [] {
      assert before + events == before;
    } else {
      assert before + events == before + [events[0]] + events[1..];
      AfterSteps(c, before + [events[0]], events[1..]);
      assert (before + [events[0]])[..|before|] == before;
    }
  }

  lemma TwoSteps(s: System, a: Event, b: Event)
    ensures Steps(s, [a, b]) == Step(Step(s, a), b)
  {
    assert [a, b][1..] == [b] && [b][1..] == [];
    assert Steps(Step(s, a), [b]) == Steps(Step(Step(s, a), b), []);
  }

  lemma {:induction false} StepsConcat(s: System, first: seq<Event>, second: seq<Event>)
    ensures Steps(s, first + second) == Steps(Steps(s, first), second)
    decreases |first|
  {
    if first == [] {
      assert first + second == second;
    } else {
      assert (first + second)[1..] == first[1..] + second;
      StepsConcat(Step(s, first[0]), first[1..], second);
    }
  }

  /** The others are where they were. */
  ghost predicate Elsewhere(s: System, next: System, t: nat) {
    next.heart.setting == s.heart.setting && forall other :: other != t ==> PcOf(next, other) == PcOf(s, other)
  }

  const REFUSED_RUN: seq<Action> := [CallRun, Acquire]
  const RECONNECT: seq<Action> := [Acquire, Succeed]
  const CONNECTED: seq<Action> := [Succeed, Succeed]

  function By(t: nat, actions: seq<Action>): (events: seq<Event>)
    ensures |events| == |actions|
  {
    seq(|actions|, i requires 0 <= i < |actions| => Event(t, actions[i]))
  }

  /** A run that finds the manager draining is refused, and its error handler asks to reconnect. */
  lemma RefusedRun(s: System, t: nat)
    requires s.m.state.Draining? && s.lock.None? && Free(s, t)
    ensures var next := Steps(s, By(t, REFUSED_RUN));
      && next.m == s.m.(state := State.Failed) && next.lock.None? && PcOf(next, t).WantReconnect? && Elsewhere(s, next, t)
  {
    assert By(t, REFUSED_RUN) == [Event(t, CallRun), Event(t, Acquire)];
    TwoSteps(s, Event(t, CallRun), Event(t, Acquire));
  }

  lemma StaleDropped(s: System, t: nat)
    requires s.m.state.Failed? && s.lock.None? && PcOf(s, t).WantReconnect?
    ensures var next := Steps(s, By(t, RECONNECT));
      && next.m.activeLeases == s.m.activeLeases && next.lock == Some(t) && PcOf(next, t) == Connect(ForReconnect)
      && Elsewhere(s, next, t)
  {
    assert By(t, RECONNECT) == [Event(t, Acquire), Event(t, Succeed)];
    TwoSteps(s, Event(t, Acquire), Event(t, Succeed));
  }

  lemma AttemptSucceeds(s: System, t: nat)
    requires s.lock == Some(t) && PcOf(s, t) == Connect(ForReconnect)
    ensures var next := Steps(s, By(t, CONNECTED));
      && next.m.state.Connected? && next.m.activeLeases == s.m.activeLeases && next.lock.None? && PcOf(next, t).Idle?
      && Elsewhere(s, next, t)
  {
    assert By(t, CONNECTED) == [Event(t, Succeed), Event(t, Succeed)];
    TwoSteps(s, Event(t, Succeed), Event(t, Succeed));
  }

  /** One call of `run` defeats any drain, although no attempt is in flight and nothing fails:
      from every draining state with the lock free it can reopen the connection all by itself,
      and the next caller gets a lease, while the drain may still be waiting for earlier ones. */
  lemma RunReopensAnyDrain(c: Setting, before: seq<Event>, t: nat, u: nat)
    requires t != u && After(c, before).m.state.Draining? && After(c, before).lock.None?
    requires Free(After(c, before), t) && Free(After(c, before), u)
    ensures var events := By(t, REFUSED_RUN) + By(t, RECONNECT) + By(t, CONNECTED);
      var s, next := After(c, before), After(c, before + events);
      && next.m.state.Connected? && next.m.activeLeases == s.m.activeLeases && Elsewhere(s, next, t) && Serves(next, u)
  {
    ReopenedByRun(After(c, before), t);
    AfterSteps(c, before, By(t, REFUSED_RUN) + By(t, RECONNECT) + By(t, CONNECTED));
  }

  lemma ReopenedByRun(s: System, t: nat)
    requires s.m.state.Draining? && s.lock.None? && Free(s, t)
    ensures var next := Steps(s, By(t, REFUSED_RUN) + By(t, RECONNECT) + By(t, CONNECTED));
      next.m.state.Connected? && next.m.activeLeases == s.m.activeLeases && Elsewhere(s, next, t)
  {
    var refused := Steps(s, By(t, REFUSED_RUN));
    var dropped := Steps(refused, By(t, RECONNECT));
    RefusedRun(s, t);
    StaleDropped(refused, t);
    AttemptSucceeds(dropped, t);
    StepsConcat(s, By(t, REFUSED_RUN), By(t, RECONNECT));
    StepsConcat(s, By(t, REFUSED_RUN) + By(t, RECONNECT), By(t, CONNECTED));
  }

  /** A drain is also overtaken by a connect attempt that was in flight when it began: from every
      state inside such an attempt, a drain and the attempt's completion leave the drain waiting
      for its leases while new ones are granted. */
  lemma DrainOvertakenByConnect(c: Setting, before: seq<Event>, t: nat, d: nat, u: nat)
    requires t != d && d != u && u != t && PcOf(After(c, before), t).Connect?
    requires Free(After(c, before), d) && Free(After(c, before), u) && DrainVerdict(After(c, before).m.state).Proceed?
    ensures var next := After(c, before + [Event(d, CallDrain), Event(t, Succeed)]);
      PcOf(next, d).DrainWait? && next.m.state.Connected? && Serves(next, u)
  {
    AfterSteps(c, before, [Event(d, CallDrain), Event(t, Succeed)]);
    TwoSteps(After(c, before), Event(d, CallDrain), Event(t, Succeed));
  }

  /** A lease asked for during shutdown waits for the operation lock and then reopens the manager
      that the shutdown has just closed: from every state in which shutdown is about to release
      the lock and a caller waits to start up for a lease.  It is itself granted exactly when no
      heartbeat is configured, or the supervisor is someone else's and not stopped: a shutdown
      stops the manager's own supervisor, and a startup that can start no heartbeat raises although
      it has connected.  Then the next caller is served. */
  lemma WaitingLeaseReopensClosed(c: Setting, before: seq<Event>, t: nat, u: nat)
    requires PcOf(After(c, before), t).ShutdownDone? && PcOf(After(c, before), u) == WantStartup(ForLease)
    requires After(c, before).m.state.Closed?
    ensures var next := After(c, before + [Event(t, Succeed), Event(u, Acquire)] + By(u, CONNECTED));
      && next.m.state.Connected?
      && (PcOf(next, u) == Leased(false) <==> !c.heartbeats || !(c.ownsSupervisor || After(c, before).heart.stopped))
      && forall v :: Free(next, v) ==> Serves(next, v)
  {
    RunOk(c, before);
    SettingStays(c, before);
    assert CallerOk(After(c, before), t);
    var s, first := After(c, before), [Event(t, Succeed), Event(u, Acquire)];
    LeaseBegins(s, t, u);
    LeaseConnects(Steps(s, first), u);
    StepsConcat(s, first, By(u, CONNECTED));
    assert before + first + By(u, CONNECTED) == before + (first + By(u, CONNECTED));
    AfterSteps(c, before, first + By(u, CONNECTED));
  }

  lemma LeaseBegins(s: System, t: nat, u: nat)
    requires s.lock == Some(t) && s.m.state.Closed? && PcOf(s, t).ShutdownDone? && PcOf(s, u) == WantStartup(ForLease)
    ensures var next := Steps(s, [Event(t, Succeed), Event(u, Acquire)]);
      && PcOf(next, u) == Connect(ForLease) && next.lock == Some(u)
      && next.heart.setting == s.heart.setting && next.heart.running == s.heart.running
      && next.heart.stopped == (s.heart.stopped || s.heart.setting.ownsSupervisor)
  {
    TwoSteps(s, Event(t, Succeed), Event(u, Acquire));
  }

  lemma LeaseConnects(s: System, u: nat)
    requires PcOf(s, u) == Connect(ForLease)
    ensures var next := Steps(s, By(u, CONNECTED));
      && next.m.state.Connected?
      && PcOf(next, u) == if s.heart.setting.heartbeats && !s.heart.running && s.heart.stopped then Idle else Leased(false)
  {
    assert By(u, CONNECTED) == [Event(u, Succeed), Event(u, Succeed)];
    TwoSteps(s, Event(u, Succeed), Event(u, Succeed));
  }

  // ----- Such states are reached --------------------------------------------------------------------

  lemma OneMore(c: Setting, events: seq<Event>, e: Event)
    ensures After(c, events + [e]) == Step(After(c, events), e)
  {
    assert (events + [e])[..|events|] == events;
  }

  ghost predicate OthersFree(s: System, t: nat, u: nat) {
    forall other :: other != t && other != u && other != s.heart.setting.caller ==> Free(s, other)
  }

  lemma ConnectInFlight(c: Setting, t: nat) returns (events: seq<Event>)
    requires t != c.caller
    ensures var s := After(c, events);
      s.m.state.Connecting? && s.lock == Some(t) && PcOf(s, t) == Connect(Alone)
      && !s.heart.stopped && s.heart.setting == c && OthersFree(s, t, t)
  {
    AfterSteps(c, [], [Event(t, CallStartup), Event(t, Acquire)]);
    TwoSteps(Start(c), Event(t, CallStartup), Event(t, Acquire));
    events := [] + [Event(t, CallStartup), Event(t, Acquire)];
  }

  lemma StartupConnects(s: System, t: nat)
    requires s.lock == Some(t) && PcOf(s, t) == Connect(Alone) && !s.heart.stopped
    requires t != s.heart.setting.caller && OthersFree(s, t, t)
    ensures var next := Steps(s, By(t, CONNECTED));
      next.m.state.Connected? && next.lock.None? && next.heart.setting == s.heart.setting && OthersFree(next, t, t) && Free(next, t)
  {
    assert By(t, CONNECTED) == [Event(t, Succeed), Event(t, Succeed)];
    TwoSteps(s, Event(t, Succeed), Event(t, Succeed));
    OthersStayFree(s, Event(t, Succeed), t);
    OthersStayFree(Step(s, Event(t, Succeed)), Event(t, Succeed), t);
  }

  lemma LeaseOutstanding(c: Setting, t: nat) returns (events: seq<Event>)
    requires t != c.caller
    ensures var s := After(c, events);
      s.m.state.Connected? && s.lock.None? && PcOf(s, t) == Leased(false) && s.heart.setting == c && OthersFree(s, t, t)
  {
    events := ConnectInFlight(c, t);
    AfterSteps(c, events, By(t, CONNECTED));
    StartupConnects(After(c, events), t);
    events := events + By(t, CONNECTED);
    OneMore(c, events, Event(t, CallLease));
    OthersStayFree(After(c, events), Event(t, CallLease), t);
    events := events + [Event(t, CallLease)];
  }

  lemma OthersStayFree(s: System, e: Event, t: nat)
    requires OthersFree(s, t, e.caller)
    ensures OthersFree(Step(s, e), t, e.caller)
  {
    SettingKept(s, e);
    forall other | other != t && other != e.caller && other != s.heart.setting.caller ensures Free(Step(s, e), other) {
      assert Free(s, other);
      OnlyTheCallerMoves(s, e, other);
    }
  }

  /** A drain that waits for a lease while the operation lock is free, under any setting. */
  lemma DrainWaiting(c: Setting, t: nat, d: nat) returns (events: seq<Event>)
    requires t != d && t != c.caller && d != c.caller
    ensures var s := After(c, events);
      s.m.state.Draining? && s.lock.None? && PcOf(s, t) == Leased(false) && PcOf(s, d).DrainWait? && OthersFree(s, t, d)
  {
    events := LeaseOutstanding(c, t);
    assert Free(After(c, events), d);
    OneMore(c, events, Event(d, CallDrain));
    OthersStayFree(After(c, events), Event(d, CallDrain), t);
    events := events + [Event(d, CallDrain)];
  }

  lemma ShutdownBegun(c: Setting, t: nat) returns (events: seq<Event>)
    requires t != c.caller
    ensures var s := After(c, events);
      s.m == INITIAL && PcOf(s, t).StopHeartbeat? && !s.heart.running && s.heart.setting == c && OthersFree(s, t, t)
  {
    AfterSteps(c, [], [Event(t, CallShutdown), Event(t, Acquire)]);
    TwoSteps(Start(c), Event(t, CallShutdown), Event(t, Acquire));
    events := [] + [Event(t, CallShutdown), Event(t, Acquire)];
  }

  lemma ClosingWithWaiter(s: System, t: nat, u: nat)
    requires t != u && s.m == INITIAL && PcOf(s, t).StopHeartbeat? && !s.heart.running && Free(s, u)
    ensures var next := Steps(s, [Event(t, Succeed), Event(u, CallLease)]);
      PcOf(next, t).ShutdownDisconnect? && PcOf(next, u) == WantStartup(ForLease)
  {
    TwoSteps(s, Event(t, Succeed), Event(u, CallLease));
  }

  /** A shutdown about to release the lock while a caller waits to start up for a lease. */
  lemma ClosedWithWaiter(c: Setting, t: nat, u: nat) returns (events: seq<Event>)
    requires t != u && t != c.caller && u != c.caller
    ensures var s := After(c, events);
      s.m.state.Closed? && PcOf(s, t).ShutdownDone? && PcOf(s, u) == WantStartup(ForLease)
  {
    events := ShutdownBegun(c, t);
    ClosingWithWaiter(After(c, events), t, u);
    AfterSteps(c, events, [Event(t, Succeed), Event(u, CallLease)]);
    events := events + [Event(t, Succeed), Event(u, CallLease)];
    OneMore(c, events, Event(t, Succeed));
    events := events + [Event(t, Succeed)];
  }

  // ----- Calls that nothing comes between ---------------------------------------------------------------

  lemma FirstOf(s: System, t: nat, actions: seq<Action>)
    requires actions != []
    ensures Steps(s, By(t, actions)) == Steps(Step(s, Event(t, actions[0])), By(t, actions[1..]))
  {
    assert By(t, actions)[1..] == By(t, actions[1..]);
  }

  lemma OneStep(s: System, t: nat, action: Action)
    ensures Steps(s, By(t, [action])) == Step(s, Event(t, action))
  {
    FirstOf(s, t, [action]);
  }

  function Ending(ok: bool): Action {
    if ok then Succeed else Fail
  }

  predicate AtRest(s: System, t: nat) {
    s.lock.None? && PcOf(s, t).Idle?
  }

  /** A caller that is done with its call has nothing to wait for. */
  lemma {:induction false} RestStays(s: System, t: nat, actions: seq<Action>)
    requires AtRest(s, t) && forall a :: a in actions ==> a.Succeed? || a.Fail?
    ensures Steps(s, By(t, actions)) == s
    decreases |actions|
  {
    if actions != [] {
      FirstOf(s, t, actions);
      assert actions[0] in actions;
      RestStays(s, t, actions[1..]);
    }
  }

  lemma AttemptEnded(s: System, t: nat, use: Use, connects: bool)
    requires s.lock == Some(t) && PcOf(s, t) == Connect(use)
    ensures var next := Step(s, Event(t, Ending(connects)));
      && next.lock == Some(t) && next.m == ConnectEnded(s.m, connects)
      && PcOf(next, t) == if connects then ConnectDone(use) else ConnectGaveUp(use, false)
  {
  }

  lemma AttemptLeft(s: System, t: nat, use: Use)
    requires s.lock == Some(t) && (PcOf(s, t) == ConnectDone(use) || PcOf(s, t) == ConnectGaveUp(use, false))
    requires use.Alone? || use.ForReconnect?
    ensures var next := Step(s, Event(t, Succeed)); AtRest(next, t) && next.m == s.m
  {
  }

  lemma AttemptEnds(s: System, t: nat, use: Use, connects: bool)
    requires s.lock == Some(t) && PcOf(s, t) == Connect(use) && (use.Alone? || use.ForReconnect?)
    ensures var next := Steps(s, By(t, [Ending(connects), Succeed]));
      AtRest(next, t) && next.m == ConnectEnded(s.m, connects)
  {
    FirstOf(s, t, [Ending(connects), Succeed]);
    OneStep(Step(s, Event(t, Ending(connects))), t, Succeed);
    AttemptEnded(s, t, use, connects);
    AttemptLeft(Step(s, Event(t, Ending(connects))), t, use);
  }

  const STARTING: seq<Action> := [CallStartup, Acquire]
  const RECONNECTING: seq<Action> := [CallReconnect, Acquire, Succeed]
  const STOPPING: seq<Action> := [CallShutdown, Acquire, Succeed]

  lemma StartupBegins(s: System, t: nat)
    requires s.lock.None? && Free(s, t)
    ensures var next := Steps(s, By(t, STARTING));
      if StartupVerdict(s.m.state).Proceed?
      then next.lock == Some(t) && PcOf(next, t) == Connect(Alone) && next.m == s.m.(state := State.Connecting)
      else AtRest(next, t) && next.m == s.m
  {
    FirstOf(s, t, STARTING);
    OneStep(Step(s, Event(t, CallStartup)), t, Acquire);
  }

  /** A startup that no other caller comes between does what `ConnectionManager.Startup` does. */
  lemma StartupUndisturbed(s: System, t: nat, connects: bool)
    requires s.lock.None? && Free(s, t)
    ensures var next := Steps(s, By(t, STARTING) + By(t, [Ending(connects), Succeed]));
      AtRest(next, t) && next.m == StartedUp(s.m, connects)
  {
    StepsConcat(s, By(t, STARTING), By(t, [Ending(connects), Succeed]));
    StartupBegins(s, t);
    if StartupVerdict(s.m.state).Proceed? {
      AttemptEnds(Steps(s, By(t, STARTING)), t, Alone, connects);
    } else {
      RestStays(Steps(s, By(t, STARTING)), t, [Ending(connects), Succeed]);
    }
  }

  lemma ReconnectQueued(s: System, t: nat)
    requires s.lock.None? && (Free(s, t) || Beating(s, t))
    ensures var queued := Step(s, Event(t, CallReconnect));
      queued.m == s.m && queued.lock.None? && PcOf(queued, t).WantReconnect?
    ensures Steps(s, By(t, RECONNECTING)) == Steps(Step(s, Event(t, CallReconnect)), By(t, [Acquire, Succeed]))
  {
    FirstOf(s, t, RECONNECTING);
    assert RECONNECTING[1..] == [Acquire, Succeed];
  }

  lemma ReconnectBegins(s: System, t: nat)
    requires s.lock.None? && (Free(s, t) || Beating(s, t))
    ensures var next := Steps(s, By(t, RECONNECTING));
      if ReconnectVerdict(s.m.state).Proceed?
      then next.lock == Some(t) && PcOf(next, t) == Connect(ForReconnect) && next.m == Dropped(s.m.(state := State.Reconnecting))
      else AtRest(next, t) && next.m == s.m
  {
    ReconnectQueued(s, t);
    var queued := Step(s, Event(t, CallReconnect));
    FirstOf(queued, t, [Acquire, Succeed]);
    OneStep(Step(queued, Event(t, Acquire)), t, Succeed);
  }

  lemma ReconnectUndisturbed(s: System, t: nat, connects: bool)
    requires s.lock.None? && (Free(s, t) || Beating(s, t))
    ensures var next := Steps(s, By(t, RECONNECTING) + By(t, [Ending(connects), Succeed]));
      AtRest(next, t) && next.m == Reconnected(s.m, connects)
  {
    StepsConcat(s, By(t, RECONNECTING), By(t, [Ending(connects), Succeed]));
    ReconnectBegins(s, t);
    if ReconnectVerdict(s.m.state).Proceed? {
      AttemptEnds(Steps(s, By(t, RECONNECTING)), t, ForReconnect, connects);
    } else {
      RestStays(Steps(s, By(t, RECONNECTING)), t, [Ending(connects), Succeed]);
    }
  }

  /** The drain of a shutdown: nothing to do, all leases back, or some not back in time. */
  function OwnDrain(m: Manager): seq<Action> {
    if m.state.Disconnected? || m.state.Closed? then [] else if m.activeLeases == 0 then [Succeed, Succeed] else [Fail]
  }

  lemma ShutdownQueued(s: System, t: nat)
    requires s.lock.None? && Free(s, t)
    ensures var queued := Step(s, Event(t, CallShutdown));
      queued.m == s.m && queued.heart == s.heart && queued.lock.None? && PcOf(queued, t).WantShutdown?
    ensures Steps(s, By(t, STOPPING)) == Steps(Step(s, Event(t, CallShutdown)), By(t, [Acquire, Succeed]))
  {
    FirstOf(s, t, STOPPING);
    assert STOPPING[1..] == [Acquire, Succeed];
  }

  lemma ShutdownBegins(s: System, t: nat)
    requires s.lock.None? && Free(s, t) && !s.heart.running && ShutdownVerdict(s.m.state).Proceed?
    ensures var next := Steps(s, By(t, STOPPING));
      && next.lock == Some(t) && next.m.activeLeases == s.m.activeLeases && next.m.reconnectCount == s.m.reconnectCount
      && (if DrainVerdict(s.m.state).Proceed? then PcOf(next, t).ShutdownDrain? else PcOf(next, t).ShutdownDisconnect?)
  {
    ShutdownQueued(s, t);
    var queued := Step(s, Event(t, CallShutdown));
    FirstOf(queued, t, [Acquire, Succeed]);
    OneStep(Step(queued, Event(t, Acquire)), t, Succeed);
  }

  lemma ShutdownDrains(s: System, t: nat)
    requires s.lock == Some(t) && PcOf(s, t).ShutdownDrain?
    ensures var next := Steps(s, By(t, if s.m.activeLeases == 0 then [Succeed, Succeed] else [Fail]));
      next.lock == Some(t) && PcOf(next, t).ShutdownDisconnect? && next.m == ClosingBegun(s.m)
  {
    if s.m.activeLeases == 0 {
      FirstOf(s, t, [Succeed, Succeed]);
      OneStep(Step(s, Event(t, Succeed)), t, Succeed);
    } else {
      OneStep(s, t, Fail);
    }
  }

  lemma ShutdownEnds(s: System, t: nat, disconnects: bool)
    requires s.lock == Some(t) && PcOf(s, t).ShutdownDisconnect?
    ensures var next := Steps(s, By(t, [Ending(disconnects), Succeed]));
      AtRest(next, t) && next.m == DisconnectEnded(s.m, disconnects)
  {
    FirstOf(s, t, [Ending(disconnects), Succeed]);
    OneStep(Step(s, Event(t, Ending(disconnects))), t, Succeed);
  }

  lemma ClosedAlready(s: System, t: nat)
    requires s.lock.None? && Free(s, t) && s.m.state.Closed?
    ensures AtRest(Steps(s, By(t, STOPPING)), t) && Steps(s, By(t, STOPPING)).m == s.m
  {
    ShutdownQueued(s, t);
    var queued := Step(s, Event(t, CallShutdown));
    FirstOf(queued, t, [Acquire, Succeed]);
    RestStays(Step(queued, Event(t, Acquire)), t, [Succeed]);
  }

  /** Where no heartbeat runs that it would have to end first. */
  lemma ShutdownUndisturbed(s: System, t: nat, disconnects: bool)
    requires s.lock.None? && Free(s, t) && !s.heart.running
    ensures var next := Steps(s, By(t, STOPPING) + By(t, OwnDrain(s.m)) + By(t, [Ending(disconnects), Succeed]));
      AtRest(next, t) && next.m == ShutDown(s.m, disconnects)
  {
    StepsConcat(s, By(t, STOPPING), By(t, OwnDrain(s.m)));
    StepsConcat(s, By(t, STOPPING) + By(t, OwnDrain(s.m)), By(t, [Ending(disconnects), Succeed]));
    var begun := Steps(s, By(t, STOPPING));
    if s.m.state.Closed? {
      ClosedAlready(s, t);
      RestStays(begun, t, OwnDrain(s.m));
      RestStays(begun, t, [Ending(disconnects), Succeed]);
    } else {
      ShutdownBegins(s, t);
      if DrainVerdict(s.m.state).Proceed? { ShutdownDrains(begun, t); }
      ShutdownEnds(Steps(begun, By(t, OwnDrain(s.m))), t, disconnects);
    }
  }

  // ----- What these calls come to, in states ------------------------------------------------------------

  /** A startup connects from every state but draining and closing, a failed or closed one
      included, and fails only by its own attempt. */
  lemma StartupOutcome(s: System, t: nat, connects: bool)
    requires s.lock.None? && Free(s, t)
    ensures var was, next := s.m.state, Steps(s, By(t, STARTING) + By(t, [Ending(connects), Succeed]));
      && AtRest(next, t) && next.m.activeLeases == s.m.activeLeases && next.m.reconnectCount == s.m.reconnectCount
      && (next.m.state.Connected? <==> was.Connected? || (connects && !was.Draining? && !was.Closing?))
      && (next.m.state.Failed? <==> !connects && !was.Connected? && !was.Draining? && !was.Closing?)
      && (was.Connected? || was.Draining? || was.Closing? ==> next.m.state == was)
  {
    StartupUndisturbed(s, t, connects);
  }

  /** A startup that has connected leaves a heartbeat running exactly when one ran already, or one is
      configured and the supervisor still takes it.  A reconnect starts none. */
  lemma HeartbeatStarts(s: System, t: nat, use: Use)
    requires PcOf(s, t) == ConnectDone(use)
    ensures var next := Step(s, Event(t, Succeed));
      next.heart.running <==> s.heart.running || (!use.ForReconnect? && s.heart.setting.heartbeats && !s.heart.stopped)
  {
  }

  /** A reconnect drops the connection and tries again from every state but draining, closing and
      closed. */
  lemma ReconnectOutcome(s: System, t: nat, connects: bool)
    requires s.lock.None? && (Free(s, t) || Beating(s, t))
    ensures var was, next := s.m.state, Steps(s, By(t, RECONNECTING) + By(t, [Ending(connects), Succeed]));
      && AtRest(next, t) && next.m.activeLeases == s.m.activeLeases
      && (if was.Draining? || was.Closing? || was.Closed? then next.m == s.m
          else next.m.reconnectCount == s.m.reconnectCount + 1
               && (if connects then next.m.state.Connected? else next.m.state.Failed?))
  {
    ReconnectUndisturbed(s, t, connects);
  }

  /** A drain called by itself needs no lock.  From a disconnected or closed manager it returns at
      once; from any other state it leaves the manager draining, whether its wait succeeds or
      times out. */
  lemma DrainOutcome(s: System, t: nat)
    requires Free(s, t)
    ensures var was := s.m.state;
      var next := Steps(s, By(t, [CallDrain, Ending(s.m.activeLeases == 0)]));
      && PcOf(next, t).Idle? && (s.lock != Some(t) ==> next.lock == s.lock)
      && (if was.Disconnected? || was.Closed? then next.m == s.m
          else next.m.state.Draining? && next.m.activeLeases == s.m.activeLeases && next.m.reconnectCount == s.m.reconnectCount)
  {
    FirstOf(s, t, [CallDrain, Ending(s.m.activeLeases == 0)]);
    OneStep(Step(s, Event(t, CallDrain)), t, Ending(s.m.activeLeases == 0));
  }

  /** A waiting drain returns exactly when no lease is out, in every run. */
  lemma DrainReturnsExactly(c: Setting, events: seq<Event>, t: nat)
    requires PcOf(After(c, events), t).DrainWait?
    ensures var s := After(c, events);
      PcOf(Step(s, Event(t, Succeed)), t).Idle? <==> Holders(s) == {}
  {
    RunOk(c, events);
    assert After(c, events).m.activeLeases == |Holders(After(c, events))|;
  }

  /** A shutdown closes the manager or fails, by the engine's disconnect alone; a closed manager
      stays closed without another disconnect. */
  lemma ShutdownOutcome(s: System, t: nat, disconnects: bool)
    requires s.lock.None? && Free(s, t) && !s.heart.running
    ensures var was := s.m.state;
      var next := Steps(s, By(t, STOPPING) + By(t, OwnDrain(s.m)) + By(t, [Ending(disconnects), Succeed]));
      && AtRest(next, t) && next.m.activeLeases == s.m.activeLeases && next.m.reconnectCount == s.m.reconnectCount
      && (next.m.state.Closed? <==> was.Closed? || disconnects)
      && (next.m.state.Failed? <==> !was.Closed? && !disconnects)
  {
    ShutdownUndisturbed(s, t, disconnects);
  }
}
