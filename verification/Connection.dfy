/** The connection manager: the code between two awaits as atomic sections.  The operation
    lock and the lease condition are objects of the event loop; the condition's lock is never
    held across an await, so taking it never suspends and the lease bookkeeping is atomic. */
module Connection {

  datatype State = Disconnected | Connecting | Connected | Reconnecting | Draining | Closing | Closed | Failed

  datatype Manager = Manager(state: State, activeLeases: int, reconnectCount: nat)

  const INITIAL := Manager(Disconnected, 0, 0)

  datatype Verdict = Proceed | AlreadyDone | Refused

  // ----- The sections as functions -------------------------------------------------

  function StartupVerdict(state: State): Verdict {
    match state
    case Connected => AlreadyDone
    case Draining => Refused
    case Closing => Refused
    case _ => Proceed
  }

  function ReconnectVerdict(state: State): Verdict {
    if state.Draining? || state.Closing? || state.Closed? then Refused else Proceed
  }

  function DrainVerdict(state: State): Verdict {
    if state.Closed? || state.Disconnected? then AlreadyDone else Proceed
  }

  function ShutdownVerdict(state: State): Verdict {
    if state.Closed? then AlreadyDone else Proceed
  }

  function Entered(m: Manager, verdict: Verdict, state: State): Manager {
    if verdict.Proceed? then m.(state := state) else m
  }

  /** The end of a connect attempt, its restore callbacks included. */
  function ConnectEnded(m: Manager, connected: bool): Manager {
    m.(state := if connected then Connected else Failed)
  }

  /** A reconnect has dropped the stale connection. */
  function Dropped(m: Manager): Manager {
    m.(reconnectCount := m.reconnectCount + 1)
  }

  function Leasing(m: Manager): Manager {
    if m.state.Connected? then m.(activeLeases := m.activeLeases + 1) else m
  }

  function Returned(m: Manager): Manager {
    m.(activeLeases := m.activeLeases - 1)
  }

  /** An error in `run`, or an unhealthy heartbeat: a connection error fails the connection. */
  function Noted(m: Manager, connectionError: bool): Manager {
    if connectionError then m.(state := Failed) else m
  }

  function ClosingBegun(m: Manager): Manager {
    m.(state := Closing)
  }

  function DisconnectEnded(m: Manager, ok: bool): Manager {
    m.(state := if ok then Closed else Failed)
  }

  // ----- Whole operations that nothing comes between -----------------------------------

  function StartedUp(m: Manager, connects: bool): Manager {
    if StartupVerdict(m.state).Proceed? then ConnectEnded(m, connects) else m
  }

  function Reconnected(m: Manager, connects: bool): Manager {
    if ReconnectVerdict(m.state).Proceed? then ConnectEnded(Dropped(m), connects) else m
  }

  function ShutDown(m: Manager, disconnects: bool): Manager {
    if ShutdownVerdict(m.state).Proceed? then DisconnectEnded(m, disconnects) else m
  }

  class ConnectionManager {
    var state: State
    var activeLeases: int
    var reconnectCount: nat

    ghost function Value(): Manager
      reads this
    {
      Manager(state, activeLeases, reconnectCount)
    }

    constructor ()
      ensures Value() == INITIAL
    {
      state, activeLeases, reconnectCount := Disconnected, 0, 0;
    }

    /** With the operation lock held. */
    method EnterStartup() returns (verdict: Verdict)
      modifies this
      ensures verdict == StartupVerdict(old(state))
      ensures verdict == if old(state).Connected? then AlreadyDone
                         else if old(state).Draining? || old(state).Closing? then Refused else Proceed
      ensures Value() == Entered(old(Value()), verdict, Connecting)
    {
      if state.Connected? { return AlreadyDone; }
      if state.Draining? || state.Closing? { return Refused; }
      state := Connecting;
      return Proceed;
    }

    /** With the operation lock held. */
    method EnterReconnect() returns (verdict: Verdict)
      modifies this
      ensures verdict == ReconnectVerdict(old(state))
      ensures verdict.Refused? <==> old(state).Draining? || old(state).Closing? || old(state).Closed?
      ensures Value() == Entered(old(Value()), verdict, Reconnecting)
    {
      if state.Draining? || state.Closing? || state.Closed? { return Refused; }
      state := Reconnecting;
      return Proceed;
    }

    method DropStale()
      modifies this
      ensures Value() == Dropped(old(Value()))
    {
      reconnectCount := reconnectCount + 1;
    }

    method EndConnect(connected: bool)
      modifies this
      ensures Value() == ConnectEnded(old(Value()), connected)
    {
      state := if connected then Connected else Failed;
    }

    /** Without the operation lock. */
    method EnterDrain() returns (verdict: Verdict)
      modifies this
      ensures verdict == DrainVerdict(old(state))
      ensures state == if old(state).Disconnected? || old(state).Closed? then old(state) else Draining
      ensures Value() == Entered(old(Value()), verdict, Draining)
    {
      if state.Closed? || state.Disconnected? { return AlreadyDone; }
      state := Draining;
      return Proceed;
    }

    method TryLease() returns (granted: bool)
      modifies this
      ensures granted == old(state).Connected?
      ensures state == old(state) && activeLeases == old(activeLeases) + if granted then 1 else 0
      ensures Value() == Leasing(old(Value()))
    {
      if !state.Connected? { return false; }
      activeLeases := activeLeases + 1;
      return true;
    }

    method ReleaseLease()
      modifies this
      ensures Value() == Returned(old(Value()))
    {
      activeLeases := activeLeases - 1;
    }

    /** Without the operation lock.  The answer is whether a reconnect follows. */
    method NoteError(connectionError: bool) returns (reconnect: bool)
      modifies this
      ensures reconnect == connectionError && Value() == Noted(old(Value()), connectionError)
    {
      if connectionError {
        state := Failed;
      }
      return connectionError;
    }

    method BeginClosing()
      modifies this
      ensures Value() == ClosingBegun(old(Value()))
    {
      state := Closing;
    }

    method EndDisconnect(ok: bool)
      modifies this
      ensures Value() == DisconnectEnded(old(Value()), ok)
    {
      state := if ok then Closed else Failed;
    }

    /** Startup, when nothing else touches the manager while it awaits the engine. */
    method Startup(connects: bool) returns (connected: bool)
      modifies this
      ensures Value() == StartedUp(old(Value()), connects)
      ensures connected <==> state.Connected?
      ensures connected <==> old(state).Connected? || (connects && !old(state).Draining? && !old(state).Closing?)
    {
      var verdict := EnterStartup();
      if verdict.Proceed? {
        EndConnect(connects);
      }
      return verdict.AlreadyDone? || (verdict.Proceed? && connects);
    }

    /** Reconnect, in the same way. */
    method Reconnect(connects: bool) returns (connected: bool)
      modifies this
      ensures Value() == Reconnected(old(Value()), connects)
      ensures connected <==> state.Connected?
    {
      var verdict := EnterReconnect();
      if verdict.Proceed? {
        DropStale();
        EndConnect(connects);
      }
      return verdict.Proceed? && connects;
    }

    /** Shutdown, in the same way; its own drain may return at once, wait or time out. */
    method Shutdown(disconnects: bool) returns (closed: bool)
      modifies this
      ensures Value() == ShutDown(old(Value()), disconnects)
      ensures closed <==> state.Closed?
    {
      if state.Closed? { return true; }
      var _ := EnterDrain();
      BeginClosing();
      EndDisconnect(disconnects);
      return disconnects;
    }
  }
}
