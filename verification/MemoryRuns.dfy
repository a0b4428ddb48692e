/** Every run of one memory consumer: publishers, workers and a closing task interleaved at
    their awaits, with arbitrary callbacks. */
module MemoryRuns {
  import opened MemoryConsumer

  datatype Worker =
    | Waiting                    // in queue.get
    | Busy(item: Item)           // paused or in the callback
    | Delaying(item: Item)       // sleeping a deferral
    | PuttingBack(item: Item)    // waiting for room
    | Exited

  datatype Closer =
    | NotClosing
    | Joining                    // waiting until nothing is unfinished
    | Stopping(left: nat)        // putting one stop marker per worker
    | Cancelling                 // the drain timed out

  /** `joined` latches the moment the unfinished count released the closing task. */
  datatype System = System(
    q: Queue,
    closed: bool,
    closer: Closer,
    joined: bool,
    blocked: set<nat>,
    workers: map<nat, Worker>,
    fates: map<nat, Fate>,
    putBacks: map<nat, nat>)

  datatype Event =
    | Publish(id: nat, policy: Policy)
    | Unblock(id: nat)                       // a blocked publisher finds room
    | PublisherCancelled(id: nat)            // a blocked publisher gives up
    | Take(worker: nat)
    | Finish(worker: nat, raised: bool, action: Action)
    | DelayOver(worker: nat)
    | PutBackNow(worker: nat)
    | Close
    | Joined                                  // the closing task resumes after join
    | PutStop
    | DrainTimeout
    | CancelWorker(worker: nat)

  function Start(workers: set<nat>): System {
    System(Queue([], 0), false, NotClosing, false, {}, map w | w in workers :: Waiting, map[], map[])
  }

  function WorkerOf(s: System, w: nat): Worker {
    if w in s.workers then s.workers[w] else Exited
  }

  predicate Holding(w: Worker) {
    w.Busy? || w.Delaying? || w.PuttingBack?
  }

  function Attempt(s: System, id: nat): nat {
    1 + if id in s.putBacks then s.putBacks[id] else 0
  }

  predicate Known(s: System, id: nat) {
    id in s.putBacks
  }

  /** `task_done`: the latch is set when the count reaches zero under a waiting close. */
  function Done(s: System): System {
    if s.q.unfinished == 0 then s
    else
      var q := TaskDone(s.q);
      s.(q := q, joined := s.joined || (s.closer.Joining? && q.unfinished == 0))
  }

  function Accept(s: System, id: nat): System {
    s.(q := Put(s.q, Work(Item(id, 1))), putBacks := s.putBacks[id := 0], blocked := s.blocked - {id})
  }

  function Ended(s: System, w: nat, item: Item, fate: Fate): System {
    Done(s.(workers := s.workers[w := Waiting], fates := s.fates[item.id := fate]))
  }

  function MaybePutBack(s: System, w: nat, item: Item): System {
    if s.closed then Ended(s, w, item, Discarded) else s.(workers := s.workers[w := PuttingBack(item)])
  }

  function Step(capacity: nat, s: System, e: Event): System {
    match e
    case Publish(id, policy) =>
      if s.closed || Known(s, id) || id in s.blocked then s
      else if |s.q.slots| < capacity then Accept(s, id)
      else if policy.Block? then s.(blocked := s.blocked + {id})
      else s
    case Unblock(id) =>
      if id in s.blocked && |s.q.slots| < capacity then Accept(s, id) else s
    case PublisherCancelled(id) => s.(blocked := s.blocked - {id})
    case Take(w) =>
      if !WorkerOf(s, w).Waiting? || s.q.slots == [] then s
      else
        var rest := s.(q := s.q.(slots := s.q.slots[1..]));
        (match s.q.slots[0]
         case Work(item) => rest.(workers := s.workers[w := Busy(item)])
         case Stop => Done(rest.(workers := s.workers[w := Exited])))
    case Finish(w, raised, action) =>
      if !WorkerOf(s, w).Busy? then s
      else
        var item := s.workers[w].item;
        if raised then Ended(s, w, item, FailedOnce)
        else if action.Defer? then s.(workers := s.workers[w := Delaying(item)])
        else if action.Requeue? then MaybePutBack(s, w, item)
        else Ended(s, w, item, Settled)
    case DelayOver(w) =>
      if WorkerOf(s, w).Delaying? then MaybePutBack(s, w, s.workers[w].item) else s
    case PutBackNow(w) =>
      if !WorkerOf(s, w).PuttingBack? || |s.q.slots| >= capacity then s
      else
        var item := s.workers[w].item;
        Done(s.(q := Put(s.q, Work(Item(item.id, item.attempt + 1))),
                putBacks := s.putBacks[item.id := (if item.id in s.putBacks then s.putBacks[item.id] else 0) + 1],
                workers := s.workers[w := Waiting]))
    case Close =>
      if s.closed then s else s.(closed := true, closer := Joining, joined := s.q.unfinished == 0)
    case Joined =>
      if s.closer.Joining? && s.joined then s.(closer := Stopping(|s.workers|)) else s
    case PutStop =>
      if s.closer.Stopping? && s.closer.left > 0 && |s.q.slots| < capacity
      then s.(q := Put(s.q, Stop), closer := Stopping(s.closer.left - 1)) else s
    case DrainTimeout =>
      if s.closer.Joining? then s.(closer := Cancelling) else s
    case CancelWorker(w) =>
      if WorkerOf(s, w).Waiting? then s.(workers := s.workers[w := Exited])
      else if Holding(WorkerOf(s, w)) then
        var next := Ended(s, w, s.workers[w].item, Discarded);
        next.(workers := next.workers[w := Exited])
      else s
  }

  function After(capacity: nat, workers: set<nat>, events: seq<Event>): System {
    if events == [] then Start(workers)
    else Step(capacity, After(capacity, workers, events[..|events| - 1]), events[|events| - 1])
  }

  // ----- What a publish comes to -------------------------------------------------------------

  /** A new item is refused by a closed consumer, goes to the end of the queue when there is room, and
      otherwise makes its publisher wait exactly under the blocking policy. */
  lemma PublishOutcome(capacity: nat, s: System, id: nat, policy: Policy)
    requires !Known(s, id) && id !in s.blocked
    ensures var next := Step(capacity, s, Publish(id, policy));
      if s.closed then next == s
      else if |s.q.slots| < capacity then next.q.slots == s.q.slots + [Work(Item(id, 1))] && next.blocked == s.blocked && Known(next, id)
      else next.q == s.q && !Known(next, id) && next.blocked == (if policy.Block? then s.blocked + {id} else s.blocked)
  {
  }

  // ----- What a callback comes to ----------------------------------------------------------

  /** A worker after its callback, and after the delay of a deferral: it puts the item back exactly
      when the callback did not raise, asked for a requeue or a deferral, and the consumer is open.
      Otherwise the item is done with, and its fate tells why. */
  lemma CallbackOutcome(capacity: nat, s: System, w: nat, raised: bool, action: Action)
    requires WorkerOf(s, w).Busy?
    ensures var item, finished := WorkerOf(s, w).item, Step(capacity, s, Finish(w, raised, action));
      var next := if !raised && action.Defer? then Step(capacity, finished, DelayOver(w)) else finished;
      if !raised && !s.closed && (action.Requeue? || action.Defer?)
      then PutsBack(action, s.closed) && WorkerOf(next, w) == PuttingBack(item) && next.q == s.q && next.fates == s.fates
      else && WorkerOf(next, w).Waiting? && next.q.slots == s.q.slots
           && next.fates == s.fates[item.id := if raised then FailedOnce
                                               else if action.Requeue? || action.Defer? then Discarded else Settled]
  {
  }

  /** An item that is put back goes to the end of the queue with one more attempt, as soon as there
      is room. */
  lemma PutBackReturns(capacity: nat, s: System, w: nat)
    requires WorkerOf(s, w).PuttingBack?
    ensures var item, next := WorkerOf(s, w).item, Step(capacity, s, PutBackNow(w));
      if |s.q.slots| < capacity
      then next.q.slots == s.q.slots + [Work(Item(item.id, item.attempt + 1))] && WorkerOf(next, w).Waiting?
      else next == s
  {
  }

  // ----- Where items are -----------------------------------------------------------------

  predicate QueuedAt(q: Queue, i: nat, id: nat) {
    i < |q.slots| && q.slots[i].Work? && q.slots[i].item.id == id
  }

  predicate HeldBy(s: System, w: nat, id: nat) {
    Holding(WorkerOf(s, w)) && WorkerOf(s, w).item.id == id
  }

  function HoldingWorkers(s: System): set<nat> {
    set w | w in s.workers && Holding(s.workers[w])
  }

  ghost predicate Located(s: System, id: nat) {
    || (exists i :: QueuedAt(s.q, i, id))
    || (exists w :: HeldBy(s, w, id))
    || id in s.fates
  }

  /** No two places hold the same item. */
  ghost predicate PlacesDisjoint(s: System) {
    && (forall i, j, id :: QueuedAt(s.q, i, id) && QueuedAt(s.q, j, id) ==> i == j)
    && (forall w, v, id :: HeldBy(s, w, id) && HeldBy(s, v, id) ==> w == v)
    && (forall i, w, id :: !(QueuedAt(s.q, i, id) && HeldBy(s, w, id)))
    && (forall i, id :: QueuedAt(s.q, i, id) ==> id in s.putBacks && id !in s.fates)
    && (forall w, id :: HeldBy(s, w, id) ==> id in s.putBacks && id !in s.fates)
    && s.fates.Keys <= s.putBacks.Keys
  }

  ghost predicate AttemptsCount(s: System) {
    && (forall i :: 0 <= i < |s.q.slots| && s.q.slots[i].Work? ==>
          s.q.slots[i].item.attempt == Attempt(s, s.q.slots[i].item.id))
    && (forall w :: w in s.workers && Holding(s.workers[w]) ==>
          s.workers[w].item.attempt == Attempt(s, s.workers[w].item.id))
  }

  ghost predicate Ok(capacity: nat, s: System) {
    && |s.q.slots| <= capacity
    && s.q.unfinished == |s.q.slots| + |HoldingWorkers(s)|
    && PlacesDisjoint(s)
    && (forall id :: id in s.putBacks ==> Located(s, id))
    && AttemptsCount(s)
    && s.blocked !! s.putBacks.Keys
    && (s.closed <==> !s.closer.NotClosing?)
  }

  // ----- The four ways an item moves ------------------------------------------------------------

  lemma AcceptOk(capacity: nat, s: System, id: nat)
    requires Ok(capacity, s) && id !in s.putBacks && |s.q.slots| < capacity
    ensures Ok(capacity, Accept(s, id))
  {
    var next := Accept(s, id);
    assert HoldingWorkers(next) == HoldingWorkers(s);
    forall x | x in next.putBacks ensures Located(next, x) {
      if x == id { assert QueuedAt(next.q, |s.q.slots|, id); }
      else {
        assert Located(s, x);
        if i: nat :| QueuedAt(s.q, i, x) { assert QueuedAt(next.q, i, x); }
        else if w :| HeldBy(s, w, x) { assert HeldBy(next, w, x); }
      }
    }
    assert forall i, x :: QueuedAt(next.q, i, x) ==> QueuedAt(s.q, i, x) || (i == |s.q.slots| && x == id);
    assert forall w, x :: HeldBy(next, w, x) ==> HeldBy(s, w, x);
  }

  function Taken(s: System, w: nat): System
    requires s.q.slots != [] && s.q.slots[0].Work?
  {
    s.(q := s.q.(slots := s.q.slots[1..]), workers := s.workers[w := Busy(s.q.slots[0].item)])
  }

  lemma TakePlaces(s: System, w: nat)
    requires PlacesDisjoint(s) && WorkerOf(s, w).Waiting? && s.q.slots != [] && s.q.slots[0].Work?
    ensures PlacesDisjoint(Taken(s, w))
  {
    var next, id := Taken(s, w), s.q.slots[0].item.id;
    assert QueuedAt(s.q, 0, id);
    assert forall i: nat, x :: QueuedAt(next.q, i, x) ==> QueuedAt(s.q, i + 1, x);
    assert forall v, x :: HeldBy(next, v, x) ==> (v == w && x == id) || (v != w && HeldBy(s, v, x));
  }

  lemma TakeLocated(s: System, w: nat, x: nat)
    requires WorkerOf(s, w).Waiting? && s.q.slots != [] && s.q.slots[0].Work? && Located(s, x)
    ensures Located(Taken(s, w), x)
  {
    var next := Taken(s, w);
    if i: nat :| QueuedAt(s.q, i, x) {
      if i == 0 { assert HeldBy(next, w, x); } else { assert QueuedAt(next.q, i - 1, x); }
    } else if v :| HeldBy(s, v, x) {
      assert HeldBy(next, v, x);
    }
  }

  lemma TakeOk(capacity: nat, s: System, w: nat)
    requires Ok(capacity, s) && WorkerOf(s, w).Waiting? && s.q.slots != [] && s.q.slots[0].Work?
    ensures Ok(capacity, Taken(s, w))
  {
    var next := Taken(s, w);
    assert HoldingWorkers(next) == HoldingWorkers(s) + {w};
    TakePlaces(s, w);
    forall x | x in next.putBacks ensures Located(next, x) { TakeLocated(s, w, x); }
  }

  /** The worker goes on holding the same item. */
  lemma PhaseOk(capacity: nat, s: System, w: nat, phase: Worker)
    requires Ok(capacity, s) && Holding(WorkerOf(s, w)) && Holding(phase) && phase.item == s.workers[w].item
    ensures Ok(capacity, s.(workers := s.workers[w := phase]))
  {
    var next := s.(workers := s.workers[w := phase]);
    assert HoldingWorkers(next) == HoldingWorkers(s);
    assert forall v, x :: HeldBy(next, v, x) <==> HeldBy(s, v, x);
    forall x | x in next.putBacks ensures Located(next, x) {
      assert Located(s, x);
      if v :| HeldBy(s, v, x) { assert HeldBy(next, v, x); }
    }
  }

  lemma EndedOk(capacity: nat, s: System, w: nat, fate: Fate)
    requires Ok(capacity, s) && Holding(WorkerOf(s, w))
    ensures s.q.unfinished > 0 && Ok(capacity, Ended(s, w, s.workers[w].item, fate))
  {
    var item := s.workers[w].item;
    assert HeldBy(s, w, item.id) && w in HoldingWorkers(s);
    var next := Ended(s, w, item, fate);
    assert HoldingWorkers(next) == HoldingWorkers(s) - {w};
    assert forall v, x :: HeldBy(next, v, x) ==> v != w && HeldBy(s, v, x);
    assert PlacesDisjoint(next) by { EndedPlaces(s, next, w, fate); }
    forall x | x in next.putBacks ensures Located(next, x) { EndedLocated(s, next, w, fate, x); }
  }

  lemma EndedPlaces(s: System, next: System, w: nat, fate: Fate)
    requires PlacesDisjoint(s) && Holding(WorkerOf(s, w))
    requires next.q.slots == s.q.slots && next.putBacks == s.putBacks && next.fates == s.fates[s.workers[w].item.id := fate]
    requires forall v, x :: HeldBy(next, v, x) ==> v != w && HeldBy(s, v, x)
    ensures PlacesDisjoint(next)
  {
    assert HeldBy(s, w, s.workers[w].item.id);
    assert forall i, x :: QueuedAt(next.q, i, x) ==> QueuedAt(s.q, i, x);
  }

  lemma EndedLocated(s: System, next: System, w: nat, fate: Fate, x: nat)
    requires Holding(WorkerOf(s, w)) && Located(s, x)
    requires next.q.slots == s.q.slots && next.fates == s.fates[s.workers[w].item.id := fate]
    requires forall v :: v != w ==> WorkerOf(next, v) == WorkerOf(s, v)
    ensures Located(next, x)
  {
    if i: nat :| QueuedAt(s.q, i, x) {
      assert QueuedAt(next.q, i, x);
    } else if v :| HeldBy(s, v, x) {
      if v != w { assert HeldBy(next, v, x); }
    }
  }

  function PutBackNext(s: System, w: nat): System
    requires w in s.workers && Holding(s.workers[w])
  {
    var item := s.workers[w].item;
    s.(q := Queue(s.q.slots + [Work(Item(item.id, item.attempt + 1))], s.q.unfinished),
       putBacks := s.putBacks[item.id := (if item.id in s.putBacks then s.putBacks[item.id] else 0) + 1],
       workers := s.workers[w := Waiting])
  }

  lemma PutBackPlaces(s: System, w: nat)
    requires PlacesDisjoint(s) && Holding(WorkerOf(s, w))
    ensures PlacesDisjoint(PutBackNext(s, w))
  {
    var next, id := PutBackNext(s, w), s.workers[w].item.id;
    assert HeldBy(s, w, id);
    assert forall i, x :: QueuedAt(next.q, i, x) ==> QueuedAt(s.q, i, x) || (i == |s.q.slots| && x == id);
    assert forall v, x :: HeldBy(next, v, x) ==> v != w && HeldBy(s, v, x);
  }

  lemma PutBackAttempts(s: System, w: nat)
    requires PlacesDisjoint(s) && AttemptsCount(s) && Holding(WorkerOf(s, w))
    ensures AttemptsCount(PutBackNext(s, w))
  {
    var next, id := PutBackNext(s, w), s.workers[w].item.id;
    assert HeldBy(s, w, id);
    forall i | 0 <= i < |s.q.slots| && s.q.slots[i].Work? ensures s.q.slots[i].item.id != id {
      assert QueuedAt(s.q, i, s.q.slots[i].item.id);
    }
    forall v | v in s.workers && v != w && Holding(s.workers[v]) ensures s.workers[v].item.id != id {
      assert HeldBy(s, v, s.workers[v].item.id);
    }
  }

  lemma PutBackOk(capacity: nat, s: System, w: nat)
    requires Ok(capacity, s) && Holding(WorkerOf(s, w)) && |s.q.slots| < capacity
    ensures Ok(capacity, PutBackNext(s, w)) && s.q.unfinished > 0
  {
    var next, id := PutBackNext(s, w), s.workers[w].item.id;
    assert HeldBy(s, w, id) && w in HoldingWorkers(s);
    assert HoldingWorkers(next) == HoldingWorkers(s) - {w};
    PutBackPlaces(s, w);
    PutBackAttempts(s, w);
    forall x | x in next.putBacks ensures Located(next, x) {
      assert Located(s, x);
      if x == id { assert QueuedAt(next.q, |s.q.slots|, x); }
      else if i: nat :| QueuedAt(s.q, i, x) { assert QueuedAt(next.q, i, x); }
      else if v :| HeldBy(s, v, x) { assert HeldBy(next, v, x); }
    }
  }

  // ----- Every step -----------------------------------------------------------------------------

  lemma StopPutOk(capacity: nat, s: System, closer: Closer)
    requires Ok(capacity, s) && |s.q.slots| < capacity && s.closed && !closer.NotClosing?
    ensures Ok(capacity, s.(q := Put(s.q, Stop), closer := closer))
  {
    var next := s.(q := Put(s.q, Stop), closer := closer);
    assert HoldingWorkers(next) == HoldingWorkers(s);
    assert forall i, x :: QueuedAt(next.q, i, x) <==> QueuedAt(s.q, i, x);
    SamePlaces(s, next);
  }

  /** Equal places keep everything but the counts. */
  lemma SamePlaces(s: System, next: System)
    requires PlacesDisjoint(s) && forall id :: id in s.putBacks ==> Located(s, id)
    requires next.fates == s.fates && next.putBacks == s.putBacks
    requires forall i, x :: QueuedAt(next.q, i, x) <==> QueuedAt(s.q, i, x)
    requires forall w, x :: HeldBy(next, w, x) <==> HeldBy(s, w, x)
    ensures PlacesDisjoint(next) && forall id :: id in next.putBacks ==> Located(next, id)
  {
    forall x | x in next.putBacks ensures Located(next, x) {
      assert Located(s, x);
      if i: nat :| QueuedAt(s.q, i, x) { assert QueuedAt(next.q, i, x); }
      else if w :| HeldBy(s, w, x) { assert HeldBy(next, w, x); }
    }
  }

  function StopTaken(s: System, w: nat): System
    requires s.q.slots != []
  {
    Done(s.(q := s.q.(slots := s.q.slots[1..]), workers := s.workers[w := Exited]))
  }

  lemma StopTakenOk(capacity: nat, s: System, w: nat)
    requires Ok(capacity, s) && WorkerOf(s, w).Waiting? && s.q.slots != [] && s.q.slots[0].Stop?
    ensures Ok(capacity, StopTaken(s, w))
  {
    var next := StopTaken(s, w);
    assert HoldingWorkers(next) == HoldingWorkers(s);
    assert forall i: nat, x :: QueuedAt(next.q, i, x) ==> QueuedAt(s.q, i + 1, x);
    assert forall v, x :: HeldBy(next, v, x) ==> HeldBy(s, v, x);
    forall x | x in next.putBacks ensures Located(next, x) {
      assert Located(s, x);
      if i: nat :| QueuedAt(s.q, i, x) { assert QueuedAt(next.q, i - 1, x); }
      else if v :| HeldBy(s, v, x) { assert HeldBy(next, v, x); }
    }
  }

  /** A step that moves no item and no slot. */
  lemma StillOk(capacity: nat, s: System, next: System)
    requires Ok(capacity, s)
    requires next.q == s.q && next.fates == s.fates && next.putBacks == s.putBacks && next.blocked !! next.putBacks.Keys
    requires next.closed <==> !next.closer.NotClosing?
    requires forall w :: WorkerOf(next, w) == WorkerOf(s, w) || (WorkerOf(s, w).Waiting? && WorkerOf(next, w).Exited?)
    ensures Ok(capacity, next)
  {
    assert HoldingWorkers(next) == HoldingWorkers(s) by {
      forall w ensures w in HoldingWorkers(next) <==> w in HoldingWorkers(s) {
        assert Holding(WorkerOf(next, w)) <==> Holding(WorkerOf(s, w));
      }
    }
    assert forall w, x :: HeldBy(next, w, x) <==> HeldBy(s, w, x);
    SamePlaces(s, next);
    forall w | w in next.workers && Holding(next.workers[w])
      ensures next.workers[w].item.attempt == Attempt(next, next.workers[w].item.id)
    {
      assert WorkerOf(next, w) == WorkerOf(s, w);
    }
  }

  lemma ExitedOk(capacity: nat, s: System, w: nat)
    requires Ok(capacity, s) && WorkerOf(s, w).Waiting?
    ensures Ok(capacity, s.(workers := s.workers[w := Exited]))
  {
    StillOk(capacity, s, s.(workers := s.workers[w := Exited]));
  }

  lemma MaybePutBackOk(capacity: nat, s: System, w: nat)
    requires Ok(capacity, s) && Holding(WorkerOf(s, w))
    ensures Ok(capacity, MaybePutBack(s, w, s.workers[w].item))
  {
    if s.closed { EndedOk(capacity, s, w, Discarded); }
    else { PhaseOk(capacity, s, w, PuttingBack(s.workers[w].item)); }
  }

  lemma FinishOk(capacity: nat, s: System, w: nat, raised: bool, action: Action)
    requires Ok(capacity, s) && WorkerOf(s, w).Busy?
    ensures Ok(capacity, Step(capacity, s, Finish(w, raised, action)))
  {
    if raised { EndedOk(capacity, s, w, FailedOnce); }
    else if action.Defer? { PhaseOk(capacity, s, w, Delaying(s.workers[w].item)); }
    else if action.Requeue? { MaybePutBackOk(capacity, s, w); }
    else { EndedOk(capacity, s, w, Settled); }
  }

  lemma TakeStepOk(capacity: nat, s: System, w: nat)
    requires Ok(capacity, s) && WorkerOf(s, w).Waiting? && s.q.slots != []
    ensures Ok(capacity, Step(capacity, s, Take(w)))
  {
    if s.q.slots[0].Work? { TakeOk(capacity, s, w); } else { StopTakenOk(capacity, s, w); }
  }

  lemma PublisherStepOk(capacity: nat, s: System, e: Event)
    requires Ok(capacity, s) && (e.Publish? || e.Unblock? || e.PublisherCancelled?)
    ensures Ok(capacity, Step(capacity, s, e))
  {
    var id := e.id;
    if e.PublisherCancelled? {
      StillOk(capacity, s, Step(capacity, s, e));
    } else if id !in s.putBacks && |s.q.slots| < capacity {
      AcceptOk(capacity, s, id);
    } else if id !in s.putBacks {
      StillOk(capacity, s, s.(blocked := s.blocked + {id}));
    }
  }

  lemma CloserStepOk(capacity: nat, s: System, e: Event)
    requires Ok(capacity, s) && (e.Close? || e.Joined? || e.PutStop? || e.DrainTimeout?)
    ensures Ok(capacity, Step(capacity, s, e))
  {
    if e.PutStop? && s.closer.Stopping? && s.closer.left > 0 && |s.q.slots| < capacity {
      StopPutOk(capacity, s, Stopping(s.closer.left - 1));
    } else {
      StillOk(capacity, s, Step(capacity, s, e));
    }
  }

  lemma CancelStepOk(capacity: nat, s: System, w: nat)
    requires Ok(capacity, s)
    ensures Ok(capacity, Step(capacity, s, CancelWorker(w)))
  {
    if Holding(WorkerOf(s, w)) {
      EndedOk(capacity, s, w, Discarded);
      ExitedOk(capacity, Ended(s, w, s.workers[w].item, Discarded), w);
    } else if WorkerOf(s, w).Waiting? {
      ExitedOk(capacity, s, w);
    }
  }

  lemma WorkerStepOk(capacity: nat, s: System, e: Event)
    requires Ok(capacity, s) && (e.Take? || e.Finish? || e.DelayOver? || e.PutBackNow?)
    ensures Ok(capacity, Step(capacity, s, e))
  {
    match e
    case Take(w) => if WorkerOf(s, w).Waiting? && s.q.slots != [] { TakeStepOk(capacity, s, w); }
    case Finish(w, raised, action) => if WorkerOf(s, w).Busy? { FinishOk(capacity, s, w, raised, action); }
    case DelayOver(w) => if WorkerOf(s, w).Delaying? { MaybePutBackOk(capacity, s, w); }
    case PutBackNow(w) =>
      if WorkerOf(s, w).PuttingBack? && |s.q.slots| < capacity { PutBackOk(capacity, s, w); }
  }

  lemma StepOk(capacity: nat, s: System, e: Event)
    requires Ok(capacity, s)
    ensures Ok(capacity, Step(capacity, s, e))
  {
    if e.Publish? || e.Unblock? || e.PublisherCancelled? { PublisherStepOk(capacity, s, e); }
    else if e.CancelWorker? { CancelStepOk(capacity, s, e.worker); }
    else if e.Close? || e.Joined? || e.PutStop? || e.DrainTimeout? { CloserStepOk(capacity, s, e); }
    else { WorkerStepOk(capacity, s, e); }
  }

  lemma {:induction false} RunOk(capacity: nat, workers: set<nat>, events: seq<Event>)
    ensures Ok(capacity, After(capacity, workers, events))
  {
    if events == [] {
      assert HoldingWorkers(Start(workers)) == {};
    } else {
      RunOk(capacity, workers, events[..|events| - 1]);
      StepOk(capacity, After(capacity, workers, events[..|events| - 1]), events[|events| - 1]);
    }
  }

  // ----- Main results ----------------------------------------------------------------------------

  /** Every accepted item is in exactly one place: one queue slot, one worker, or done with;
      the queue never exceeds its capacity; an item's attempt is one more than its put-backs;
      and the unfinished count is the number of slots plus the number of busy workers. */
  lemma EveryItemInOnePlace(capacity: nat, workers: set<nat>, events: seq<Event>, id: nat)
    ensures var s := After(capacity, workers, events);
      && |s.q.slots| <= capacity
      && s.q.unfinished == |s.q.slots| + |HoldingWorkers(s)|
      && (id in s.putBacks <==> Located(s, id))
      && (forall i, j :: QueuedAt(s.q, i, id) && QueuedAt(s.q, j, id) ==> i == j)
      && (forall w, v :: HeldBy(s, w, id) && HeldBy(s, v, id) ==> w == v)
      && (forall i, w :: !(QueuedAt(s.q, i, id) && HeldBy(s, w, id)))
      && (forall i: nat :: QueuedAt(s.q, i, id) ==> id !in s.fates && s.q.slots[i].item.attempt == 1 + s.putBacks[id])
      && (forall w :: HeldBy(s, w, id) ==> id !in s.fates && WorkerOf(s, w).item.attempt == 1 + s.putBacks[id])
  {
    RunOk(capacity, workers, events);
  }

  /** Nothing is in flight: no item queued, none held by a worker. */
  ghost predicate Idle(s: System) {
    && (forall i, id :: !QueuedAt(s.q, i, id))
    && (forall w, id :: !HeldBy(s, w, id))
  }

  lemma NothingUnfinished(capacity: nat, s: System)
    requires Ok(capacity, s) && s.q.unfinished == 0
    ensures Idle(s) && s.q.slots == []
  {
    assert |HoldingWorkers(s)| == 0;
    assert forall w :: Holding(WorkerOf(s, w)) ==> w in HoldingWorkers(s);
  }

  lemma ReleasedAtZero(capacity: nat, s: System, e: Event)
    requires (s.closed <==> !s.closer.NotClosing?) && !s.joined && Step(capacity, s, e).joined
    ensures var next := Step(capacity, s, e); next.q.unfinished == 0 && next.closed && next.blocked == s.blocked
  {
  }

  lemma ReleasedWhenIdle(capacity: nat, s: System, e: Event)
    requires Ok(capacity, s) && !s.joined && Step(capacity, s, e).joined
    ensures var next := Step(capacity, s, e);
      && Idle(next) && next.fates.Keys == next.putBacks.Keys && next.closed && next.blocked == s.blocked
  {
    ReleasedAtZero(capacity, s, e);
    StepOk(capacity, s, e);
    AllDoneWith(capacity, Step(capacity, s, e));
  }

  lemma AllDoneWith(capacity: nat, s: System)
    requires Ok(capacity, s) && s.q.unfinished == 0
    ensures Idle(s) && s.fates.Keys == s.putBacks.Keys
  {
    NothingUnfinished(capacity, s);
    assert forall id :: id in s.putBacks ==> Located(s, id);
  }

  /** The closing task is released by `join` only at a moment when no item is queued and none
      is held, so never while a put-back is pending: every accepted item is done with. */
  lemma JoinReleasedOnlyWhenIdle(capacity: nat, workers: set<nat>, events: seq<Event>, e: Event)
    requires var s := After(capacity, workers, events); !s.joined && Step(capacity, s, e).joined
    ensures var next := Step(capacity, After(capacity, workers, events), e);
      Idle(next) && next.fates.Keys == next.putBacks.Keys
  {
    RunOk(capacity, workers, events);
    ReleasedWhenIdle(capacity, After(capacity, workers, events), e);
  }

  /** No worker is told to stop before join has released the closing task. */
  lemma {:induction false} StopsOnlyAfterRelease(capacity: nat, workers: set<nat>, events: seq<Event>)
    ensures var s := After(capacity, workers, events);
      (s.closer.Stopping? ==> s.joined) && (s.joined ==> s.closed) && (s.closer.Joining? ==> s.closed)
    decreases |events|
  {
    if events != [] {
      StopsOnlyAfterRelease(capacity, workers, events[..|events| - 1]);
      StopStep(capacity, After(capacity, workers, events[..|events| - 1]), events[|events| - 1]);
    }
  }

  function StopsQueued(slots: seq<Slot>): nat {
    if slots == [] then 0 else StopsQueued(slots[..|slots| - 1]) + if slots[|slots| - 1].Stop? then 1 else 0
  }

  predicate TakesStop(s: System, e: Event) {
    e.Take? && WorkerOf(s, e.worker).Waiting? && s.q.slots != [] && s.q.slots[0].Stop?
  }

  /** How many workers have taken a stop marker. */
  function StopsTaken(capacity: nat, workers: set<nat>, events: seq<Event>): nat {
    if events == [] then 0
    else
      var front, last := events[..|events| - 1], events[|events| - 1];
      StopsTaken(capacity, workers, front) + if TakesStop(After(capacity, workers, front), last) then 1 else 0
  }

  ghost predicate StopsCounted(s: System, workers: set<nat>, taken: nat) {
    && s.workers.Keys == workers && (!s.closer.NotClosing? ==> s.closed)
    && StopsQueued(s.q.slots) + taken + (if s.closer.Stopping? then s.closer.left else 0)
       == if s.closer.Stopping? then |workers| else 0
  }

  lemma {:induction false} StopsFirst(slots: seq<Slot>)
    requires slots != []
    ensures StopsQueued(slots) == StopsQueued(slots[1..]) + if slots[0].Stop? then 1 else 0
    decreases |slots|
  {
    if |slots| > 1 {
      StopsFirst(slots[..|slots| - 1]);
      assert slots[1..][..|slots| - 2] == slots[..|slots| - 1][1..];
    }
  }

  lemma StopsLast(slots: seq<Slot>, slot: Slot)
    ensures StopsQueued(slots + [slot]) == StopsQueued(slots) + if slot.Stop? then 1 else 0
  {
    assert (slots + [slot])[..|slots|] == slots;
  }

  lemma TakeStops(capacity: nat, s: System, e: Event, workers: set<nat>, taken: nat)
    requires StopsCounted(s, workers, taken) && e.Take?
    ensures StopsCounted(Step(capacity, s, e), workers, taken + if TakesStop(s, e) then 1 else 0)
  {
    if s.q.slots != [] { StopsFirst(s.q.slots); }
  }

  lemma PublishStops(capacity: nat, s: System, e: Event, workers: set<nat>, taken: nat)
    requires StopsCounted(s, workers, taken) && (e.Publish? || e.Unblock?)
    ensures StopsCounted(Step(capacity, s, e), workers, taken)
  {
    AcceptStops(s, e.id, workers, taken);
  }

  lemma AcceptStops(s: System, id: nat, workers: set<nat>, taken: nat)
    requires StopsCounted(s, workers, taken)
    ensures StopsCounted(Accept(s, id), workers, taken)
  {
    StopsLast(s.q.slots, Work(Item(id, 1)));
  }

  lemma PutBackStops(capacity: nat, s: System, e: Event, workers: set<nat>, taken: nat)
    requires StopsCounted(s, workers, taken) && e.PutBackNow?
    ensures StopsCounted(Step(capacity, s, e), workers, taken)
  {
    if WorkerOf(s, e.worker).PuttingBack? {
      StopsLast(s.q.slots, Work(Item(s.workers[e.worker].item.id, s.workers[e.worker].item.attempt + 1)));
    }
  }

  lemma CloserStops(capacity: nat, s: System, e: Event, workers: set<nat>, taken: nat)
    requires StopsCounted(s, workers, taken) && (e.Close? || e.Joined? || e.PutStop? || e.DrainTimeout?)
    ensures StopsCounted(Step(capacity, s, e), workers, taken)
  {
    assert |s.workers| == |workers| by { assert s.workers.Keys == workers; }
    StopsLast(s.q.slots, Stop);
  }

  /** Nothing that the count looks at has changed. */
  ghost predicate SameStops(s: System, next: System) {
    && next.q.slots == s.q.slots && next.workers.Keys == s.workers.Keys
    && next.closer == s.closer && next.closed == s.closed
  }

  lemma EndedSame(s: System, w: nat, item: Item, fate: Fate)
    requires w in s.workers
    ensures SameStops(s, Ended(s, w, item, fate)) && w in Ended(s, w, item, fate).workers
  {
    assert s.workers[w := Waiting].Keys == s.workers.Keys;
  }

  lemma CallbackSame(capacity: nat, s: System, e: Event)
    requires e.Finish? || e.DelayOver?
    ensures SameStops(s, Step(capacity, s, e))
  {
    var w := e.worker;
    if w in s.workers && Holding(s.workers[w]) {
      var item := s.workers[w].item;
      EndedSame(s, w, item, Discarded);
      EndedSame(s, w, item, FailedOnce);
      EndedSame(s, w, item, Settled);
      assert s.workers[w := PuttingBack(item)].Keys == s.workers.Keys && s.workers[w := Delaying(item)].Keys == s.workers.Keys;
    }
  }

  lemma CancelSame(capacity: nat, s: System, e: Event)
    requires e.CancelWorker?
    ensures SameStops(s, Step(capacity, s, e))
  {
    var w := e.worker;
    if w in s.workers {
      assert s.workers[w := Exited].Keys == s.workers.Keys;
      if Holding(s.workers[w]) {
        var ended := Ended(s, w, s.workers[w].item, Discarded);
        EndedSame(s, w, s.workers[w].item, Discarded);
        assert ended.workers[w := Exited].Keys == s.workers.Keys;
      }
    }
  }

  lemma OtherStops(capacity: nat, s: System, e: Event, workers: set<nat>, taken: nat)
    requires StopsCounted(s, workers, taken)
    requires e.Finish? || e.DelayOver? || e.CancelWorker? || e.PublisherCancelled?
    ensures StopsCounted(Step(capacity, s, e), workers, taken)
  {
    if e.CancelWorker? { CancelSame(capacity, s, e); } else if !e.PublisherCancelled? { CallbackSame(capacity, s, e); }
  }

  lemma StopsStep(capacity: nat, s: System, e: Event, workers: set<nat>, taken: nat)
    requires StopsCounted(s, workers, taken)
    ensures StopsCounted(Step(capacity, s, e), workers, taken + if TakesStop(s, e) then 1 else 0)
  {
    if e.Take? { TakeStops(capacity, s, e, workers, taken); }
    else if e.Publish? || e.Unblock? { PublishStops(capacity, s, e, workers, taken); }
    else if e.PutBackNow? { PutBackStops(capacity, s, e, workers, taken); }
    else if e.Close? || e.Joined? || e.PutStop? || e.DrainTimeout? { CloserStops(capacity, s, e, workers, taken); }
    else { OtherStops(capacity, s, e, workers, taken); }
  }

  /** In every run a released close puts exactly one stop marker for each worker: those queued, those
      taken and those still to be put are as many as the workers, and before there is none.  Once
      it puts them, no timeout interferes any more. */
  lemma {:induction false} OneStopPerWorker(capacity: nat, workers: set<nat>, events: seq<Event>)
    ensures StopsCounted(After(capacity, workers, events), workers, StopsTaken(capacity, workers, events))
    decreases |events|
  {
    if events != [] {
      OneStopPerWorker(capacity, workers, events[..|events| - 1]);
      StopsStep(capacity, After(capacity, workers, events[..|events| - 1]), events[|events| - 1], workers,
                StopsTaken(capacity, workers, events[..|events| - 1]));
    }
  }

  lemma StopStep(capacity: nat, s: System, e: Event)
    requires (s.closer.Stopping? ==> s.joined) && (s.joined ==> s.closed) && (s.closer.Joining? ==> s.closed)
    ensures var next := Step(capacity, s, e);
      && (s.closer.Stopping? ==> next.closer.Stopping?)
      && (next.closer.Stopping? ==> next.joined) && (next.joined ==> next.closed) && (next.closer.Joining? ==> next.closed)
  {
  }

  /** Closed, nothing in flight, no publisher blocked, and every accepted item done with. */
  ghost predicate Quiet(s: System) {
    s.closed && s.blocked == {} && Idle(s) && s.fates.Keys == s.putBacks.Keys
  }

  lemma QuietStays(capacity: nat, s: System, e: Event)
    requires Quiet(s)
    ensures Quiet(Step(capacity, s, e)) && Step(capacity, s, e).fates == s.fates
  {
    var next := Step(capacity, s, e);
    assert forall w :: Holding(WorkerOf(s, w)) ==> HeldBy(s, w, WorkerOf(s, w).item.id);
    assert forall i :: 0 <= i < |s.q.slots| && s.q.slots[i].Work? ==> QueuedAt(s.q, i, s.q.slots[i].item.id);
    assert forall w :: Holding(WorkerOf(next, w)) ==> Holding(WorkerOf(s, w));
    assert forall i :: 0 <= i < |next.q.slots| ==> next.q.slots[i].Stop?;
  }

  lemma {:induction false} QuietFrom(capacity: nat, s: System, events: seq<Event>)
    requires Quiet(s)
    ensures Quiet(Continue(capacity, s, events)) && Continue(capacity, s, events).fates == s.fates
    decreases |events|
  {
    if events != [] {
      QuietStays(capacity, s, events[0]);
      QuietFrom(capacity, Step(capacity, s, events[0]), events[1..]);
    }
  }

  function Continue(capacity: nat, s: System, events: seq<Event>): System
    decreases |events|
  {
    if events == [] then s else Continue(capacity, Step(capacity, s, events[0]), events[1..])
  }

  /** If no publisher is blocked when join releases the closing task, nothing is ever left
      behind: every accepted item is done with and stays so, whatever happens later. */
  lemma QuietCloseLosesNothing(capacity: nat, workers: set<nat>, events: seq<Event>, e: Event, later: seq<Event>)
    requires var s := After(capacity, workers, events); !s.joined && Step(capacity, s, e).joined && s.blocked == {}
    ensures var released := Step(capacity, After(capacity, workers, events), e);
      && released.fates.Keys == released.putBacks.Keys
      && Continue(capacity, released, later).fates == released.fates
      && Idle(Continue(capacity, released, later))
  {
    RunOk(capacity, workers, events);
    ReleasedWhenIdle(capacity, After(capacity, workers, events), e);
    QuietFrom(capacity, Step(capacity, After(capacity, workers, events), e), later);
  }
}
