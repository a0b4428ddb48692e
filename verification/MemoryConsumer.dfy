/** One consumer of the memory engine: a bounded queue, its workers, and closing.  The queue
    counts unfinished slots, so that closing can wait until everything accepted is done. */
module MemoryConsumer {
  datatype Item = Item(id: nat, attempt: nat)

  /** A queue slot: an item, or the marker that ends one worker. */
  datatype Slot = Work(item: Item) | Stop

  datatype Action = Pending | Ack | Reject | Requeue | Defer

  datatype Policy = Block | RejectNew | DropNewest

  /** What became of an item the consumer is done with. */
  datatype Fate = Settled | FailedOnce | Discarded

  datatype Enqueued = Accepted | Refused | MustWait | BackpressureError

  // ----- The queue ------------------------------------------------------------------

  /** `slots` in order, and the count that `join` waits on. */
  datatype Queue = Queue(slots: seq<Slot>, unfinished: nat)

  function Put(q: Queue, slot: Slot): Queue {
    Queue(q.slots + [slot], q.unfinished + 1)
  }

  function TaskDone(q: Queue): Queue
    requires q.unfinished > 0
  {
    q.(unfinished := q.unfinished - 1)
  }

  predicate PutsBack(action: Action, closed: bool) {
    (action.Requeue? || action.Defer?) && !closed
  }

  class Consumer {
    const capacity: nat
    var slots: seq<Slot>
    var unfinished: nat
    var closed: bool
    var failures: nat  // how often a callback error was recorded

    ghost function Value(): Queue
      reads this
    {
      Queue(slots, unfinished)
    }

    constructor (capacity: nat)
      requires capacity >= 1
      ensures this.capacity == capacity && Value() == Queue([], 0) && !closed && failures == 0
    {
      this.capacity := capacity;
      slots, unfinished, closed, failures := [], 0, false, 0;
    }

    /** The section of a publish before any wait.  `MustWait` is where the blocking policy
        suspends until there is room; it does not look at `closed` again afterwards. */
    method Enqueue(item: Item, policy: Policy) returns (outcome: Enqueued)
      modifies this`slots, this`unfinished
      ensures outcome == if closed then Refused
                         else if |old(slots)| < capacity then Accepted
                         else match policy case Block => MustWait case DropNewest => Refused case RejectNew => BackpressureError
      ensures Value() == if outcome.Accepted? then Put(old(Value()), Work(item)) else old(Value())
    {
      if closed { return Refused; }
      if |slots| >= capacity {
        match policy {
          case Block => return MustWait;
          case DropNewest => return Refused;
          case RejectNew => return BackpressureError;
        }
      }
      PutNow(Work(item));
      return Accepted;
    }

    method PutNow(slot: Slot)
      modifies this`slots, this`unfinished
      ensures Value() == Put(old(Value()), slot)
    {
      slots := slots + [slot];
      unfinished := unfinished + 1;
    }

    method Get() returns (slot: Slot)
      requires slots != []
      modifies this`slots
      ensures slot == old(slots)[0] && slots == old(slots)[1..]
    {
      slot := slots[0];
      slots := slots[1..];
    }

    method FinishOne()
      requires unfinished > 0
      modifies this`unfinished
      ensures Value() == TaskDone(old(Value()))
    {
      unfinished := unfinished - 1;
    }

    /** A worker after its callback (and, for a deferral, its delay): either it must put the
        item back first, or it is done with it. */
    method AfterCallback(raised: bool, action: Action) returns (putBack: bool)
      requires unfinished > 0
      modifies this`unfinished, this`failures
      ensures putBack == (!raised && PutsBack(action, closed))
      ensures putBack <==> !raised && !closed && (action.Requeue? || action.Defer?)
      ensures unfinished == if putBack then old(unfinished) else old(unfinished) - 1
      ensures failures == old(failures) + if raised then 1 else 0
    {
      if raised {
        failures := failures + 1;
        FinishOne();
        return false;
      }
      if (action.Defer? || action.Requeue?) && !closed {
        return true;
      }
      FinishOne();
      return false;
    }

    /** The put-back: the item goes in with one more attempt before the old one counts as done. */
    method PutBack(item: Item)
      requires unfinished > 0 && |slots| < capacity
      modifies this`slots, this`unfinished
      ensures Value() == TaskDone(Put(old(Value()), Work(Item(item.id, item.attempt + 1))))
    {
      PutNow(Work(Item(item.id, item.attempt + 1)));
      FinishOne();
    }

    method BeginClose() returns (already: bool)
      modifies this`closed
      ensures closed && already == old(closed)
    {
      already := closed;
      closed := true;
    }
  }
}
