/** A delivery's lifecycle state and the transport adapter's recorded action are two state
    machines.  A handler drives both through the delivery; the broker's consume path drives
    them directly.  They must agree on the fate of the message. */
module Settlement {
  import opened MemoryConsumer
  import Envelopes
  import JsonValues
  import Upcasting
  import Wire
  import opened Wrappers

  datatype DeliveryState =
    | Created | Published | Queued | Delivered | Processing | Acknowledged | Nacked | Deferred
    | Requeued | RetryScheduled | Rejected | DeadLettered | Expired | Cancelled

  datatype Mode = Auto | Manual | Batch | Unacknowledged

  /** The transition table. */
  function Allowed(state: DeliveryState): set<DeliveryState> {
    match state
    case Created => {Published, Queued, Delivered, Cancelled}
    case Published => {Queued, Delivered, Cancelled}
    case Queued => {Delivered, Expired, Cancelled}
    case Delivered => {Processing, Acknowledged, Nacked, Requeued, Deferred, RetryScheduled, Rejected, DeadLettered,
                       Expired, Cancelled}
    case Processing => {Acknowledged, Nacked, Requeued, Deferred, RetryScheduled, Rejected, DeadLettered, Expired,
                        Cancelled}
    case Nacked => {Requeued, RetryScheduled, Rejected, DeadLettered}
    case Deferred => {Queued, Delivered, RetryScheduled, Expired, Cancelled}
    case Requeued => {Queued, Delivered, Expired, Cancelled}
    case RetryScheduled => {Queued, Delivered, DeadLettered, Expired, Cancelled}
    case Rejected => {DeadLettered}
    case _ => {}
  }

  /** The same table the other way round: the states from which each state can be reached. */
  function Sources(target: DeliveryState): set<DeliveryState> {
    match target
    case Created => {}
    case Published => {Created}
    case Queued => {Created, Published, Deferred, Requeued, RetryScheduled}
    case Delivered => {Created, Published, Queued, Deferred, Requeued, RetryScheduled}
    case Processing => {Delivered}
    case Acknowledged => {Delivered, Processing}
    case Nacked => {Delivered, Processing}
    case Deferred => {Delivered, Processing}
    case Requeued => {Delivered, Processing, Nacked}
    case RetryScheduled => {Delivered, Processing, Nacked, Deferred}
    case Rejected => {Delivered, Processing, Nacked}
    case DeadLettered => {Delivered, Processing, Nacked, Rejected, RetryScheduled}
    case Expired => {Queued, Delivered, Processing, Deferred, Requeued, RetryScheduled}
    case Cancelled => {Created, Published, Queued, Delivered, Processing, Deferred, Requeued, RetryScheduled}
  }

  /** Along the table a message never goes back before its publication or leaves one of the four final
      states. */
  lemma AllowedExactly(state: DeliveryState, target: DeliveryState)
    ensures target in Allowed(state) <==> state in Sources(target)
    ensures state.Acknowledged? || state.DeadLettered? || state.Expired? || state.Cancelled? <==> Allowed(state) == {}
  {
    match target
    case _ =>
  }

  /** What a handler may ask of its delivery. */
  datatype Operation =
    | DoAck | DoNack(requeue: bool) | DoReject | DoRequeue | DoDefer(delay: real) | DoTouch(extension: real)

  datatype Answer = Done | BadValue | Unsupported | InvalidTransition | AcknowledgementFailed

  function Target(op: Operation): DeliveryState
    requires !op.DoTouch?
  {
    match op
    case DoAck => Acknowledged
    case DoNack(requeue) => if requeue then Requeued else Nacked
    case DoReject => Rejected
    case DoRequeue => Requeued
    case DoDefer(_) => Deferred
  }

  function ActionOf(op: Operation): Action
    requires !op.DoTouch?
  {
    match op
    case DoAck => Ack
    case DoNack(requeue) => if requeue then Requeue else Reject
    case DoReject => Reject
    case DoRequeue => Requeue
    case DoDefer(_) => Defer
  }

  predicate ValidValue(op: Operation) {
    match op
    case DoDefer(delay) => delay > 0.0
    case DoTouch(extension) => extension > 0.0
    case _ => true
  }

  // ----- The adapter --------------------------------------------------------------------

  datatype Adapter = Adapter(action: Action, delay: real, touched: real)

  const UNTOUCHED := Adapter(Pending, 0.0, 0.0)

  predicate Accepts(a: Adapter, target: Action) {
    a.action == target || a.action.Pending?
  }

  /** The adapter after an operation; a conflicting deferral still leaves its delay behind. */
  function AdapterAfter(a: Adapter, op: Operation): Adapter {
    if op.DoTouch? then a.(touched := a.touched + op.extension)
    else
      var noted := if op.DoDefer? then a.(delay := op.delay) else a;
      if Accepts(a, ActionOf(op)) then noted.(action := ActionOf(op)) else noted
  }

  class InProcessAcknowledgement {
    var action: Action
    var delay: real
    var touched: real

    ghost function Value(): Adapter
      reads this
    {
      Adapter(action, delay, touched)
    }

    constructor ()
      ensures Value() == UNTOUCHED
    {
      action, delay, touched := Pending, 0.0, 0.0;
    }

    /** Returns false where the source raises a conflict. */
    method Finish(target: Action) returns (ok: bool)
      modifies this`action
      ensures ok == Accepts(old(Value()), target)
      ensures action == if ok then target else old(action)
    {
      if action == target { return true; }
      if !action.Pending? { return false; }
      action := target;
      return true;
    }

    method Perform(op: Operation) returns (ok: bool)
      modifies this
      ensures ok == (op.DoTouch? || Accepts(old(Value()), ActionOf(op)))
      ensures Value() == AdapterAfter(old(Value()), op)
    {
      match op {
        case DoAck => ok := Finish(Ack);
        case DoNack(requeue) => ok := Finish(if requeue then Requeue else Reject);
        case DoReject => ok := Finish(Reject);
        case DoRequeue => ok := Finish(Requeue);
        case DoDefer(seconds) =>
          delay := seconds;
          ok := Finish(Defer);
        case DoTouch(extension) =>
          touched := touched + extension;
          ok := true;
      }
    }
  }

  // ----- The delivery ----------------------------------------------------------------------

  datatype Pair = Pair(state: DeliveryState, adapter: Adapter)

  predicate Touchable(state: DeliveryState) {
    state.Delivered? || state.Processing? || state.Deferred?
  }

  function AnswerTo(mode: Mode, p: Pair, op: Operation): Answer {
    if !ValidValue(op) then BadValue
    else if mode.Unacknowledged? then Unsupported
    else if op.DoTouch? then (if Touchable(p.state) then Done else InvalidTransition)
    else if p.state == Target(op) then Done
    else if Target(op) !in Allowed(p.state) then InvalidTransition
    else if Accepts(p.adapter, ActionOf(op)) then Done else AcknowledgementFailed
  }

  function Applied(mode: Mode, p: Pair, op: Operation): Pair {
    var answer := AnswerTo(mode, p, op);
    if answer.BadValue? || answer.Unsupported? || answer.InvalidTransition? then p
    else if op.DoTouch? then p.(adapter := AdapterAfter(p.adapter, op))
    else if p.state == Target(op) then p
    else Pair(if answer.Done? then Target(op) else p.state, AdapterAfter(p.adapter, op))
  }

  class Delivery {
    const mode: Mode
    const adapter: InProcessAcknowledgement
    var state: DeliveryState

    ghost function Value(): Pair
      reads this, adapter
    {
      Pair(state, adapter.Value())
    }

    constructor (mode: Mode, adapter: InProcessAcknowledgement)
      ensures this.mode == mode && this.adapter == adapter && state == Delivered
    {
      this.mode, this.adapter, state := mode, adapter, Delivered;
    }

    method Perform(op: Operation) returns (answer: Answer)
      modifies this, adapter
      ensures answer == AnswerTo(mode, old(Value()), op)
      ensures Value() == Applied(mode, old(Value()), op)
    {
      match op {
        case DoDefer(delay) => if delay <= 0.0 { return BadValue; }
        case DoTouch(extension) => if extension <= 0.0 { return BadValue; }
        case _ =>
      }
      if mode.Unacknowledged? {
        return Unsupported;
      }
      if op.DoTouch? {
        if !Touchable(state) { return InvalidTransition; }
        var _ := adapter.Perform(op);
        return Done;
      }
      if state == Target(op) {
        return Done;
      }
      if Target(op) !in Allowed(state) {
        return InvalidTransition;
      }
      var ok := adapter.Perform(op);
      if !ok {
        return AcknowledgementFailed;
      }
      state := Target(op);
      return Done;
    }

    /** Returns false where the source raises an invalid transition. */
    method Transition(target: DeliveryState) returns (ok: bool)
      modifies this`state
      ensures ok == (old(state) == target || target in Allowed(old(state)))
      ensures state == if ok then target else old(state)
    {
      if state == target { return true; }
      if target !in Allowed(state) { return false; }
      state := target;
      return true;
    }
  }

  // ----- Handlers ----------------------------------------------------------------------------

  /** A handler, with all its retries, as the operations it performs in order. */
  function AppliedAll(mode: Mode, p: Pair, ops: seq<Operation>): Pair {
    if ops == [] then p
    else Applied(mode, AppliedAll(mode, p, ops[..|ops| - 1]), ops[|ops| - 1])
  }

  /** The two state machines tell the same story. */
  predicate Agree(p: Pair) {
    && (p.state.Acknowledged? <==> p.adapter.action.Ack?)
    && (p.state.Requeued? <==> p.adapter.action.Requeue?)
    && (p.state.Deferred? <==> p.adapter.action.Defer?)
    && (p.state.Nacked? || p.state.Rejected? || p.state.DeadLettered? || p.state.Expired? <==> p.adapter.action.Reject?)
    && (p.state.Delivered? || p.state.Processing? <==> p.adapter.action.Pending?)
  }

  lemma AppliedAgrees(mode: Mode, p: Pair, op: Operation)
    requires Agree(p)
    ensures Agree(Applied(mode, p, op))
    ensures !p.adapter.action.Pending? ==> Applied(mode, p, op).adapter.action == p.adapter.action
  {
  }

  /** Delivery state and adapter action agree after any handler sequence whatever, and an
      action once recorded is never replaced. */
  lemma {:induction false} HandlerSequencesAgree(mode: Mode, p: Pair, ops: seq<Operation>)
    requires Agree(p)
    ensures Agree(AppliedAll(mode, p, ops))
    ensures !p.adapter.action.Pending? ==> AppliedAll(mode, p, ops).adapter.action == p.adapter.action
  {
    if ops != [] {
      HandlerSequencesAgree(mode, p, ops[..|ops| - 1]);
      AppliedAgrees(mode, AppliedAll(mode, p, ops[..|ops| - 1]), ops[|ops| - 1]);
    }
  }

  /** The table lets a nacked delivery be requeued, but the adapter has recorded a rejection:
      the call always fails and changes nothing.  An acknowledgement operation on an agreeing
      pair succeeds exactly when it repeats the state, is the first settlement, or turns a
      nack into a rejection. */
  lemma SuccessfulOperations(mode: Mode, p: Pair, op: Operation)
    requires Agree(p) && !mode.Unacknowledged? && !op.DoTouch? && ValidValue(op)
    ensures AnswerTo(mode, p, op).Done?
       <==> p.state == Target(op) || p.adapter.action.Pending? || (p.state.Nacked? && op.DoReject?)
    ensures p.state.Nacked? && Target(op).Requeued? ==>
      AnswerTo(mode, p, op).AcknowledgementFailed? && Applied(mode, p, op) == p
  {
  }

  /** What the first operation of a handler leaves, in any mode that acknowledges: the state and the
      recorded action that go with it, or nothing when a delay or an extension is not positive. */
  lemma FirstOperation(mode: Mode, op: Operation)
    requires !mode.Unacknowledged?
    ensures var p := Applied(mode, Pair(Processing, UNTOUCHED), op);
      match op
      case DoAck => p == Pair(Acknowledged, Adapter(Ack, 0.0, 0.0))
      case DoNack(requeue) => p == if requeue then Pair(Requeued, Adapter(Requeue, 0.0, 0.0)) else Pair(Nacked, Adapter(Reject, 0.0, 0.0))
      case DoReject => p == Pair(Rejected, Adapter(Reject, 0.0, 0.0))
      case DoRequeue => p == Pair(Requeued, Adapter(Requeue, 0.0, 0.0))
      case DoDefer(delay) => p == if delay > 0.0 then Pair(Deferred, Adapter(Defer, delay, 0.0)) else Pair(Processing, UNTOUCHED)
      case DoTouch(extension) => p == Pair(Processing, Adapter(Pending, 0.0, if extension > 0.0 then extension else 0.0))
    ensures AnswerTo(mode, Pair(Processing, UNTOUCHED), op)
         == if (op.DoDefer? && op.delay <= 0.0) || (op.DoTouch? && op.extension <= 0.0) then BadValue else Done
  {
  }

  /** Later operations change nothing but a nack into a rejection, and the extensions of a deferred
      message. */
  lemma LaterOperation(mode: Mode, p: Pair, op: Operation)
    requires Agree(p) && !p.adapter.action.Pending?
    ensures var q := Applied(mode, p, op);
      && q.state == (if p.state.Nacked? && op.DoReject? && !mode.Unacknowledged? then Rejected else p.state)
      && q.adapter.action == p.adapter.action && q.adapter.delay == p.adapter.delay
      && q.adapter.touched == p.adapter.touched
           + (if op.DoTouch? && op.extension > 0.0 && p.state.Deferred? && !mode.Unacknowledged? then op.extension else 0.0)
  {
  }

  // ----- Consuming one message ----------------------------------------------------------------

  /** What building the typed event of a valid name comes to: the event, no registered class (the
      payload itself is then the message), a validation error, or any other error. */
  datatype Construction = Typed | Unregistered | InvalidPayload | ConstructionEscapes

  /** The configuration of the wire, and the classes registered for events. */
  datatype Setting = Setting(wire: Wire.Config, construct: Envelopes.Envelope -> Construction)

  /** What a payload turns out to be: a message, something refused with a serialization or
      validation error, or the cause of an error that is neither. */
  datatype Arrival = Good(envelope: Envelopes.Envelope) | Refused | Escapes

  function Arrive(s: Setting, payload: Wire.Payload): Arrival {
    match Wire.DecodeWire(payload, s.wire)
    case Escaped => Escapes
    case Got(e) =>
      if !Upcasting.ValidName(e.kind) then Escapes
      else (match s.construct(e)
            case ConstructionEscapes => Escapes
            case InvalidPayload => Arrival.Refused
            case _ => Good(e))
    case _ => Arrival.Refused
  }

  predicate TimeIsUp(e: Envelopes.Envelope, now: int) {
    e.expiresAt.Some? && now >= e.expiresAt.value
  }

  /** How the handler run ends, after its retries. */
  datatype HandlerEnd = Completed | Raised | Interrupted

  datatype Incoming = Incoming(payload: Wire.Payload, now: int, ops: seq<Operation>, end: HandlerEnd, storeFails: bool)

  /** `escaped`: an exception leaves the consume call.  `deadLetters`: records written. */
  datatype Consumed = Consumed(pair: Pair, escaped: bool, deadLetters: nat)

  predicate SettledByHandler(state: DeliveryState) {
    state.Acknowledged? || state.Deferred? || state.Requeued? || state.RetryScheduled?
  }

  const ARRIVED := Pair(Delivered, UNTOUCHED)

  function Rejecting(p: Pair): Adapter {
    AdapterAfter(p.adapter, DoReject)
  }

  predicate CanMove(state: DeliveryState, target: DeliveryState) {
    state == target || target in Allowed(state)
  }

  /** The handler's end, from the pair it left. */
  function Concluded(mode: Mode, p: Pair, end: HandlerEnd, storeFails: bool): Consumed {
    match end
    case Interrupted => Consumed(p, true, 0)
    case Raised =>
      if SettledByHandler(p.state) then Consumed(p, false, 0)
      else if storeFails then Consumed(p, true, 0)
      else Consumed(Pair(if CanMove(p.state, DeadLettered) then DeadLettered else p.state, Rejecting(p)),
                    !Accepts(p.adapter, Reject) || !CanMove(p.state, DeadLettered), 1)
    case Completed =>
      if (mode.Auto? || mode.Batch?) && p.state.Processing?
      then Consumed(Applied(mode, p, DoAck), !AnswerTo(mode, p, DoAck).Done?, 0)
      else Consumed(p, false, 0)
  }

  function Consume(mode: Mode, s: Setting, m: Incoming): Consumed {
    ConsumeArrived(mode, Arrive(s, m.payload), m)
  }

  function ConsumeArrived(mode: Mode, arrival: Arrival, m: Incoming): Consumed {
    match arrival
    case Escapes => Consumed(ARRIVED, true, 0)
    case Refused => if m.storeFails then Consumed(ARRIVED, true, 0) else Consumed(ARRIVED.(adapter := Rejecting(ARRIVED)), false, 1)
    case Good(e) =>
      if TimeIsUp(e, m.now) then Consumed(Pair(Expired, Rejecting(ARRIVED)), false, 0)
      else
        var adapter := if mode.Unacknowledged? then AdapterAfter(UNTOUCHED, DoAck) else UNTOUCHED;
        Concluded(mode, AppliedAll(mode, Pair(Processing, adapter), m.ops), m.end, m.storeFails)
  }

  class Broker {
    var inflight: nat
    var deadLetterCount: nat

    constructor ()
      ensures inflight == 0 && deadLetterCount == 0
    {
      inflight, deadLetterCount := 0, 0;
    }

    method ConsumeOne(mode: Mode, s: Setting, m: Incoming, adapter: InProcessAcknowledgement)
      returns (delivery: Delivery, escaped: bool)
      requires adapter.Value() == UNTOUCHED
      modifies this, adapter
      ensures inflight == old(inflight)
      ensures delivery.adapter == adapter && fresh(delivery)
      ensures var r := Consume(mode, s, m);
        delivery.Value() == r.pair && escaped == r.escaped && deadLetterCount == old(deadLetterCount) + r.deadLetters
    {
      inflight := inflight + 1;
      delivery := new Delivery(mode, adapter);
      escaped := Dispatch(mode, Arrive(s, m.payload), m, delivery);
      inflight := inflight - 1;
    }

    method Dispatch(mode: Mode, arrival: Arrival, m: Incoming, delivery: Delivery) returns (escaped: bool)
      requires delivery.Value() == ARRIVED && delivery.mode == mode
      modifies this`deadLetterCount, delivery, delivery.adapter
      ensures var r := ConsumeArrived(mode, arrival, m);
        delivery.Value() == r.pair && escaped == r.escaped && deadLetterCount == old(deadLetterCount) + r.deadLetters
    {
      if arrival.Escapes? {
        return true;
      }
      if arrival.Refused? {
        if m.storeFails { return true; }
        deadLetterCount := deadLetterCount + 1;
        var ok := delivery.adapter.Perform(DoReject);
        return !ok;
      }
      if TimeIsUp(arrival.envelope, m.now) {
        var _ := delivery.adapter.Perform(DoReject);
        var ok := delivery.Transition(Expired);
        return !ok;
      }
      if mode.Unacknowledged? {
        var _ := delivery.adapter.Perform(DoAck);
      }
      var _ := delivery.Transition(Processing);
      RunHandler(delivery, m.ops);
      escaped := Conclude(delivery, m.end, m.storeFails);
    }

    method RunHandler(delivery: Delivery, ops: seq<Operation>)
      modifies delivery, delivery.adapter
      ensures delivery.Value() == AppliedAll(delivery.mode, old(delivery.Value()), ops)
    {
      var i := 0;
      while i < |ops|
        invariant 0 <= i <= |ops|
        invariant delivery.Value() == AppliedAll(delivery.mode, old(delivery.Value()), ops[..i])
      {
        assert ops[..i + 1][..i] == ops[..i];
        var _ := delivery.Perform(ops[i]);
        i := i + 1;
      }
      assert ops[..|ops|] == ops;
    }

    method Conclude(delivery: Delivery, end: HandlerEnd, storeFails: bool) returns (escaped: bool)
      modifies this`deadLetterCount, delivery, delivery.adapter
      ensures var r := Concluded(delivery.mode, old(delivery.Value()), end, storeFails);
        delivery.Value() == r.pair && escaped == r.escaped && deadLetterCount == old(deadLetterCount) + r.deadLetters
    {
      match end {
        case Interrupted =>
          return true;
        case Raised =>
          if delivery.state.Acknowledged? || delivery.state.Deferred? || delivery.state.Requeued?
             || delivery.state.RetryScheduled? {
            return false;
          }
          if storeFails { return true; }
          deadLetterCount := deadLetterCount + 1;
          var rejected := delivery.adapter.Perform(DoReject);
          var moved := delivery.Transition(DeadLettered);
          return !rejected || !moved;
        case Completed =>
          if (delivery.mode.Auto? || delivery.mode.Batch?) && delivery.state.Processing? {
            var answer := delivery.Perform(DoAck);
            return !answer.Done?;
          }
          return false;
      }
    }
  }

  // ----- Main results about consuming --------------------------------------------------------------

  /** Where the handler leaves the pair, for a message that reaches it. */
  function AfterHandler(mode: Mode, m: Incoming): Pair {
    AppliedAll(mode, Pair(Processing, UNTOUCHED), m.ops)
  }

  /** The states a handler can leave behind. */
  predicate HandlerState(state: DeliveryState) {
    state.Processing? || state.Acknowledged? || state.Nacked? || state.Deferred? || state.Requeued? || state.Rejected?
  }

  lemma {:induction false} HandlerStates(mode: Mode, p: Pair, ops: seq<Operation>)
    requires HandlerState(p.state)
    ensures HandlerState(AppliedAll(mode, p, ops).state)
  {
    if ops != [] { HandlerStates(mode, p, ops[..|ops| - 1]); }
  }

  lemma ConcludedAgrees(mode: Mode, p: Pair, end: HandlerEnd, storeFails: bool)
    requires Agree(p) && !mode.Unacknowledged? && HandlerState(p.state)
    ensures var r := Concluded(mode, p, end, storeFails);
      && Agree(r.pair)
      && (r.escaped <==> end.Interrupted? || (end.Raised? && storeFails && !SettledByHandler(p.state)))
      && (p.adapter.action.Pending? ==> (!r.pair.adapter.action.Pending?
            <==> (end.Completed? && !mode.Manual?) || (end.Raised? && !storeFails)))
      && (!p.adapter.action.Pending? ==> r.pair.adapter.action == p.adapter.action)
      && (r.deadLetters == 1 <==> end.Raised? && !storeFails && !SettledByHandler(p.state))
      && r.deadLetters <= 1
  {
  }

  /** The message reaches its handler. */
  predicate Handled(s: Setting, m: Incoming) {
    var arrival := Arrive(s, m.payload);
    arrival.Good? && !TimeIsUp(arrival.envelope, m.now)
  }

  /** Whenever a delivery was made of the message, its state and the adapter's action agree
      when consuming ends, escaped exception or not. */
  lemma ConsumeAgrees(mode: Mode, s: Setting, m: Incoming)
    requires !mode.Unacknowledged? && Arrive(s, m.payload).Good?
    ensures Agree(Consume(mode, s, m).pair)
  {
    if Handled(s, m) {
      HandlerSequencesAgree(mode, Pair(Processing, UNTOUCHED), m.ops);
      HandlerStates(mode, Pair(Processing, UNTOUCHED), m.ops);
      ConcludedAgrees(mode, AfterHandler(mode, m), m.end, m.storeFails);
    }
  }

  /** In the automatic modes consuming ends with exactly one settled action, except exactly
      when decoding or typing the payload raises something that is neither a serialization nor a
      validation error, when the dead-letter store fails on a message nothing else settles, or
      when the handler is cut short before it settles. */
  lemma SettledExactly(mode: Mode, s: Setting, m: Incoming)
    requires mode.Auto? || mode.Batch?
    ensures Consume(mode, s, m).pair.adapter.action.Pending?
       <==> || Arrive(s, m.payload).Escapes?
            || (Arrive(s, m.payload).Refused? && m.storeFails)
            || (Handled(s, m) && AfterHandler(mode, m).adapter.action.Pending?
                && (m.end.Interrupted? || (m.end.Raised? && m.storeFails)))
  {
    HandlerSequencesAgree(mode, Pair(Processing, UNTOUCHED), m.ops);
    HandlerStates(mode, Pair(Processing, UNTOUCHED), m.ops);
    if Handled(s, m) {
      ConcludedAgrees(mode, AfterHandler(mode, m), m.end, m.storeFails);
    }
  }

  /** A message has one fate: one that is dead-lettered is rejected at the transport, so the
      memory consumer never puts it back, and one that is put back was not dead-lettered. */
  lemma DeadLetteredIsNotPutBack(mode: Mode, s: Setting, m: Incoming, closed: bool)
    requires !mode.Unacknowledged?
    ensures var r := Consume(mode, s, m);
      && r.deadLetters <= 1
      && (r.deadLetters == 1 ==> r.pair.adapter.action.Reject?)
      && (PutsBack(r.pair.adapter.action, closed) ==>
            r.deadLetters == 0 && (r.pair.state.Requeued? || r.pair.state.Deferred?))
  {
    if Handled(s, m) {
      HandlerSequencesAgree(mode, Pair(Processing, UNTOUCHED), m.ops);
      HandlerStates(mode, Pair(Processing, UNTOUCHED), m.ops);
      ConcludedAgrees(mode, AfterHandler(mode, m), m.end, m.storeFails);
    }
  }

  /** Exactly the messages whose time has come by the moment they are consumed end expired: rejected,
      without a dead letter and without their handler. */
  lemma ExpiredExactly(mode: Mode, s: Setting, m: Incoming, e: Envelopes.Envelope)
    requires Arrive(s, m.payload) == Good(e)
    ensures var r := Consume(mode, s, m);
      && (r.pair.state.Expired? <==> e.expiresAt.Some? && m.now >= e.expiresAt.value)
      && (r.pair.state.Expired? ==> r.pair.adapter.action.Reject? && r.deadLetters == 0 && !r.escaped)
  {
    var adapter := if mode.Unacknowledged? then AdapterAfter(UNTOUCHED, DoAck) else UNTOUCHED;
    HandlerStates(mode, Pair(Processing, adapter), m.ops);
  }

  /** The end of a handler run, from the pair `p` that its operations left: nothing more after an
      interruption or when the handler has settled; an acknowledgement when it completes unsettled
      in an automatic mode; and after a failure a dead letter and a rejection, unless the handler
      had acknowledged, deferred or requeued the message. */
  ghost predicate EndOutcome(mode: Mode, p: Pair, end: HandlerEnd, storeFails: bool, r: Consumed) {
    match end
    case Interrupted => r == Consumed(p, true, 0)
    case Completed =>
      if (mode.Auto? || mode.Batch?) && p.state.Processing?
      then r == Consumed(Pair(Acknowledged, p.adapter.(action := Ack)), false, 0) else r == Consumed(p, false, 0)
    case Raised =>
      if p.state.Acknowledged? || p.state.Deferred? || p.state.Requeued? then r == Consumed(p, false, 0)
      else if storeFails then r == Consumed(p, true, 0)
      else
        var action := if p.adapter.action.Pending? then Reject else p.adapter.action;
        r == Consumed(Pair(DeadLettered, p.adapter.(action := action)), !action.Reject?, 1)
  }

  lemma EndOutcomeHolds(mode: Mode, p: Pair, end: HandlerEnd, storeFails: bool)
    requires HandlerState(p.state) && (!mode.Unacknowledged? ==> Agree(p))
    ensures EndOutcome(mode, p, end, storeFails, Concluded(mode, p, end, storeFails))
  {
  }

  /** What every other message that was decoded comes to. */
  lemma HandledOutcome(mode: Mode, s: Setting, m: Incoming, e: Envelopes.Envelope)
    requires Arrive(s, m.payload) == Good(e) && !(e.expiresAt.Some? && m.now >= e.expiresAt.value)
    ensures var reached := Pair(Processing, if mode.Unacknowledged? then UNTOUCHED.(action := Ack) else UNTOUCHED);
      EndOutcome(mode, AppliedAll(mode, reached, m.ops), m.end, m.storeFails, Consume(mode, s, m))
  {
    var reached := Pair(Processing, if mode.Unacknowledged? then UNTOUCHED.(action := Ack) else UNTOUCHED);
    HandlerStates(mode, reached, m.ops);
    if !mode.Unacknowledged? { HandlerSequencesAgree(mode, reached, m.ops); }
    EndOutcomeHolds(mode, AppliedAll(mode, reached, m.ops), m.end, m.storeFails);
  }

  /** A payload that is refused is dead-lettered and rejected, without a delivery, unless the
      dead-letter store fails. */
  lemma RefusedOutcome(mode: Mode, s: Setting, m: Incoming)
    requires Arrive(s, m.payload).Refused?
    ensures Consume(mode, s, m)
         == if m.storeFails then Consumed(Pair(Delivered, UNTOUCHED), true, 0)
            else Consumed(Pair(Delivered, Adapter(Reject, 0.0, 0.0)), false, 1)
  {
  }

  /** A message is put back by an open memory consumer exactly when its delivery ends requeued or
      deferred. */
  lemma PutBackExactly(mode: Mode, s: Setting, m: Incoming, closed: bool)
    requires !mode.Unacknowledged?
    ensures var pair := Consume(mode, s, m).pair;
      PutsBack(pair.adapter.action, closed) <==> !closed && (pair.state.Requeued? || pair.state.Deferred?)
  {
    DeadLetteredIsNotPutBack(mode, s, m, closed);
    if Arrive(s, m.payload).Good? { ConsumeAgrees(mode, s, m); }
  }

  // ----- Payloads that leave their message unsettled -----------------------------------------------

  /** The consume call raises, and nothing has happened to the message. */
  predicate LeftUnsettled(mode: Mode, s: Setting, m: Incoming) {
    Consume(mode, s, m) == Consumed(ARRIVED, true, 0)
  }

  /** Which payloads are messages: those that decode to an envelope with a valid event name from which
      its class, if there is one, can be built.  Which payloads escape: those on which decoding itself does, and those of an envelope whose
      type is no valid event name or whose class fails to report its failure. */
  lemma EscapesExactly(s: Setting, payload: Wire.Payload)
    ensures Arrive(s, payload).Good? <==>
      var decoded := Wire.DecodeWire(payload, s.wire);
      && decoded.Got? && Upcasting.ValidName(decoded.envelope.kind)
      && (s.construct(decoded.envelope).Typed? || s.construct(decoded.envelope).Unregistered?)
    ensures Arrive(s, payload).Good? ==> Arrive(s, payload) == Good(Wire.DecodeWire(payload, s.wire).envelope)
    ensures Arrive(s, payload).Escapes? <==>
      var decoded := Wire.DecodeWire(payload, s.wire);
      || decoded.Escaped?
      || (decoded.Got? && (!Upcasting.ValidName(decoded.envelope.kind) || s.construct(decoded.envelope).ConstructionEscapes?))
  {
  }

  /** Any valid envelope whose type is not an event name can be published, and its frame leaves
      the message unsettled, also with a working dead-letter store. */
  lemma BadNameUnsettled(mode: Mode, s: Setting, m: Incoming, e: Envelopes.Envelope, writer: Wire.Serializer)
    requires Envelopes.Valid(e) && Envelopes.TimesReadBack(e, s.wire.times) && Wire.Invertible(writer)
    requires writer.name in s.wire.allowed && s.wire.registry(writer.name) == Some(writer)
    requires Wire.EncodeWire(e, writer, s.wire.times) == Some(m.payload) && |m.payload| <= s.wire.maxSize
    requires !Upcasting.ValidName(e.kind)
    ensures LeftUnsettled(mode, s, m)
  {
    Wire.WireRoundTrip(e, writer, s.wire);
  }

  /** So does a bare mapping of the right shape with a timestamp outside the range of UTC dates
      (the first instant of year 1 in a zone east of Greenwich), whatever its other fields hold. */
  lemma OutOfRangeTimeUnsettled(mode: Mode, s: Setting, m: Incoming, fields: map<string, JsonValues.Json>)
    requires |m.payload| <= s.wire.maxSize && !(Wire.MAGIC <= m.payload)
    requires s.wire.textLoad(m.payload) == Wire.Loaded.Loaded(JsonValues.Object(fields))
    requires Envelopes.WellShaped(fields) && fields["timestamp"].Str? && s.wire.times.read(fields["timestamp"].s).OutOfRange?
    ensures LeftUnsettled(mode, s, m)
  {
  }

  /** And so does a bare payload on which the JSON parser itself gives up. */
  lemma ParserFailureUnsettled(mode: Mode, s: Setting, m: Incoming)
    requires |m.payload| <= s.wire.maxSize && !(Wire.MAGIC <= m.payload)
    requires s.wire.textLoad(m.payload).LoaderFailed?
    ensures LeftUnsettled(mode, s, m)
  {
  }
}
