/** Any number of dispatchers over one outbox store.  A dispatcher leases a batch and then
    settles its messages one by one; between two of its steps the others may do anything.
    The run keeps, for every stored message, what its attempts were spent on and the
    periods for which it was leased. */
module OutboxRuns {
  import opened Wrappers
  import opened Outbox

  // ----- The dispatcher ---------------------------------------------------------------

  /** What became of one publish call. */
  datatype Outcome = Sent | Errored(error: string, delay: int) | Cancelled

  /** How a dispatcher settles a message it leased: only a current token has any effect. */
  function Settled(messages: Messages, m: Message, outcome: Outcome, now: int, maxAttempts: nat): Messages
    requires m.lease.Some?
  {
    if !Holds(messages, m.id, m.lease.value) then messages
    else messages[m.id := match outcome
      case Sent => AsPublished(messages[m.id], now)
      case Errored(error, delay) =>
        var terminal := m.attempts >= maxAttempts;
        AsFailed(messages[m.id], error, if terminal then None else Some(now + delay), terminal)
      case Cancelled => AsFailed(messages[m.id], "dispatcher cancelled", Some(now), false)]
  }

  /** The rest of the batch: an exception (a lost lease or a cancellation) abandons it. */
  function Remaining(messages: Messages, batch: seq<Message>, outcome: Outcome): seq<Message>
    requires batch != [] && batch[0].lease.Some?
  {
    if Holds(messages, batch[0].id, batch[0].lease.value) && !outcome.Cancelled? then batch[1..] else []
  }

  method SettleOne(store: MemoryOutboxStore, m: Message, outcome: Outcome, now: int, maxAttempts: nat)
    returns (goOn: bool)
    requires m.lease.Some?
    modifies store`messages
    ensures store.messages == Settled(old(store.messages), m, outcome, now, maxAttempts)
    ensures goOn == (Holds(old(store.messages), m.id, m.lease.value) && !outcome.Cancelled?)
  {
    var answer;
    match outcome {
      case Cancelled =>
        answer := store.MarkFailed(m.id, m.lease.value, "dispatcher cancelled", Some(now), false);
        return false;
      case Errored(error, delay) =>
        var terminal := m.attempts >= maxAttempts;
        answer := store.MarkFailed(m.id, m.lease.value, error, if terminal then None else Some(now + delay), terminal);
      case Sent =>
        answer := store.MarkPublished(m.id, m.lease.value, now);
    }
    return answer.Done?;
  }

  /** The rest of a dispatch that no other dispatcher disturbs. */
  function SettleFrom(messages: Messages, batch: seq<Message>, k: nat, outcomes: nat -> Outcome, clock: nat -> int,
                      maxAttempts: nat): Messages
    requires k <= |batch| && forall i :: 0 <= i < |batch| ==> batch[i].lease.Some?
    decreases |batch| - k
  {
    if k == |batch| then messages
    else
      var next := Settled(messages, batch[k], outcomes(k), clock(k), maxAttempts);
      if Holds(messages, batch[k].id, batch[k].lease.value) && !outcomes(k).Cancelled?
      then SettleFrom(next, batch, k + 1, outcomes, clock, maxAttempts)
      else next
  }

  method DispatchOnce(store: MemoryOutboxStore, batchSize: int, duration: int, maxAttempts: nat,
                      outcomes: nat -> Outcome, now: int, clock: nat -> int)
    returns (count: nat, ghost due: seq<string>, ghost batch: seq<Message>, ghost leased: Messages)
    requires WellKeyed(store.messages) && batchSize >= 1 && duration > 0
    modifies store
    ensures DueList(Sweep(old(store.messages), now), now, due)
    ensures var ids := FirstOf(due, batchSize);
      && leased == LeaseEach(Sweep(old(store.messages), now), ids, old(store.nextToken), now + duration)
      && |batch| == count == |ids| && forall i :: 0 <= i < count ==> ids[i] in leased && batch[i] == leased[ids[i]]
    ensures forall i :: 0 <= i < |batch| ==> batch[i].lease.Some?
    ensures store.messages == SettleFrom(leased, batch, 0, outcomes, clock, maxAttempts)
  {
    var answer, messages;
    answer, messages, due := store.Lease(batchSize, duration, now);
    batch, leased := messages, store.messages;
    ghost var ids := FirstOf(due, batchSize);
    DueListDistinct(Sweep(old(store.messages), now), now, due);
    forall i | 0 <= i < |ids| ensures ids[i] in leased && leased[ids[i]].lease.Some? {
      assert ids[i] == due[i] && due[i] in due;
    }
    count := |messages|;
    var k := 0;
    while k < |messages|
      invariant 0 <= k <= |messages|
      invariant SettleFrom(store.messages, messages, k, outcomes, clock, maxAttempts)
             == SettleFrom(leased, messages, 0, outcomes, clock, maxAttempts)
    {
      var goOn := SettleOne(store, messages[k], outcomes(k), clock(k), maxAttempts);
      if !goOn { return; }
      k := k + 1;
    }
  }

  /** What a settlement makes of its message: published, failed for good at the last attempt, failed
      until the delay is over, or available again at once after a cancellation. */
  ghost predicate SettleResult(was: Message, now: Message, outcome: Outcome, at: int, lastAttempt: bool) {
    && now.id == was.id && now.createdAt == was.createdAt && now.attempts == was.attempts
    && now.lease.None? && now.leasedUntil.None?
    && match outcome
       case Sent => now.status.Published? && now.publishedAt == Some(at) && now.lastError.None? && now.availableAt == was.availableAt
       case Errored(error, delay) =>
         && now.lastError == Some(error) && now.publishedAt == was.publishedAt
         && (if lastAttempt then now.status.DeadLettered? && now.availableAt == was.availableAt
             else now.status.Failed? && now.availableAt == at + delay)
       case Cancelled => now.status.Failed? && now.availableAt == at && now.publishedAt == was.publishedAt
  }

  /** In an undisturbed dispatch without cancellation every message is settled by its own
      outcome: a failing one does not touch the others. */
  lemma {:induction false} EachSettledByItsOutcome(messages: Messages, batch: seq<Message>, k: nat,
                                                   outcomes: nat -> Outcome, clock: nat -> int, maxAttempts: nat, id: string)
    requires k <= |batch| && forall i :: 0 <= i < |batch| ==> batch[i].lease.Some?
    requires forall i, j :: 0 <= i < j < |batch| ==> batch[i].id != batch[j].id
    requires forall i :: k <= i < |batch| ==> Holds(messages, batch[i].id, batch[i].lease.value) && !outcomes(i).Cancelled?
    requires id in messages
    ensures var r := SettleFrom(messages, batch, k, outcomes, clock, maxAttempts);
      && id in r
      && (forall i :: k <= i < |batch| && batch[i].id == id ==>
            SettleResult(messages[id], r[id], outcomes(i), clock(i), batch[i].attempts >= maxAttempts))
      && ((forall i :: k <= i < |batch| ==> batch[i].id != id) ==> r[id] == messages[id])
    decreases |batch| - k
  {
    if k < |batch| {
      var next := Settled(messages, batch[k], outcomes(k), clock(k), maxAttempts);
      assert forall i :: k < i < |batch| ==> next[batch[i].id] == messages[batch[i].id];
      EachSettledByItsOutcome(next, batch, k + 1, outcomes, clock, maxAttempts, id);
    }
  }

  lemma {:induction false} OthersUntouched(messages: Messages, batch: seq<Message>, k: nat,
                                           outcomes: nat -> Outcome, clock: nat -> int, maxAttempts: nat, id: string)
    requires k <= |batch| && forall i :: 0 <= i < |batch| ==> batch[i].lease.Some?
    requires id in messages && forall i :: k <= i < |batch| ==> batch[i].id != id
    ensures var r := SettleFrom(messages, batch, k, outcomes, clock, maxAttempts); id in r && r[id] == messages[id]
    decreases |batch| - k
  {
    if k < |batch| && Holds(messages, batch[k].id, batch[k].lease.value) && !outcomes(k).Cancelled? {
      OthersUntouched(Settled(messages, batch[k], outcomes(k), clock(k), maxAttempts), batch, k + 1, outcomes, clock, maxAttempts, id);
    }
  }

  /** A dispatch that is cancelled while it publishes message `cut` puts that message back and leaves
      the rest of its batch leased, and one that has lost that message's lease leaves the rest and
      the message as they are; the messages before it are settled by their outcomes. */
  lemma {:induction false} CutShort(messages: Messages, batch: seq<Message>, k: nat, cut: nat,
                                    outcomes: nat -> Outcome, clock: nat -> int, maxAttempts: nat, i: nat)
    requires k <= cut < |batch| && k <= i < |batch|
    requires forall j :: 0 <= j < |batch| ==> batch[j].lease.Some? && batch[j].id in messages
    requires forall a, b :: 0 <= a < b < |batch| ==> batch[a].id != batch[b].id
    requires forall j :: k <= j < cut ==> Holds(messages, batch[j].id, batch[j].lease.value) && !outcomes(j).Cancelled?
    requires outcomes(cut).Cancelled? || !Holds(messages, batch[cut].id, batch[cut].lease.value)
    ensures var r, id := SettleFrom(messages, batch, k, outcomes, clock, maxAttempts), batch[i].id;
      && id in r
      && if i < cut || (i == cut && Holds(messages, id, batch[cut].lease.value))
         then SettleResult(messages[id], r[id], outcomes(i), clock(i), batch[i].attempts >= maxAttempts)
         else r[id] == messages[id]
    decreases |batch| - k
  {
    var next := Settled(messages, batch[k], outcomes(k), clock(k), maxAttempts);
    if k < cut {
      assert forall j :: k < j < |batch| ==> next[batch[j].id] == messages[batch[j].id];
      if i == k {
        OthersUntouched(next, batch, k + 1, outcomes, clock, maxAttempts, batch[i].id);
      } else {
        CutShort(next, batch, k + 1, cut, outcomes, clock, maxAttempts, i);
      }
    }
  }

  // ----- The system ---------------------------------------------------------------------

  datatype Period = Period(token: nat, start: int, until: int, ended: Option<int>)

  function End(p: Period): int {
    if p.ended.Some? then p.ended.value else p.until
  }

  datatype Account = Account(
    published: nat, terminal: nat, retryable: nat, cancelled: nat, expired: nat, periods: seq<Period>)

  const NOTHING := Account(0, 0, 0, 0, 0, [])

  datatype System = System(
    messages: Messages,
    nextToken: nat,
    batches: map<nat, seq<Message>>,
    accounts: map<string, Account>)

  datatype Event =
    | Add(now: int, message: Message)
    | Lease(now: int, dispatcher: nat, limit: int, duration: int)
    | Settle(now: int, dispatcher: nat, outcome: Outcome)
    | Purge(now: int, before: int)

  const START := System(map[], 0, map[], map[])

  function Batch(s: System, d: nat): seq<Message> {
    if d in s.batches then s.batches[d] else []
  }

  /** A message as its constructor makes it: pending, never attempted, not leased. */
  predicate Fresh(m: Message) {
    m.status.Pending? && m.attempts == 0 && m.lease.None? && m.leasedUntil.None? && m.publishedAt.None?
  }

  lemma SortedExists(messages: Messages, keys: set<string>) returns (ids: seq<string>)
    requires WellKeyed(messages) && keys <= messages.Keys
    ensures SortedKeys(messages, keys, ids)
    decreases keys
  {
    ids := [];
    if keys != {} {
      var id :| id in keys;
      var rest := SortedExists(messages, keys - {id});
      var i := 0;
      while i < |rest| && Before(messages[rest[i]], messages[id])
        invariant 0 <= i <= |rest|
        invariant forall k :: 0 <= k < i ==> Before(messages[rest[k]], messages[id])
      {
        i := i + 1;
      }
      InsertedSorted(messages, keys - {id}, rest, id, i);
      ids := rest[..i] + [id] + rest[i..];
      assert keys - {id} + {id} == keys;
    }
  }

  lemma DueListExists(messages: Messages, now: int)
    requires WellKeyed(messages)
    ensures exists ids :: DueList(messages, now, ids)
  {
    var ids := SortedExists(messages, set id | id in messages && Due(messages[id], now));
    assert DueList(messages, now, ids);
  }

  /** The due messages in order; there is exactly one such list. */
  ghost function DueIds(messages: Messages, now: int): (ids: seq<string>)
    requires WellKeyed(messages)
    ensures DueList(messages, now, ids)
  {
    DueListExists(messages, now);
    var ids :| DueList(messages, now, ids);
    ids
  }

  /** The messages a lease call at `now` hands out: the first `limit` due ones after the sweep. */
  ghost function HandedOut(messages: Messages, now: int, limit: int): (ids: seq<string>)
    requires WellKeyed(messages) && limit >= 1
    ensures forall i :: 0 <= i < |ids| ==> ids[i] in messages && Due(Swept(messages[ids[i]], now), now)
    ensures forall i, j :: 0 <= i < j < |ids| ==> ids[i] != ids[j]
  {
    var swept := Sweep(messages, now);
    var due := DueIds(swept, now);
    DueListDistinct(swept, now, due);
    assert forall i :: 0 <= i < |due| ==> due[i] in due;
    FirstOf(due, limit)
  }

  /** The account of a message after a lease call that handed out `ids`. */
  function LeaseAccount(a: Account, m: Message, ids: seq<string>, token: nat, now: int, until: int): Account {
    var swept := if LeaseExpired(m, now) then a.(expired := a.expired + 1) else a;
    if m.id in ids then swept.(periods := a.periods + [Period(token + Position(ids, m.id), now, until, None)])
    else swept
  }

  ghost function AfterLease(s: System, d: nat, now: int, limit: int, duration: int): System
    requires WellKeyed(s.messages) && limit >= 1
  {
    var ids := HandedOut(s.messages, now, limit);
    var swept := Sweep(s.messages, now);
    var until := now + duration;
    System(LeaseEach(swept, ids, s.nextToken, until),
           s.nextToken + |ids|,
           s.batches[d := seq(|ids|, k requires 0 <= k < |ids| => LeasedAs(swept[ids[k]], s.nextToken + k, until))],
           map id | id in s.accounts && id in s.messages ::
             LeaseAccount(s.accounts[id], s.messages[id], ids, s.nextToken, now, until))
  }

  function Closed(periods: seq<Period>, now: int): seq<Period> {
    if periods == [] then []
    else periods[..|periods| - 1] + [periods[|periods| - 1].(ended := Some(now))]
  }

  function SettledAccount(a: Account, m: Message, outcome: Outcome, now: int, maxAttempts: nat): Account {
    var closed := a.(periods := Closed(a.periods, now));
    match outcome
    case Sent => closed.(published := a.published + 1)
    case Errored(_, _) =>
      if m.attempts >= maxAttempts then closed.(terminal := a.terminal + 1)
      else closed.(retryable := a.retryable + 1)
    case Cancelled => closed.(cancelled := a.cancelled + 1)
  }

  function AfterSettle(s: System, d: nat, now: int, outcome: Outcome, maxAttempts: nat): System
    requires Batch(s, d) != [] && Batch(s, d)[0].lease.Some?
  {
    var m := Batch(s, d)[0];
    System(Settled(s.messages, m, outcome, now, maxAttempts),
           s.nextToken,
           s.batches[d := Remaining(s.messages, Batch(s, d), outcome)],
           if Holds(s.messages, m.id, m.lease.value) && m.id in s.accounts
           then s.accounts[m.id := SettledAccount(s.accounts[m.id], m, outcome, now, maxAttempts)]
           else s.accounts)
  }

  function AfterAdd(s: System, m: Message): System {
    s.(messages := s.messages[m.id := m], accounts := s.accounts[m.id := NOTHING])
  }

  function AfterPurge(s: System, before: int): System {
    var messages := Purged(s.messages, before);
    s.(messages := messages, accounts := map id | id in s.accounts && id in messages :: s.accounts[id])
  }

  /** One step.  An event that cannot happen in this state changes nothing: adding a message
      that exists or is not fresh, leasing while the last batch is unfinished or with
      arguments the store refuses, settling without a batch. */
  ghost function Step(limits: nat -> nat, s: System, e: Event): System
    requires WellKeyed(s.messages)
  {
    match e
    case Add(_, m) =>
      if m.id in s.messages || !Fresh(m) then s
      else AfterAdd(s, m)
    case Lease(now, d, limit, duration) =>
      if limit < 1 || duration <= 0 || Batch(s, d) != [] then s else AfterLease(s, d, now, limit, duration)
    case Settle(now, d, outcome) =>
      if Batch(s, d) == [] || Batch(s, d)[0].lease.None? then s
      else AfterSettle(s, d, now, outcome, limits(d))
    case Purge(_, before) => AfterPurge(s, before)
  }

  // ----- The invariant of one message ------------------------------------------------------

  function Spent(a: Account): nat {
    a.published + a.terminal + a.retryable + a.cancelled + a.expired
  }

  ghost predicate PeriodsOk(m: Message, a: Account, clock: int) {
    && (forall i, j :: 0 <= i < j < |a.periods| ==> End(a.periods[i]) <= a.periods[j].start)
    && (forall i :: 0 <= i < |a.periods| ==> a.periods[i].start <= clock)
    && (m.lease.Some? && m.leasedUntil.Some? ==>
          a.periods != []
          && a.periods[|a.periods| - 1].token == m.lease.value
          && a.periods[|a.periods| - 1].until == m.leasedUntil.value
          && a.periods[|a.periods| - 1].ended.None?)
    && (m.lease.None? && a.periods != [] ==> End(a.periods[|a.periods| - 1]) <= clock)
  }

  predicate Counted(m: Message, a: Account, limit: nat) {
    && m.attempts == Spent(a) + (if m.status.Leased? then 1 else 0)
    && a.published == (if m.status.Published? then 1 else 0)
    && a.terminal == (if m.status.DeadLettered? then 1 else 0)
    && m.attempts + (if m.status.Pending? || m.status.Failed? then 1 else 0) <= limit + a.expired + a.cancelled
  }

  ghost predicate MessageOk(m: Message, a: Account, nextToken: nat, clock: int, limit: nat) {
    && (m.status.Leased? <==> m.lease.Some?) && (m.lease.Some? <==> m.leasedUntil.Some?)
    && (m.lease.Some? ==> m.lease.value < nextToken)
    && Counted(m, a, limit)
    && PeriodsOk(m, a, clock)
  }

  lemma LaterMessageOk(m: Message, a: Account, nextToken: nat, clock: int, limit: nat, laterToken: nat, later: int)
    requires MessageOk(m, a, nextToken, clock, limit) && nextToken <= laterToken && clock <= later
    ensures MessageOk(m, a, laterToken, later, limit)
  {
  }

  lemma SweptMessageOk(m: Message, a: Account, nextToken: nat, clock: int, limit: nat, now: int)
    requires MessageOk(m, a, nextToken, clock, limit) && clock <= now
    ensures MessageOk(Swept(m, now), if LeaseExpired(m, now) then a.(expired := a.expired + 1) else a, nextToken, now, limit)
  {
  }

  lemma LeasedMessageOk(m: Message, a: Account, nextToken: nat, now: int, limit: nat, token: nat, until: int, later: nat)
    requires MessageOk(m, a, nextToken, now, limit) && Due(m, now) && nextToken <= token < later
    ensures MessageOk(LeasedAs(m, token, until), a.(periods := a.periods + [Period(token, now, until, None)]), later, now, limit)
  {
  }

  lemma SettledMessageOk(m: Message, held: Message, a: Account, nextToken: nat, clock: int, limit: nat,
                         outcome: Outcome, now: int, maxAttempts: nat)
    requires MessageOk(m, a, nextToken, clock, limit) && clock <= now && maxAttempts <= limit
    requires m.id == held.id && m.lease == held.lease && m.lease.Some? && m.attempts == held.attempts
    ensures Holds(map[m.id := m], held.id, held.lease.value)
    ensures MessageOk(Settled(map[m.id := m], held, outcome, now, maxAttempts)[m.id],
                      SettledAccount(a, held, outcome, now, maxAttempts), nextToken, now, limit)
  {
    var closed := Closed(a.periods, now);
    assert forall i :: 0 <= i < |a.periods| - 1 ==> closed[i] == a.periods[i];
  }

  // ----- The invariant of the system ----------------------------------------------------------

  ghost predicate StoredOk(s: System, id: string, clock: int, limit: nat) {
    && id in s.messages && id in s.accounts && s.messages[id].id == id
    && MessageOk(s.messages[id], s.accounts[id], s.nextToken, clock, limit)
  }

  ghost predicate MessagesOk(s: System, clock: int, limit: nat) {
    forall id :: id in s.messages ==> StoredOk(s, id, clock, limit)
  }

  /** A held message carries a token already issued, and while that token is current the
      attempt count the dispatcher remembers is the stored one. */
  ghost predicate HeldOk(messages: Messages, nextToken: nat, m: Message) {
    && m.lease.Some? && m.lease.value < nextToken
    && (Holds(messages, m.id, m.lease.value) ==> messages[m.id].attempts == m.attempts)
  }

  ghost predicate BatchesOk(s: System) {
    forall d, k :: d in s.batches && 0 <= k < |s.batches[d]| ==> HeldOk(s.messages, s.nextToken, s.batches[d][k])
  }

  ghost predicate TokensDistinct(batches: map<nat, seq<Message>>) {
    forall d, k, d', k' ::
      && d in batches && 0 <= k < |batches[d]|
      && d' in batches && 0 <= k' < |batches[d']|
      && batches[d][k].lease == batches[d'][k'].lease
      ==> d == d' && k == k'
  }

  ghost predicate SystemOk(s: System, clock: int, limit: nat) {
    MessagesOk(s, clock, limit) && BatchesOk(s) && TokensDistinct(s.batches)
  }

  /** One message across a lease call: swept if expired, then leased if handed out. */
  function LeaseOutcome(m: Message, ids: seq<string>, token: nat, now: int, until: int): Message {
    if m.id in ids then LeasedAs(Swept(m, now), token + Position(ids, m.id), until) else Swept(m, now)
  }

  lemma LeaseOutcomeOk(m: Message, a: Account, nextToken: nat, clock: int, limit: nat,
                       ids: seq<string>, now: int, until: int)
    requires MessageOk(m, a, nextToken, clock, limit) && clock <= now
    requires m.id in ids ==> Due(Swept(m, now), now)
    ensures MessageOk(LeaseOutcome(m, ids, nextToken, now, until), LeaseAccount(a, m, ids, nextToken, now, until),
                      nextToken + |ids|, now, limit)
  {
    var a' := if LeaseExpired(m, now) then a.(expired := a.expired + 1) else a;
    SweptMessageOk(m, a, nextToken, clock, limit, now);
    if m.id in ids {
      LeasedMessageOk(Swept(m, now), a', nextToken, now, limit, nextToken + Position(ids, m.id), until, nextToken + |ids|);
    } else {
      LaterMessageOk(Swept(m, now), a', nextToken, now, limit, nextToken + |ids|, now);
    }
  }

  lemma AfterLeaseAt(s: System, d: nat, now: int, max: int, duration: int, id: string)
    requires WellKeyed(s.messages) && max >= 1 && id in s.messages && id in s.accounts
    ensures var next := AfterLease(s, d, now, max, duration);
      var ids := HandedOut(s.messages, now, max);
      && id in next.messages && id in next.accounts && next.nextToken == s.nextToken + |ids|
      && next.messages[id] == LeaseOutcome(s.messages[id], ids, s.nextToken, now, now + duration)
      && next.accounts[id] == LeaseAccount(s.accounts[id], s.messages[id], ids, s.nextToken, now, now + duration)
      && (id in ids ==> Due(Swept(s.messages[id], now), now))
  {
    if id in HandedOut(s.messages, now, max) {
      assert HandedOut(s.messages, now, max)[Position(HandedOut(s.messages, now, max), id)] == id;
    }
  }

  lemma LeaseStoredOk(s: System, d: nat, now: int, max: int, duration: int, clock: int, limit: nat, id: string)
    requires WellKeyed(s.messages) && StoredOk(s, id, clock, limit) && clock <= now && max >= 1
    ensures StoredOk(AfterLease(s, d, now, max, duration), id, now, limit)
  {
    var ids := HandedOut(s.messages, now, max);
    AfterLeaseAt(s, d, now, max, duration, id);
    LeaseOutcomeOk(s.messages[id], s.accounts[id], s.nextToken, clock, limit, ids, now, now + duration);
    assert LeaseOutcome(s.messages[id], ids, s.nextToken, now, now + duration).id == id;
  }

  lemma LeaseMessagesOk(s: System, d: nat, now: int, max: int, duration: int, clock: int, limit: nat)
    requires WellKeyed(s.messages) && MessagesOk(s, clock, limit) && clock <= now && max >= 1
    ensures MessagesOk(AfterLease(s, d, now, max, duration), now, limit)
  {
    var next := AfterLease(s, d, now, max, duration);
    assert next.messages.Keys == s.messages.Keys;
    forall id | id in next.messages ensures StoredOk(next, id, now, limit) {
      LeaseStoredOk(s, d, now, max, duration, clock, limit, id);
    }
  }

  lemma LeaseBatchesOk(s: System, d: nat, now: int, max: int, duration: int)
    requires WellKeyed(s.messages) && max >= 1 && BatchesOk(s)
    ensures BatchesOk(AfterLease(s, d, now, max, duration))
  {
    var next := AfterLease(s, d, now, max, duration);
    var ids := HandedOut(s.messages, now, max);
    forall e, k | e in next.batches && 0 <= k < |next.batches[e]|
      ensures HeldOk(next.messages, next.nextToken, next.batches[e][k])
    {
      if e == d {
        assert ids[k] in ids && ids[Position(ids, ids[k])] == ids[k];
      } else {
        assert HeldOk(s.messages, s.nextToken, s.batches[e][k]);
      }
    }
  }

  lemma LeaseTokensDistinct(s: System, d: nat, now: int, max: int, duration: int)
    requires WellKeyed(s.messages) && max >= 1 && BatchesOk(s) && TokensDistinct(s.batches)
    ensures TokensDistinct(AfterLease(s, d, now, max, duration).batches)
  {
    var next := AfterLease(s, d, now, max, duration);
    forall e, k | e in next.batches && 0 <= k < |next.batches[e]|
      ensures next.batches[e][k].lease.Some?
      ensures e == d ==> next.batches[e][k].lease.value == s.nextToken + k
      ensures e != d ==> e in s.batches && next.batches[e] == s.batches[e] && next.batches[e][k].lease.value < s.nextToken
    {
      if e != d { assert HeldOk(s.messages, s.nextToken, s.batches[e][k]); }
    }
  }

  lemma SettleMessagesOk(s: System, d: nat, now: int, outcome: Outcome, maxAttempts: nat, clock: int, limit: nat)
    requires MessagesOk(s, clock, limit) && BatchesOk(s) && clock <= now && maxAttempts <= limit
    requires Batch(s, d) != [] && Batch(s, d)[0].lease.Some?
    ensures MessagesOk(AfterSettle(s, d, now, outcome, maxAttempts), now, limit)
  {
    var held := Batch(s, d)[0];
    assert HeldOk(s.messages, s.nextToken, held);
    var next := AfterSettle(s, d, now, outcome, maxAttempts);
    forall id | id in next.messages ensures StoredOk(next, id, now, limit) {
      assert StoredOk(s, id, clock, limit);
      if id == held.id && Holds(s.messages, held.id, held.lease.value) {
        SettledMessageOk(s.messages[id], held, s.accounts[id], s.nextToken, clock, limit, outcome, now, maxAttempts);
      } else {
        LaterMessageOk(s.messages[id], s.accounts[id], s.nextToken, clock, limit, s.nextToken, now);
      }
    }
  }

  lemma SettleBatchesOk(s: System, d: nat, now: int, outcome: Outcome, maxAttempts: nat)
    requires BatchesOk(s) && TokensDistinct(s.batches) && Batch(s, d) != [] && Batch(s, d)[0].lease.Some?
    ensures BatchesOk(AfterSettle(s, d, now, outcome, maxAttempts))
    ensures TokensDistinct(AfterSettle(s, d, now, outcome, maxAttempts).batches)
  {
    var next := AfterSettle(s, d, now, outcome, maxAttempts);
    var shift := if next.batches[d] == [] then 0 else 1;
    forall e, k | e in next.batches && 0 <= k < |next.batches[e]|
      ensures e in s.batches && HeldOk(next.messages, next.nextToken, next.batches[e][k])
      ensures k + shift < |s.batches[d]| || e != d
      ensures next.batches[e][k] == s.batches[e][if e == d then k + shift else k]
    {
      assert HeldOk(s.messages, s.nextToken, s.batches[e][if e == d then k + 1 else k]);
    }
  }

  lemma PurgeOk(s: System, before: int, now: int, limit: nat)
    requires MessagesOk(s, now, limit) && BatchesOk(s)
    ensures MessagesOk(AfterPurge(s, before), now, limit) && BatchesOk(AfterPurge(s, before))
  {
    var next := AfterPurge(s, before);
    forall id | id in next.messages ensures StoredOk(next, id, now, limit) {
      assert StoredOk(s, id, now, limit);
    }
    forall d, k | d in s.batches && 0 <= k < |s.batches[d]| ensures HeldOk(next.messages, s.nextToken, s.batches[d][k]) {
      assert HeldOk(s.messages, s.nextToken, s.batches[d][k]);
    }
  }

  lemma FreshMessageOk(m: Message, nextToken: nat, now: int, limit: nat)
    requires Fresh(m) && limit >= 1
    ensures MessageOk(m, NOTHING, nextToken, now, limit)
  {
  }

  lemma AddStoredOk(s: System, m: Message, now: int, limit: nat, id: string)
    requires Fresh(m) && limit >= 1 && (id == m.id || StoredOk(s, id, now, limit))
    ensures StoredOk(AfterAdd(s, m), id, now, limit)
  {
    var next := AfterAdd(s, m);
    if id == m.id {
      assert next.messages[id] == m && next.accounts[id] == NOTHING;
      assert MessageOk(m, NOTHING, s.nextToken, now, limit) by { FreshMessageOk(m, s.nextToken, now, limit); }
    } else {
      assert next.messages[id] == s.messages[id] && next.accounts[id] == s.accounts[id];
    }
  }

  lemma AddMessagesOk(s: System, m: Message, now: int, limit: nat)
    requires MessagesOk(s, now, limit) && Fresh(m) && limit >= 1
    ensures MessagesOk(AfterAdd(s, m), now, limit)
  {
    forall id | id in AfterAdd(s, m).messages ensures StoredOk(AfterAdd(s, m), id, now, limit) {
      AddStoredOk(s, m, now, limit, id);
    }
  }

  lemma AddBatchesOk(s: System, m: Message)
    requires BatchesOk(s) && Fresh(m)
    ensures BatchesOk(AfterAdd(s, m))
  {
    var next := AfterAdd(s, m);
    forall d, k | d in s.batches && 0 <= k < |s.batches[d]| ensures HeldOk(next.messages, s.nextToken, s.batches[d][k]) {
      assert HeldOk(s.messages, s.nextToken, s.batches[d][k]);
    }
  }

  lemma LaterSystemOk(s: System, clock: int, limit: nat, now: int)
    requires MessagesOk(s, clock, limit) && clock <= now
    ensures MessagesOk(s, now, limit)
  {
    forall id | id in s.messages ensures StoredOk(s, id, now, limit) {
      assert StoredOk(s, id, clock, limit);
      LaterMessageOk(s.messages[id], s.accounts[id], s.nextToken, clock, limit, s.nextToken, now);
    }
  }

  lemma StepOk(limits: nat -> nat, s: System, e: Event, clock: int, limit: nat)
    requires WellKeyed(s.messages) && SystemOk(s, clock, limit) && clock <= e.now && limit >= 1
    requires forall d :: limits(d) <= limit
    ensures SystemOk(Step(limits, s, e), e.now, limit)
  {
    LaterSystemOk(s, clock, limit, e.now);
    match e
    case Add(now, m) =>
      if m.id !in s.messages && Fresh(m) {
        AddMessagesOk(s, m, now, limit);
        AddBatchesOk(s, m);
      }
    case Lease(now, d, max, duration) =>
      if max >= 1 && duration > 0 && Batch(s, d) == [] {
        LeaseMessagesOk(s, d, now, max, duration, clock, limit);
        LeaseBatchesOk(s, d, now, max, duration);
        LeaseTokensDistinct(s, d, now, max, duration);
      }
    case Settle(now, d, outcome) =>
      if Batch(s, d) != [] && Batch(s, d)[0].lease.Some? {
        SettleMessagesOk(s, d, now, outcome, limits(d), clock, limit);
        SettleBatchesOk(s, d, now, outcome, limits(d));
      }
    case Purge(now, before) => PurgeOk(s, before, now, limit);
  }

  // ----- Runs --------------------------------------------------------------------------------------

  ghost predicate ClockNeverRunsBack(events: seq<Event>) {
    forall i, j :: 0 <= i < j < |events| ==> events[i].now <= events[j].now
  }

  lemma StepWellKeyed(limits: nat -> nat, s: System, e: Event)
    requires WellKeyed(s.messages)
    ensures WellKeyed(Step(limits, s, e).messages)
  {
  }

  ghost function After(limits: nat -> nat, events: seq<Event>): (s: System)
    ensures WellKeyed(s.messages)
  {
    if events == [] then START
    else
      var before := After(limits, events[..|events| - 1]);
      StepWellKeyed(limits, before, events[|events| - 1]);
      Step(limits, before, events[|events| - 1])
  }

  lemma {:induction false} RunOk(limits: nat -> nat, events: seq<Event>, clock: int, limit: nat)
    requires ClockNeverRunsBack(events) && limit >= 1 && forall d :: limits(d) <= limit
    requires events != [] ==> events[|events| - 1].now <= clock
    ensures SystemOk(After(limits, events), clock, limit)
  {
    if events != [] {
      var last := events[|events| - 1];
      var before := events[..|events| - 1];
      RunOk(limits, before, last.now, limit);
      StepOk(limits, After(limits, before), last, last.now, limit);
      LaterSystemOk(After(limits, events), last.now, limit, clock);
    }
  }

  ghost predicate Bounded(limits: nat -> nat, events: seq<Event>, limit: nat) {
    ClockNeverRunsBack(events) && limit >= 1 && forall d :: limits(d) <= limit
  }

  lemma Reached(limits: nat -> nat, events: seq<Event>, limit: nat) returns (clock: int)
    requires Bounded(limits, events, limit)
    ensures SystemOk(After(limits, events), clock, limit)
  {
    clock := if events == [] then 0 else events[|events| - 1].now;
    RunOk(limits, events, clock, limit);
  }

  // ----- Main results ----------------------------------------------------------------------------------

  /** Every attempt of a stored message is accounted for: by its publication, its terminal
      failure, a retryable failure, a cancellation, an expired lease, or the lease it is now
      under.  So attempts exceed the dispatchers' limit by expiries and cancellations at most. */
  lemma AttemptsAccounted(limits: nat -> nat, events: seq<Event>, limit: nat, id: string)
    requires Bounded(limits, events, limit) && id in After(limits, events).messages
    ensures var s := After(limits, events);
      && id in s.accounts
      && var m, a := s.messages[id], s.accounts[id];
      && m.attempts == a.published + a.terminal + a.retryable + a.cancelled + a.expired
                       + (if m.status.Leased? then 1 else 0)
      && m.attempts <= limit + a.expired + a.cancelled
      && a.published + a.terminal <= 1
  {
    var clock := Reached(limits, events, limit);
    assert StoredOk(After(limits, events), id, clock, limit);
  }

  /** Periods of one message follow each other: each ended, or ran out, before the next began. */
  lemma LeasePeriodsDisjoint(limits: nat -> nat, events: seq<Event>, limit: nat, id: string)
    requires Bounded(limits, events, limit) && id in After(limits, events).messages
    ensures var s := After(limits, events);
      && id in s.accounts
      && var periods := s.accounts[id].periods;
      && (forall i, j :: 0 <= i < j < |periods| ==> End(periods[i]) <= periods[j].start)
      && (s.messages[id].status.Leased? ==>
            periods != [] && s.messages[id].lease == Some(periods[|periods| - 1].token)
            && periods[|periods| - 1].ended.None?)
  {
    var clock := Reached(limits, events, limit);
    assert StoredOk(After(limits, events), id, clock, limit);
  }

  /** Of all messages held by all dispatchers, at most one can still settle a given message. */
  lemma OneUsableToken(limits: nat -> nat, events: seq<Event>, limit: nat, d: nat, k: nat, d': nat, k': nat)
    requires Bounded(limits, events, limit)
    requires var s := After(limits, events);
      && k < |Batch(s, d)| && k' < |Batch(s, d')|
      && var m, m' := Batch(s, d)[k], Batch(s, d')[k'];
      && m.id == m'.id && m.lease.Some? && m'.lease.Some?
      && Holds(s.messages, m.id, m.lease.value) && Holds(s.messages, m'.id, m'.lease.value)
    ensures d == d' && k == k'
  {
    var clock := Reached(limits, events, limit);
    assert TokensDistinct(After(limits, events).batches);
  }

  /** Settling with a superseded token changes no message and no account. */
  lemma StaleTokenChangesNothing(limits: nat -> nat, s: System, now: int, d: nat, outcome: Outcome)
    requires WellKeyed(s.messages) && Batch(s, d) != [] && Batch(s, d)[0].lease.Some?
    requires !Holds(s.messages, Batch(s, d)[0].id, Batch(s, d)[0].lease.value)
    ensures var next := Step(limits, s, Settle(now, d, outcome));
      next.messages == s.messages && next.accounts == s.accounts && next.nextToken == s.nextToken
      && Batch(next, d) == []
  {
  }

  lemma Untouched(limits: nat -> nat, s: System, e: Event, id: string)
    requires WellKeyed(s.messages) && id in s.messages
    requires s.messages[id].status.Published? || s.messages[id].status.DeadLettered?
    requires e.Purge? ==> !Purgeable(s.messages[id], e.before)
    ensures var next := Step(limits, s, e); id in next.messages && next.messages[id] == s.messages[id]
  {
    if e.Lease? && e.limit >= 1 {
      var ids := HandedOut(s.messages, e.now, e.limit);
      assert forall k :: 0 <= k < |ids| ==> ids[k] != id;
    }
  }

  lemma OnlyPurgeRemoves(limits: nat -> nat, s: System, e: Event, id: string)
    requires WellKeyed(s.messages) && id in s.messages && id !in Step(limits, s, e).messages
    ensures e.Purge? && Purgeable(s.messages[id], e.before)
  {
  }

  /** The message stored under `id` after the first k events. */
  ghost function StoredAt(limits: nat -> nat, events: seq<Event>, id: string, k: nat): Option<Message>
    requires k <= |events|
  {
    var messages := After(limits, events[..k]).messages;
    if id in messages then Some(messages[id]) else None
  }

  predicate Purges(e: Event, m: Message) {
    e.Purge? && Purgeable(m, e.before)
  }

  lemma StoredNext(limits: nat -> nat, events: seq<Event>, id: string, k: nat)
    requires k < |events|
    ensures var now, next := StoredAt(limits, events, id, k), StoredAt(limits, events, id, k + 1);
      && (now.Some? && next.None? ==> Purges(events[k], now.value))
      && (now.Some? && (now.value.status.Published? || now.value.status.DeadLettered?) ==>
            next == now || Purges(events[k], now.value))
  {
    var s := After(limits, events[..k]);
    assert events[..k + 1][..k] == events[..k];
    if id in s.messages {
      if id !in Step(limits, s, events[k]).messages { OnlyPurgeRemoves(limits, s, events[k], id); }
      var m := s.messages[id];
      if (m.status.Published? || m.status.DeadLettered?) && !Purges(events[k], m) {
        Untouched(limits, s, events[k], id);
      }
    }
  }

  /** A published or dead-lettered message is never touched again until a purge takes it. */
  lemma {:induction false} SettledIsFinal(limits: nat -> nat, events: seq<Event>, id: string, i: nat, j: nat)
    requires i <= j <= |events|
    requires var m := StoredAt(limits, events, id, i);
      && m.Some? && (m.value.status.Published? || m.value.status.DeadLettered?)
      && forall k :: i <= k < j ==> !Purges(events[k], m.value)
    ensures StoredAt(limits, events, id, j) == StoredAt(limits, events, id, i)
    decreases j
  {
    if i < j {
      SettledIsFinal(limits, events, id, i, j - 1);
      StoredNext(limits, events, id, j - 1);
    }
  }

  /** A dead-lettered message stays as it is for ever: no purge takes it. */
  lemma DeadLetteredForever(limits: nat -> nat, events: seq<Event>, id: string, i: nat, j: nat)
    requires i <= j <= |events|
    requires var m := StoredAt(limits, events, id, i); m.Some? && m.value.status.DeadLettered?
    ensures StoredAt(limits, events, id, j) == StoredAt(limits, events, id, i)
  {
    SettledIsFinal(limits, events, id, i, j);
  }

  /** No unpublished message is ever lost: one that was stored and is gone was published, and
      purged after that. */
  lemma {:induction false} NothingUnpublishedIsLost(limits: nat -> nat, events: seq<Event>, id: string, i: nat, j: nat)
    requires i <= j <= |events|
    requires StoredAt(limits, events, id, i).Some? && StoredAt(limits, events, id, j).None?
    ensures exists k :: i <= k < j && StoredAt(limits, events, id, k).Some?
                        && Purges(events[k], StoredAt(limits, events, id, k).value)
                        && StoredAt(limits, events, id, k).value.status.Published?
    decreases j
  {
    if i < j {
      StoredNext(limits, events, id, j - 1);
      if StoredAt(limits, events, id, j - 1).None? {
        NothingUnpublishedIsLost(limits, events, id, i, j - 1);
      }
    }
  }

  lemma BatchOfLease(limits: nat -> nat, s: System, now: int, d: nat, max: int, duration: int)
    requires WellKeyed(s.messages) && max >= 1 && duration > 0 && Batch(s, d) == []
    ensures var ids := HandedOut(s.messages, now, max);
      var batch := Batch(Step(limits, s, Lease(now, d, max, duration)), d);
      |batch| == |ids| && forall k :: 0 <= k < |ids| ==> batch[k].id == ids[k]
  {
    assert Step(limits, s, Lease(now, d, max, duration)) == AfterLease(s, d, now, max, duration);
  }

  lemma FirstDue(messages: Messages, now: int, max: int, id: string)
    requires WellKeyed(messages) && max >= 1
    ensures var swept := Sweep(messages, now);
      var ids := HandedOut(messages, now, max);
      && |ids| <= max
      && (forall k, k' :: 0 <= k < k' < |ids| ==> Before(swept[ids[k]], swept[ids[k']]))
      && (id in swept && Due(swept[id], now) && id !in ids ==>
            |ids| == max && forall k :: 0 <= k < |ids| ==> Before(swept[ids[k]], swept[id]))
  {
    var swept := Sweep(messages, now);
    var due := DueIds(swept, now);
    var ids := HandedOut(messages, now, max);
    if id in swept && Due(swept[id], now) && id !in ids {
      assert id in due;
      var i :| 0 <= i < |due| && due[i] == id;
      assert i < |ids| ==> ids[i] == id;
    }
  }

  /** A lease call hands out exactly the first due messages in (available_at, created_at, id)
      order: they come in order, each was due, a due message `id` left behind comes after all
      of them, and nothing due is left behind unless the limit is reached.  Any state will
      do, reachable or not. */
  lemma HandsOutFirstDue(limits: nat -> nat, s: System, now: int, d: nat, max: int, duration: int, id: string)
    requires WellKeyed(s.messages) && max >= 1 && duration > 0 && Batch(s, d) == []
    ensures var swept := Sweep(s.messages, now);
      var batch := Batch(Step(limits, s, Lease(now, d, max, duration)), d);
      && |batch| <= max
      && (forall k :: 0 <= k < |batch| ==> batch[k].id in swept && Due(swept[batch[k].id], now))
      && (forall k, k' :: 0 <= k < k' < |batch| ==> Before(swept[batch[k].id], swept[batch[k'].id]))
      && (id in swept && Due(swept[id], now) && (forall k :: 0 <= k < |batch| ==> batch[k].id != id) ==>
            |batch| == max && forall k :: 0 <= k < |batch| ==> Before(swept[batch[k].id], swept[id]))
  {
    BatchOfLease(limits, s, now, d, max, duration);
    FirstDue(s.messages, now, max, id);
  }
}
