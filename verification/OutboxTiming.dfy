/** When a message of the outbox is handed out, settled and purged, read from its fields and from
    the times of the events. */
module OutboxTiming {
  import opened Outbox
  import opened OutboxRuns
  import opened Text
  import opened Wrappers

  /** A lease at this time could hand the message out: it waits, or its lease has run out, and its
      time has come. */
  predicate Available(m: Message, now: int) {
    && m.availableAt <= now
    && (m.status.Pending? || m.status.Failed? || (m.status.Leased? && m.leasedUntil.Some? && m.leasedUntil.value <= now))
  }

  /** Earlier availability first, then earlier creation, then the smaller id. */
  predicate Precedes(a: Message, b: Message) {
    if a.availableAt != b.availableAt then a.availableAt < b.availableAt
    else if a.createdAt != b.createdAt then a.createdAt < b.createdAt
    else StringLess(a.id, b.id)
  }

  function Ahead(messages: Messages, m: Message, now: int): set<string> {
    set id | id in messages && Available(messages[id], now) && Precedes(messages[id], m)
  }

  // ----- The place of a message in the order ---------------------------------------------------

  function Members(ids: seq<string>): set<string> {
    set id | id in ids
  }

  lemma {:induction false} DistinctSize(ids: seq<string>)
    requires forall i, j :: 0 <= i < j < |ids| ==> ids[i] != ids[j]
    ensures |Members(ids)| == |ids|
    decreases |ids|
  {
    if ids != [] {
      var front, last := ids[..|ids| - 1], ids[|ids| - 1];
      DistinctSize(front);
      assert ids == front + [last];
      assert Members(ids) == Members(front) + {last};
    }
  }

  /** What comes before a listed key are the keys listed before it. */
  lemma PrefixIsBefore(messages: Messages, keys: set<string>, ids: seq<string>, p: nat)
    requires SortedKeys(messages, keys, ids) && p < |ids|
    ensures (set id | id in messages && id in keys && Before(messages[id], messages[ids[p]])) == Members(ids[..p])
  {
    forall q | 0 <= q < |ids| ensures Before(messages[ids[q]], messages[ids[p]]) <==> q < p {
      BeforeTotal(messages[ids[q]], messages[ids[p]]);
    }
    forall id | id in messages && id in keys && Before(messages[id], messages[ids[p]]) ensures id in ids[..p] {
      assert id in ids;
      var q :| 0 <= q < |ids| && ids[q] == id;
      assert ids[..p][q] == id;
    }
    forall id | id in ids[..p] ensures id in messages && id in keys && Before(messages[id], messages[ids[p]]) {
      var q :| 0 <= q < p && ids[..p][q] == id;
      assert ids[q] == id && id in ids;
    }
  }

  lemma SweptAlike(m: Message, now: int)
    ensures Due(Swept(m, now), now) <==> Available(m, now)
    ensures Swept(m, now).availableAt == m.availableAt && Swept(m, now).createdAt == m.createdAt && Swept(m, now).id == m.id
  {
  }

  lemma BeforeIsPrecedes(a: Message, b: Message, now: int)
    ensures Before(Swept(a, now), Swept(b, now)) <==> Precedes(a, b)
  {
    SweptAlike(a, now);
    SweptAlike(b, now);
  }

  lemma AheadCounts(messages: Messages, now: int, p: nat)
    requires WellKeyed(messages) && p < |DueIds(Sweep(messages, now), now)|
    ensures var id := DueIds(Sweep(messages, now), now)[p];
      id in messages && Available(messages[id], now) && |Ahead(messages, messages[id], now)| == p
  {
    var swept := Sweep(messages, now);
    var ids, keys := DueIds(swept, now), set k | k in swept && Due(swept[k], now);
    DueListDistinct(swept, now, ids);
    assert ids[p] in ids && ids[p] in keys;
    SweptAlike(messages[ids[p]], now);
    PrefixIsBefore(swept, keys, ids, p);
    DistinctSize(ids[..p]);
    forall id | id in messages
      ensures Available(messages[id], now) && Precedes(messages[id], messages[ids[p]])
         <==> id in keys && Before(swept[id], swept[ids[p]])
    {
      SweptAlike(messages[id], now);
      BeforeIsPrecedes(messages[id], messages[ids[p]], now);
    }
    assert Ahead(messages, messages[ids[p]], now) == set id | id in swept && id in keys && Before(swept[id], swept[ids[p]]);
  }

  /** A lease hands a message out exactly when the message is available and fewer than `limit`
      available ones come before it. */
  lemma HandedOutExactly(messages: Messages, now: int, limit: int, id: string)
    requires WellKeyed(messages) && limit >= 1 && id in messages
    ensures id in HandedOut(messages, now, limit)
       <==> Available(messages[id], now) && |Ahead(messages, messages[id], now)| < limit
  {
    var swept := Sweep(messages, now);
    var ids, first := DueIds(swept, now), HandedOut(messages, now, limit);
    SweptAlike(messages[id], now);
    if Available(messages[id], now) {
      assert id in ids;
      var p :| 0 <= p < |ids| && ids[p] == id;
      AheadCounts(messages, now, p);
      DueListDistinct(swept, now, ids);
      if p < limit { assert first[p] == id; }
    }
  }

  // ----- One lease -------------------------------------------------------------------------------

  /** What a lease call makes of one message: handed out under a fresh token for the duration, or
      put back when its lease has run out, or left alone. */
  ghost predicate LeaseResult(was: Message, now: Message, taken: bool, at: int, duration: int, nextToken: nat) {
    if taken then
      && now.status.Leased? && now.lease.Some? && now.lease.value >= nextToken && now.leasedUntil == Some(at + duration)
      && now.attempts == was.attempts + 1 && now.availableAt == was.availableAt && now.createdAt == was.createdAt
    else if was.status.Leased? && was.leasedUntil.Some? && was.leasedUntil.value <= at then
      && now.status.Failed? && now.lease.None? && now.leasedUntil.None?
      && now.attempts == was.attempts && now.availableAt == was.availableAt && now.createdAt == was.createdAt
    else now == was
  }

  lemma LeasedExactly(limits: nat -> nat, s: System, e: Event, id: string)
    requires WellKeyed(s.messages) && id in s.messages
    requires e.Lease? && e.limit >= 1 && e.duration > 0 && Batch(s, e.dispatcher) == []
    ensures var next := Step(limits, s, e).messages;
      var taken := Available(s.messages[id], e.now) && |Ahead(s.messages, s.messages[id], e.now)| < e.limit;
      id in next && LeaseResult(s.messages[id], next[id], taken, e.now, e.duration, s.nextToken)
  {
    HandedOutExactly(s.messages, e.now, e.limit, id);
    var ids := HandedOut(s.messages, e.now, e.limit);
    assert Step(limits, s, e) == AfterLease(s, e.dispatcher, e.now, e.limit, e.duration);
    assert Step(limits, s, e).messages[id]
        == LeaseEach(Sweep(s.messages, e.now), ids, s.nextToken, e.now + e.duration)[id];
  }

  // ----- One settlement ----------------------------------------------------------------------------

  /** The dispatcher's first message, under its current lease. */
  predicate Current(s: System, d: nat) {
    && Batch(s, d) != [] && Batch(s, d)[0].lease.Some? && Batch(s, d)[0].id in s.messages
    && s.messages[Batch(s, d)[0].id].status.Leased? && s.messages[Batch(s, d)[0].id].lease == Batch(s, d)[0].lease
  }

  /** What settling under the current token leaves of the message, and that it leaves every other
      message alone.  The dispatcher goes on with its batch unless it was cancelled. */
  lemma SettledByOutcome(limits: nat -> nat, s: System, e: Event)
    requires WellKeyed(s.messages) && e.Settle? && Current(s, e.dispatcher)
    ensures var m, next := Batch(s, e.dispatcher)[0], Step(limits, s, e).messages;
      && Batch(Step(limits, s, e), e.dispatcher) == (if e.outcome.Cancelled? then [] else Batch(s, e.dispatcher)[1..])
      && next.Keys == s.messages.Keys
      && SettleResult(s.messages[m.id], next[m.id], e.outcome, e.now, m.attempts >= limits(e.dispatcher))
      && forall id :: id in s.messages && id != m.id ==> next[id] == s.messages[id]
  {
  }

  // ----- A failed message waits for its time -----------------------------------------------------------

  predicate IsLeased(m: Option<Message>) {
    m.Some? && m.value.status.Leased?
  }

  /** A failed message changes only by being leased. */
  lemma FailedKept(limits: nat -> nat, s: System, e: Event, id: string)
    requires WellKeyed(s.messages) && id in s.messages && s.messages[id].status.Failed?
    ensures var next := Step(limits, s, e).messages;
      && id in next
      && (next[id] == s.messages[id]
          || (e.Lease? && e.now >= s.messages[id].availableAt && next[id].status.Leased?))
  {
    if e.Lease? && e.limit >= 1 && e.duration > 0 && Batch(s, e.dispatcher) == [] {
      LeasedExactly(limits, s, e, id);
    }
  }

  lemma {:induction false} FailedStays(limits: nat -> nat, events: seq<Event>, id: string, i: nat, j: nat)
    requires i <= j <= |events| && StoredAt(limits, events, id, i).Some? && StoredAt(limits, events, id, i).value.status.Failed?
    requires forall k :: i < k <= j ==> !IsLeased(StoredAt(limits, events, id, k))
    ensures StoredAt(limits, events, id, j) == StoredAt(limits, events, id, i)
    decreases j
  {
    if i < j {
      FailedStays(limits, events, id, i, j - 1);
      assert events[..j][..j - 1] == events[..j - 1];
      FailedKept(limits, After(limits, events[..j - 1]), events[j - 1], id);
    }
  }

  /** Event `i` fails a message retryably, with a delay. */
  ghost predicate FailsRetryably(limits: nat -> nat, events: seq<Event>, i: nat, id: string)
    requires i < |events|
  {
    var s, e := After(limits, events[..i]), events[i];
    && e.Settle? && e.outcome.Errored? && Current(s, e.dispatcher)
    && Batch(s, e.dispatcher)[0].id == id && Batch(s, e.dispatcher)[0].attempts < limits(e.dispatcher)
  }

  lemma FailureStored(limits: nat -> nat, events: seq<Event>, i: nat, id: string)
    requires i < |events| && FailsRetryably(limits, events, i, id)
    ensures var m := StoredAt(limits, events, id, i + 1);
      m.Some? && m.value.status.Failed? && m.value.availableAt == events[i].now + events[i].outcome.delay
  {
    assert events[..i + 1][..i] == events[..i];
    SettledByOutcome(limits, After(limits, events[..i]), events[i]);
  }

  /** A message that a dispatcher fails retryably at some time is not handed out again before that
      time plus the delay: the event after which it is leased next is a lease at a later time. */
  lemma RetryWaits(limits: nat -> nat, events: seq<Event>, i: nat, j: nat, id: string)
    requires i < j < |events| && FailsRetryably(limits, events, i, id)
    requires forall k :: i < k <= j ==> !IsLeased(StoredAt(limits, events, id, k))
    requires IsLeased(StoredAt(limits, events, id, j + 1))
    ensures events[j].Lease? && events[j].now >= events[i].now + events[i].outcome.delay
  {
    FailureStored(limits, events, i, id);
    FailedStays(limits, events, id, i + 1, j);
    assert events[..j + 1][..j] == events[..j];
    FailedKept(limits, After(limits, events[..j]), events[j], id);
  }

  /** And from that time on, while nobody has taken it, a lease hands it out exactly unless `limit`
      available messages come before it. */
  lemma RetryComesDue(limits: nat -> nat, events: seq<Event>, i: nat, j: nat, id: string, e: Event)
    requires i < j <= |events| && FailsRetryably(limits, events, i, id)
    requires forall k :: i < k <= j ==> !IsLeased(StoredAt(limits, events, id, k))
    requires e.Lease? && e.limit >= 1 && e.duration > 0 && Batch(After(limits, events[..j]), e.dispatcher) == []
    requires e.now >= events[i].now + events[i].outcome.delay
    ensures var s := After(limits, events[..j]);
      && id in s.messages
      && var next := Step(limits, s, e).messages;
      id in next && (next[id].status.Leased? <==> |Ahead(s.messages, s.messages[id], e.now)| < e.limit)
  {
    FailureStored(limits, events, i, id);
    FailedStays(limits, events, id, i + 1, j);
    LeasedExactly(limits, After(limits, events[..j]), e, id);
  }

  // ----- A published message waits for a purge ----------------------------------------------------------

  /** A message published at some time stays in the store, unchanged, until a purge of what was
      published before a later time, and the first such purge takes it. */
  lemma PurgedExactly(limits: nat -> nat, s: System, e: Event, id: string)
    requires WellKeyed(s.messages) && id in s.messages && s.messages[id].status.Published? && s.messages[id].publishedAt.Some?
    ensures var next := Step(limits, s, e).messages;
      && (id in next <==> !(e.Purge? && e.before > s.messages[id].publishedAt.value))
      && (id in next ==> next[id] == s.messages[id])
  {
    if e.Lease? && e.limit >= 1 && e.duration > 0 && Batch(s, e.dispatcher) == [] {
      LeasedExactly(limits, s, e, id);
    }
  }
}
