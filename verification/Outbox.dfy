/** The in-memory outbox store and the body of a dispatcher: messages are leased in order
    for a limited time under a fresh token, and only the current token may settle one.
    Times are microseconds; a token stands for the random lease identifier. */
module Outbox {
  import opened Text
  import opened Wrappers

  datatype Status = Pending | Leased | Published | Failed | DeadLettered

  datatype Message = Message(
    id: string,
    status: Status,
    createdAt: int,
    availableAt: int,
    attempts: nat,
    lastError: Option<string>,
    lease: Option<nat>,
    leasedUntil: Option<int>,
    publishedAt: Option<int>)

  type Messages = map<string, Message>

  datatype Error = BadArgument | UnknownMessage | LeaseLost | AlreadyExists | CapacityReached
  datatype Answer = Done | Raised(error: Error)

  // ----- The order in which messages are handed out --------------------------------------

  /** The sort key (available_at, created_at, id), compared lexicographically. */
  predicate Before(a: Message, b: Message) {
    || a.availableAt < b.availableAt
    || (a.availableAt == b.availableAt && a.createdAt < b.createdAt)
    || (a.availableAt == b.availableAt && a.createdAt == b.createdAt && StringLess(a.id, b.id))
  }

  lemma BeforeTotal(a: Message, b: Message)
    ensures a.id == b.id || Before(a, b) || Before(b, a)
    ensures !(Before(a, b) && Before(b, a)) && !Before(a, a)
  {
    StringLessTotal(a.id, b.id);
    StringLessTotal(a.id, a.id);
  }

  lemma BeforeTransitive(a: Message, b: Message, c: Message)
    requires Before(a, b) && Before(b, c)
    ensures Before(a, c)
  {
    if StringLess(a.id, b.id) && StringLess(b.id, c.id) { StringLessTransitive(a.id, b.id, c.id); }
  }

  ghost predicate WellKeyed(messages: Messages) {
    forall id :: id in messages ==> messages[id].id == id
  }

  predicate Due(m: Message, now: int) {
    (m.status.Pending? || m.status.Failed?) && m.availableAt <= now
  }

  /** `ids` lists exactly the given keys, in strictly increasing key order. */
  ghost predicate SortedKeys(messages: Messages, keys: set<string>, ids: seq<string>) {
    && (forall id :: id in ids <==> id in keys)
    && (forall i :: 0 <= i < |ids| ==> ids[i] in messages)
    && (forall i, j :: 0 <= i < j < |ids| ==> Before(messages[ids[i]], messages[ids[j]]))
  }

  ghost predicate DueList(messages: Messages, now: int, ids: seq<string>) {
    SortedKeys(messages, (set id | id in messages && Due(messages[id], now)), ids)
  }

  /** The first element of one sorted list of some keys opens every sorted list of them. */
  lemma SortedHead(messages: Messages, keys: set<string>, a: seq<string>, b: seq<string>)
    requires SortedKeys(messages, keys, a) && SortedKeys(messages, keys, b) && a != [] && b != []
    ensures a[0] == b[0]
  {
    assert a[0] in b && b[0] in a;
    var i :| 0 <= i < |b| && b[i] == a[0];
    var j :| 0 <= j < |a| && a[j] == b[0];
    if i > 0 && j > 0 {
      BeforeTotal(messages[a[0]], messages[b[0]]);
    }
  }

  lemma SortedTail(messages: Messages, keys: set<string>, ids: seq<string>)
    requires SortedKeys(messages, keys, ids) && ids != []
    ensures SortedKeys(messages, keys - {ids[0]}, ids[1..])
  {
    BeforeTotal(messages[ids[0]], messages[ids[0]]);
    forall id ensures id in ids[1..] <==> id in keys - {ids[0]} {
      if id in keys && id != ids[0] {
        var i :| 0 <= i < |ids| && ids[i] == id;
        assert ids[1..][i - 1] == id;
      }
    }
  }

  /** There is only one sorted list of a set of keys, so "the first `limit` due messages" means one thing. */
  lemma {:induction false} SortedKeysUnique(messages: Messages, keys: set<string>, a: seq<string>, b: seq<string>)
    requires SortedKeys(messages, keys, a) && SortedKeys(messages, keys, b)
    ensures a == b
    decreases |a|
  {
    assert a != [] ==> a[0] in b;
    assert b != [] ==> b[0] in a;
    if a != [] {
      SortedHead(messages, keys, a, b);
      SortedTail(messages, keys, a);
      SortedTail(messages, keys, b);
      SortedKeysUnique(messages, keys - {a[0]}, a[1..], b[1..]);
      assert a == [a[0]] + a[1..] && b == [b[0]] + b[1..];
    }
  }

  // ----- The store operations as functions ------------------------------------------------

  predicate LeaseExpired(m: Message, now: int) {
    m.status.Leased? && m.leasedUntil.Some? && m.leasedUntil.value <= now
  }

  function Swept(m: Message, now: int): Message {
    if LeaseExpired(m, now) then m.(status := Failed, lease := None, leasedUntil := None) else m
  }

  function Sweep(messages: Messages, now: int): Messages {
    map id | id in messages :: Swept(messages[id], now)
  }

  function LeasedAs(m: Message, token: nat, until: int): Message {
    m.(status := Leased, lease := Some(token), leasedUntil := Some(until), attempts := m.attempts + 1)
  }

  function Position(ids: seq<string>, id: string): (k: nat)
    requires id in ids
    ensures k < |ids| && ids[k] == id
  {
    if ids[0] == id then 0 else 1 + Position(ids[1..], id)
  }

  /** Leases the listed messages, the k-th of them under the k-th fresh token. */
  function LeaseEach(messages: Messages, ids: seq<string>, token: nat, until: int): Messages {
    map id | id in messages ::
      if id in ids then LeasedAs(messages[id], token + Position(ids, id), until) else messages[id]
  }

  /** `after` is `before` with the first n listed messages leased in turn. */
  ghost predicate LeasedSoFar(before: Messages, after: Messages, ids: seq<string>, n: nat, token: nat, until: int) {
    && n <= |ids| && after.Keys == before.Keys && WellKeyed(after)
    && (forall i :: 0 <= i < |ids| ==> ids[i] in before)
    && (forall i :: n <= i < |ids| ==> after[ids[i]] == before[ids[i]])
    && (forall i :: 0 <= i < n ==> after[ids[i]] == LeasedAs(before[ids[i]], token + i, until))
    && (forall id :: id in before && id !in ids ==> after[id] == before[id])
  }

  lemma LeaseNext(before: Messages, after: Messages, ids: seq<string>, n: nat, token: nat, until: int)
    requires LeasedSoFar(before, after, ids, n, token, until) && n < |ids|
    requires forall i, j :: 0 <= i < j < |ids| ==> ids[i] != ids[j]
    ensures LeasedSoFar(before, after[ids[n] := LeasedAs(after[ids[n]], token + n, until)], ids, n + 1, token, until)
  {
  }

  lemma LeasedAll(before: Messages, after: Messages, ids: seq<string>, token: nat, until: int)
    requires LeasedSoFar(before, after, ids, |ids|, token, until)
    requires forall i, j :: 0 <= i < j < |ids| ==> ids[i] != ids[j]
    ensures after == LeaseEach(before, ids, token, until)
  {
    forall id | id in before ensures after[id] == LeaseEach(before, ids, token, until)[id] {
      if id in ids { assert ids[Position(ids, id)] == id; }
    }
  }

  predicate Holds(messages: Messages, id: string, token: nat) {
    id in messages && messages[id].status.Leased? && messages[id].lease == Some(token)
  }

  function AsPublished(m: Message, now: int): Message {
    m.(status := Published, publishedAt := Some(now), lease := None, leasedUntil := None, lastError := None)
  }

  function AsFailed(m: Message, error: string, retryAt: Option<int>, terminal: bool): Message {
    m.(status := if terminal then DeadLettered else Failed,
       availableAt := if retryAt.Some? then retryAt.value else m.availableAt,
       lastError := Some(error), lease := None, leasedUntil := None)
  }

  predicate Purgeable(m: Message, before: int) {
    m.status.Published? && m.publishedAt.Some? && m.publishedAt.value < before
  }

  function Purged(messages: Messages, before: int): Messages {
    map id | id in messages && !Purgeable(messages[id], before) :: messages[id]
  }

  // ----- The store --------------------------------------------------------------------------

  class MemoryOutboxStore {
    const maxEntries: nat
    var messages: Messages
    var nextToken: nat  // the source of fresh lease identifiers

    constructor (maxEntries: nat)
      requires maxEntries >= 1
      ensures this.maxEntries == maxEntries && messages == map[] && nextToken == 0
    {
      this.maxEntries, messages, nextToken := maxEntries, map[], 0;
    }

    method Add(message: Message) returns (answer: Answer)
      modifies this
      ensures answer == if message.id in old(messages) then Raised(AlreadyExists)
                        else if |old(messages)| >= maxEntries then Raised(CapacityReached) else Done
      ensures messages == if answer.Done? then old(messages)[message.id := message] else old(messages)
      ensures nextToken == old(nextToken)
    {
      if message.id in messages {
        return Raised(AlreadyExists);
      }
      if |messages| >= maxEntries {
        return Raised(CapacityReached);
      }
      messages := messages[message.id := message];
      return Done;
    }

    method SweepExpired(now: int)
      modifies this`messages
      ensures messages == Sweep(old(messages), now)
    {
      var todo := messages.Keys;
      while todo != {}
        invariant todo <= messages.Keys == old(messages).Keys
        invariant forall id :: id in messages ==>
          messages[id] == if id in todo then old(messages)[id] else Swept(old(messages)[id], now)
        decreases todo
      {
        var id :| id in todo;
        var message := messages[id];
        if message.status.Leased? && message.leasedUntil.Some? && message.leasedUntil.value <= now {
          messages := messages[id := message.(status := Failed, lease := None, leasedUntil := None)];
        }
        todo := todo - {id};
      }
    }

    /** The place of a message in a sorted list: after every earlier key. */
    method InsertByKey(ids: seq<string>, id: string, ghost keys: set<string>) returns (longer: seq<string>)
      requires WellKeyed(messages) && id in messages && id !in keys && keys <= messages.Keys
      requires SortedKeys(messages, keys, ids)
      ensures SortedKeys(messages, keys + {id}, longer)
    {
      var i := 0;
      while i < |ids| && Before(messages[ids[i]], messages[id])
        invariant 0 <= i <= |ids|
        invariant forall k :: 0 <= k < i ==> Before(messages[ids[k]], messages[id])
      {
        i := i + 1;
      }
      longer := ids[..i] + [id] + ids[i..];
      InsertedSorted(messages, keys, ids, id, i);
    }

    method Candidates(now: int) returns (ids: seq<string>)
      requires WellKeyed(messages)
      ensures DueList(messages, now, ids)
    {
      ids := [];
      var todo := messages.Keys;
      ghost var taken: set<string> := {};
      while todo != {}
        invariant todo <= messages.Keys && taken !! todo && taken <= messages.Keys
        invariant forall id :: id in messages && id !in todo ==> (id in taken <==> Due(messages[id], now))
        invariant SortedKeys(messages, taken, ids)
        decreases todo
      {
        var id :| id in todo;
        if (messages[id].status.Pending? || messages[id].status.Failed?) && messages[id].availableAt <= now {
          ids := InsertByKey(ids, id, taken);
          taken := taken + {id};
        }
        todo := todo - {id};
      }
      assert taken == set id | id in messages && Due(messages[id], now);
    }

    method LeaseOne(id: string, until: int) returns (updated: Message)
      requires id in messages && messages[id].id == id
      modifies this
      ensures updated == LeasedAs(old(messages)[id], old(nextToken), until)
      ensures messages == old(messages)[id := updated]
      ensures nextToken == old(nextToken) + 1
    {
      var message := messages[id];
      updated := message.(status := Leased, lease := Some(nextToken),
                          leasedUntil := Some(until), attempts := message.attempts + 1);
      messages := messages[message.id := updated];
      nextToken := nextToken + 1;
    }

    method LeaseBatch(batch: seq<string>, until: int) returns (leased: seq<Message>)
      requires WellKeyed(messages) && forall i :: 0 <= i < |batch| ==> batch[i] in messages
      requires forall i, j :: 0 <= i < j < |batch| ==> batch[i] != batch[j]
      modifies this
      ensures messages == LeaseEach(old(messages), batch, old(nextToken), until)
      ensures nextToken == old(nextToken) + |batch|
      ensures |leased| == |batch| && forall i :: 0 <= i < |batch| ==> leased[i] == messages[batch[i]]
    {
      leased := [];
      var i := 0;
      while i < |batch|
        invariant 0 <= i == |leased| <= |batch|
        invariant LeasedSoFar(old(messages), messages, batch, i, old(nextToken), until)
        invariant nextToken == old(nextToken) + i
        invariant forall k :: 0 <= k < i ==> leased[k] == messages[batch[k]]
      {
        LeaseNext(old(messages), messages, batch, i, old(nextToken), until);
        var updated := LeaseOne(batch[i], until);
        leased := leased + [updated];
        i := i + 1;
      }
      LeasedAll(old(messages), messages, batch, old(nextToken), until);
    }

    method Lease(limit: int, duration: int, now: int) returns (answer: Answer, leased: seq<Message>, ghost due: seq<string>)
      requires WellKeyed(messages)
      modifies this
      ensures answer == if limit < 1 || duration <= 0 then Raised(BadArgument) else Done
      ensures answer.Raised? ==> leased == [] && messages == old(messages) && nextToken == old(nextToken)
      ensures answer.Done? ==>
        var swept := Sweep(old(messages), now);
        var ids := FirstOf(due, limit);
        && DueList(swept, now, due)
        && messages == LeaseEach(swept, ids, old(nextToken), now + duration)
        && nextToken == old(nextToken) + |ids|
        && |leased| == |ids| && forall i :: 0 <= i < |ids| ==> leased[i] == messages[ids[i]]
    {
      leased, due := [], [];
      if limit < 1 { return Raised(BadArgument), [], []; }
      if duration <= 0 { return Raised(BadArgument), [], []; }
      SweepExpired(now);
      var ids := Candidates(now);
      due := ids;
      var batch := FirstOf(ids, limit);
      BatchIsStored(messages, now, ids, batch);
      leased := LeaseBatch(batch, now + duration);
      return Done, leased, due;
    }

    method MarkPublished(id: string, token: nat, now: int) returns (answer: Answer)
      modifies this`messages
      ensures answer == if Holds(old(messages), id, token) then Done else Raised(if id in old(messages) then LeaseLost else UnknownMessage)
      ensures messages == if answer.Done? then old(messages)[id := AsPublished(old(messages)[id], now)] else old(messages)
    {
      if id !in messages { return Raised(UnknownMessage); }
      var message := messages[id];
      if !message.status.Leased? || message.lease != Some(token) { return Raised(LeaseLost); }
      messages := messages[id := message.(status := Published, publishedAt := Some(now),
                                          lease := None, leasedUntil := None, lastError := None)];
      return Done;
    }

    method MarkFailed(id: string, token: nat, error: string, retryAt: Option<int>, terminal: bool) returns (answer: Answer)
      modifies this`messages
      ensures answer == if Holds(old(messages), id, token) then Done else Raised(if id in old(messages) then LeaseLost else UnknownMessage)
      ensures messages == if answer.Done? then old(messages)[id := AsFailed(old(messages)[id], error, retryAt, terminal)]
                          else old(messages)
      ensures answer.Done? ==> && messages[id].status == (if terminal then DeadLettered else Failed)
                               && messages[id].availableAt == (if retryAt.Some? then retryAt.value else old(messages)[id].availableAt)
    {
      if id !in messages { return Raised(UnknownMessage); }
      var message := messages[id];
      if !message.status.Leased? || message.lease != Some(token) { return Raised(LeaseLost); }
      messages := messages[id := message.(status := if terminal then DeadLettered else Failed,
                                          availableAt := if retryAt.Some? then retryAt.value else message.availableAt,
                                          lastError := Some(error), lease := None, leasedUntil := None)];
      return Done;
    }

    method PurgePublished(before: int) returns (count: nat)
      modifies this`messages
      ensures messages == Purged(old(messages), before)
      ensures count == |old(messages)| - |messages|
    {
      var todo := messages.Keys;
      count := 0;
      while todo != {}
        invariant todo <= messages.Keys <= old(messages).Keys
        invariant forall id :: id in messages ==> messages[id] == old(messages)[id]
        invariant forall id :: id in old(messages) && id !in todo ==>
          (id in messages <==> !Purgeable(old(messages)[id], before))
        invariant count == |old(messages)| - |messages|
        decreases todo
      {
        var id :| id in todo;
        var m := messages[id];
        if m.status.Published? && m.publishedAt.Some? && m.publishedAt.value < before {
          assert (messages - {id}).Keys == messages.Keys - {id};
          messages := messages - {id};
          count := count + 1;
        }
        todo := todo - {id};
      }
    }
  }

  function FirstOf<T>(s: seq<T>, limit: int): (r: seq<T>)
    requires limit >= 1
    ensures r <= s && |r| == if |s| < limit then |s| else limit
  {
    if |s| > limit then s[..limit] else s
  }

  lemma InsertedSorted(messages: Messages, keys: set<string>, ids: seq<string>, id: string, i: nat)
    requires WellKeyed(messages) && id in messages && id !in keys && keys <= messages.Keys
    requires SortedKeys(messages, keys, ids) && i <= |ids|
    requires forall k :: 0 <= k < i ==> Before(messages[ids[k]], messages[id])
    requires i < |ids| ==> !Before(messages[ids[i]], messages[id])
    ensures SortedKeys(messages, keys + {id}, ids[..i] + [id] + ids[i..])
  {
    var longer := ids[..i] + [id] + ids[i..];
    forall k | i <= k < |ids| ensures Before(messages[id], messages[ids[k]]) {
      LaterThanInserted(messages, keys, ids, id, i, k);
    }
    assert forall x :: x in longer <==> x in ids[..i] || x == id || x in ids[i..];
    assert forall x :: x in ids <==> x in ids[..i] || x in ids[i..] by {
      assert ids == ids[..i] + ids[i..];
    }
  }

  lemma BatchIsStored(messages: Messages, now: int, ids: seq<string>, batch: seq<string>)
    requires DueList(messages, now, ids) && batch <= ids
    ensures forall i :: 0 <= i < |batch| ==> batch[i] in messages
    ensures forall i, j :: 0 <= i < j < |batch| ==> batch[i] != batch[j]
  {
    DueListDistinct(messages, now, ids);
  }

  lemma LaterThanInserted(messages: Messages, keys: set<string>, ids: seq<string>, id: string, i: nat, k: nat)
    requires WellKeyed(messages) && id in messages && id !in keys && SortedKeys(messages, keys, ids)
    requires i <= k < |ids| && !Before(messages[ids[i]], messages[id])
    ensures Before(messages[id], messages[ids[k]])
  {
    assert ids[k] in keys && ids[i] in keys;
    BeforeTotal(messages[ids[i]], messages[id]);
    if k > i { BeforeTransitive(messages[id], messages[ids[i]], messages[ids[k]]); }
  }

  lemma DueListDistinct(messages: Messages, now: int, ids: seq<string>)
    requires DueList(messages, now, ids)
    ensures forall i, j :: 0 <= i < j < |ids| ==> ids[i] != ids[j]
  {
    forall i, j | 0 <= i < j < |ids| ensures ids[i] != ids[j] {
      BeforeTotal(messages[ids[i]], messages[ids[j]]);
    }
  }
}
