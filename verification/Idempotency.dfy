/** The idempotency store deletes expired records lazily.  It should be indistinguishable from
    a store that holds only live keys, whichever calls happen to purge. */
module Idempotency {
  import opened Wrappers

  datatype Status = InProgress | Completed

  datatype Record = Record(status: Status, acquiredAt: real, expiresAt: real, completedAt: Option<real>)

  type Records = map<string, Record>

  datatype Answer =
    | Claimed(granted: bool) | Overflow | CompletedOk | NotClaimed | Released(existed: bool)
    | Found(record: Option<Record>) | Purged | BadValue

  predicate Expired(r: Record, now: real) {
    r.expiresAt <= now
  }

  function Live(records: Records, now: real): Records {
    map k | k in records && !Expired(records[k], now) :: records[k]
  }

  // ----- The lazy store --------------------------------------------------------------

  class MemoryIdempotencyStore {
    const defaultTtl: real
    const processingTtl: real
    const maxEntries: nat
    var records: Records

    constructor (defaultTtl: real, processingTtl: real, maxEntries: nat)
      requires defaultTtl > 0.0 && processingTtl > 0.0 && maxEntries >= 1
      ensures this.defaultTtl == defaultTtl && this.processingTtl == processingTtl && this.maxEntries == maxEntries
      ensures records == map[]
    {
      this.defaultTtl, this.processingTtl, this.maxEntries := defaultTtl, processingTtl, maxEntries;
      records := map[];
    }

    method DeleteExpired(now: real) returns (count: nat)
      modifies this
      ensures records == Live(old(records), now) && count == |old(records)| - |records|
    {
      var todo := records.Keys;
      count := 0;
      while todo != {}
        invariant todo <= records.Keys <= old(records).Keys
        invariant forall k :: k in records ==> records[k] == old(records)[k]
        invariant forall k :: k in old(records) && k !in todo ==> (k in records <==> !Expired(old(records)[k], now))
        invariant count == |old(records)| - |records|
        decreases todo
      {
        var k :| k in todo;
        if records[k].expiresAt <= now {
          assert (records - {k}).Keys == records.Keys - {k};
          records := records - {k};
          count := count + 1;
        }
        todo := todo - {k};
      }
    }

    method Claim(key: string, ttl: Option<real>, now: real) returns (answer: Answer)
      modifies this
      ensures (records, answer) == LazyClaim(old(records), key, if ttl.Some? then ttl.value else processingTtl, now, maxEntries)
    {
      if key == "" { return BadValue; }
      var duration := if ttl.Some? then ttl.value else processingTtl;
      if duration <= 0.0 { return BadValue; }
      if key in records && !Expired(records[key], now) {
        return Claimed(false);
      }
      if key in records {
        records := records - {key};
      }
      assert records == old(records) - {key};
      var _ := DeleteExpired(now);
      if |records| >= maxEntries {
        return Overflow;
      }
      records := records[key := Record(InProgress, now, now + duration, None)];
      return Claimed(true);
    }

    method Complete(key: string, ttl: Option<real>, now: real) returns (answer: Answer)
      modifies this
      ensures (records, answer) == LazyComplete(old(records), key, if ttl.Some? then ttl.value else defaultTtl, now)
    {
      var duration := if ttl.Some? then ttl.value else defaultTtl;
      if duration <= 0.0 { return BadValue; }
      if key !in records || Expired(records[key], now) {
        return NotClaimed;
      }
      records := records[key := records[key].(status := Completed, completedAt := Some(now), expiresAt := now + duration)];
      return CompletedOk;
    }

    method Release(key: string) returns (answer: Answer)
      modifies this
      ensures (records, answer) == LazyRelease(old(records), key)
    {
      if key !in records || records[key].status.Completed? {
        return Released(false);
      }
      records := records - {key};
      return Released(true);
    }

    method Get(key: string, now: real) returns (answer: Answer)
      modifies this
      ensures (records, answer) == LazyGet(old(records), key, now)
    {
      if key in records && Expired(records[key], now) {
        records := records - {key};
        return Found(None);
      }
      return Found(if key in records then Some(records[key]) else None);
    }
  }

  function LazyClaim(records: Records, key: string, ttl: real, now: real, max: nat): (Records, Answer) {
    if key == "" || ttl <= 0.0 then (records, BadValue)
    else if key in records && !Expired(records[key], now) then (records, Claimed(false))
    else
      var purged := Live(records - {key}, now);
      if |purged| >= max then (purged, Overflow)
      else (purged[key := Record(InProgress, now, now + ttl, None)], Claimed(true))
  }

  function LazyComplete(records: Records, key: string, ttl: real, now: real): (Records, Answer) {
    if ttl <= 0.0 then (records, BadValue)
    else if key !in records || Expired(records[key], now) then (records, NotClaimed)
    else (records[key := records[key].(status := Completed, completedAt := Some(now), expiresAt := now + ttl)], CompletedOk)
  }

  function LazyRelease(records: Records, key: string): (Records, Answer) {
    if key !in records || records[key].status.Completed? then (records, Released(false))
    else (records - {key}, Released(true))
  }

  function LazyGet(records: Records, key: string, now: real): (Records, Answer) {
    if key in records && Expired(records[key], now) then (records - {key}, Found(None))
    else (records, Found(if key in records then Some(records[key]) else None))
  }

  // ----- Runs --------------------------------------------------------------------------

  datatype Call =
    | Claim(now: real, key: string, ttl: real)
    | Complete(now: real, key: string, ttl: real)
    | Release(now: real, key: string)
    | Get(now: real, key: string)
    | PurgeExpired(now: real)

  function Lazy(records: Records, c: Call, max: nat): (Records, Answer) {
    match c
    case Claim(now, key, ttl) => LazyClaim(records, key, ttl, now, max)
    case Complete(now, key, ttl) => LazyComplete(records, key, ttl, now)
    case Release(_, key) => LazyRelease(records, key)
    case Get(now, key) => LazyGet(records, key, now)
    case PurgeExpired(now) => (Live(records, now), Purged)
  }

  /** The reference: `live` holds exactly the live keys when the call begins. */
  function Reference(live: Records, c: Call, max: nat): (Records, Answer) {
    match c
    case Claim(now, key, ttl) =>
      if key == "" || ttl <= 0.0 then (live, BadValue)
      else if key in live then (live, Claimed(false))
      else if |live| >= max then (live, Overflow)
      else (live[key := Record(InProgress, now, now + ttl, None)], Claimed(true))
    case Complete(now, key, ttl) =>
      if ttl <= 0.0 then (live, BadValue)
      else if key !in live then (live, NotClaimed)
      else (live[key := live[key].(status := Completed, completedAt := Some(now), expiresAt := now + ttl)], CompletedOk)
    case Release(_, key) =>
      if key in live && live[key].status.InProgress? then (live - {key}, Released(true)) else (live, Released(false))
    case Get(_, key) => (live, Found(if key in live then Some(live[key]) else None))
    case PurgeExpired(_) => (live, Purged)
  }

  /** Time passes, then the reference answers. */
  function ReferenceAt(live: Records, c: Call, max: nat): (Records, Answer) {
    Reference(Live(live, c.now), c, max)
  }

  function LazyAfter(calls: seq<Call>, max: nat): Records {
    if calls == [] then map[] else Lazy(LazyAfter(calls[..|calls| - 1], max), calls[|calls| - 1], max).0
  }

  function ReferenceAfter(calls: seq<Call>, max: nat): Records {
    if calls == [] then map[] else ReferenceAt(ReferenceAfter(calls[..|calls| - 1], max), calls[|calls| - 1], max).0
  }

  ghost predicate ClockNeverRunsBack(calls: seq<Call>) {
    forall i, j :: 0 <= i < j < |calls| ==> calls[i].now <= calls[j].now
  }

  // ----- Refinement -----------------------------------------------------------------------

  lemma LiveLater(records: Records, now: real, later: real)
    requires now <= later
    ensures Live(Live(records, now), later) == Live(records, later)
  {
  }

  /** The release answer differs exactly on an expired claim that no call has deleted yet. */
  predicate StaleRelease(records: Records, c: Call) {
    c.Release? && c.key in records && records[c.key].status.InProgress? && Expired(records[c.key], c.now)
  }

  ghost predicate Refines(records: Records, c: Call, max: nat) {
    && Live(Lazy(records, c, max).0, c.now) == Reference(Live(records, c.now), c, max).0
    && (Lazy(records, c, max).1 == Reference(Live(records, c.now), c, max).1 <==> !StaleRelease(records, c))
  }

  lemma LiveWithout(records: Records, key: string, now: real)
    requires key !in Live(records, now)
    ensures Live(records - {key}, now) == Live(records, now)
  {
  }

  lemma LiveWith(live: Records, key: string, r: Record, now: real)
    requires Live(live, now) == live && !Expired(r, now)
    ensures Live(live[key := r], now) == live[key := r]
  {
  }

  lemma ClaimRefines(records: Records, c: Call, max: nat)
    requires c.Claim?
    ensures Refines(records, c, max)
  {
    LiveLater(records, c.now, c.now);
    if c.key != "" && c.ttl > 0.0 && c.key !in Live(records, c.now) {
      OpenClaimRefines(records, c, max);
    }
  }

  lemma OpenClaimRefines(records: Records, c: Call, max: nat)
    requires c.Claim? && c.key != "" && c.ttl > 0.0 && c.key !in Live(records, c.now)
    ensures Refines(records, c, max)
  {
    var live, granted := Live(records, c.now), Record(InProgress, c.now, c.now + c.ttl, None);
    LiveLater(records, c.now, c.now);
    LiveWithout(records, c.key, c.now);
    LiveWith(live, c.key, granted, c.now);
    var both := if |live| >= max then (live, Overflow) else (live[c.key := granted], Claimed(true));
    assert Lazy(records, c, max) == both && Reference(live, c, max) == both;
  }

  lemma CompleteRefines(records: Records, c: Call, max: nat)
    requires c.Complete?
    ensures Refines(records, c, max)
  {
    var live := Live(records, c.now);
    if c.ttl > 0.0 && c.key in live {
      var done := records[c.key].(status := Completed, completedAt := Some(c.now), expiresAt := c.now + c.ttl);
      assert Live(records[c.key := done], c.now) == live[c.key := done];
    }
  }

  lemma ReleaseRefines(records: Records, c: Call, max: nat)
    requires c.Release?
    ensures Refines(records, c, max)
  {
    LiveMinus(records, c.key, c.now);
    var live := Live(records, c.now);
    LiveLater(records, c.now, c.now);
    if c.key in live && live[c.key].status.InProgress? {
      var both := (live - {c.key}, Released(true));
      assert Reference(live, c, max) == both;
      assert Lazy(records, c, max) == (records - {c.key}, Released(true));
    } else {
      assert Reference(live, c, max) == (live, Released(false));
    }
  }

  lemma LiveMinus(records: Records, key: string, now: real)
    ensures Live(records - {key}, now) == Live(records, now) - {key}
    ensures key !in Live(records, now) ==> Live(records, now) - {key} == Live(records, now)
  {
  }

  lemma ReadRefines(records: Records, c: Call, max: nat)
    requires c.Get? || c.PurgeExpired?
    ensures Refines(records, c, max)
  {
    var live := Live(records, c.now);
    assert Live(live, c.now) == live;
    if c.Get? && c.key !in live {
      assert Live(records - {c.key}, c.now) == live;
    }
  }

  lemma StepRefines(records: Records, c: Call, max: nat)
    ensures Refines(records, c, max)
  {
    match c
    case Claim(_, _, _) => ClaimRefines(records, c, max);
    case Complete(_, _, _) => CompleteRefines(records, c, max);
    case Release(_, _) => ReleaseRefines(records, c, max);
    case _ => ReadRefines(records, c, max);
  }

  lemma {:induction false} RunRefines(calls: seq<Call>, max: nat, now: real)
    requires ClockNeverRunsBack(calls) && (calls != [] ==> calls[|calls| - 1].now <= now)
    ensures Live(LazyAfter(calls, max), now) == Live(ReferenceAfter(calls, max), now)
    decreases |calls|
  {
    if calls != [] {
      var before, last := calls[..|calls| - 1], calls[|calls| - 1];
      RunRefines(before, max, last.now);
      StepRefines(LazyAfter(before, max), last, max);
      LiveLater(LazyAfter(calls, max), last.now, now);
      LiveLater(ReferenceAfter(calls, max), last.now, now);
    }
  }

  /** After any run with a non-decreasing clock the next call gets the reference's answer,
      except exactly when it releases an expired, still stored claim: then the lazy store says
      that it released something although nothing live was there. */
  lemma AnswersLikeLiveMap(calls: seq<Call>, c: Call, max: nat)
    requires ClockNeverRunsBack(calls + [c])
    ensures Lazy(LazyAfter(calls, max), c, max).1 == ReferenceAt(ReferenceAfter(calls, max), c, max).1
       <==> !StaleRelease(LazyAfter(calls, max), c)
  {
    var all := calls + [c];
    assert forall i :: 0 <= i < |calls| ==> all[i] == calls[i] && calls[i].now <= all[|calls|].now;
    RunRefines(calls, max, c.now);
    StepRefines(LazyAfter(calls, max), c, max);
  }

  /** What a claim answers, over any run: false exactly when the key is live, overflow exactly
      when it is not and the live keys fill the store, and success otherwise. */
  lemma ClaimAnswers(calls: seq<Call>, key: string, ttl: real, now: real, max: nat)
    requires ClockNeverRunsBack(calls + [Claim(now, key, ttl)]) && key != "" && ttl > 0.0
    ensures var live := Live(ReferenceAfter(calls, max), now);
      var answer := Lazy(LazyAfter(calls, max), Claim(now, key, ttl), max).1;
      && (answer == Claimed(false) <==> key in live)
      && (answer == Overflow <==> key !in live && |live| >= max)
      && (answer == Claimed(true) <==> key !in live && |live| < max)
  {
    AnswersLikeLiveMap(calls, Claim(now, key, ttl), max);
  }

  // ----- Exclusive claims ---------------------------------------------------------------------

  /** `key` is claimed, not completed, until `until`. */
  predicate HeldUntil(records: Records, key: string, until: real) {
    key in records && records[key].status.InProgress? && records[key].expiresAt == until
  }

  predicate Settles(c: Call, key: string) {
    (c.Release? || c.Complete?) && c.key == key
  }

  lemma StaysHeld(records: Records, c: Call, max: nat, key: string, until: real)
    requires HeldUntil(records, key, until) && !Settles(c, key) && c.now < until
    ensures HeldUntil(Lazy(records, c, max).0, key, until)
    ensures c.Claim? && c.key == key ==> !Lazy(records, c, max).1.Overflow? && Lazy(records, c, max).1 != Claimed(true)
  {
  }

  function LazyFrom(records: Records, calls: seq<Call>, max: nat): Records
    decreases |calls|
  {
    if calls == [] then records else LazyFrom(Lazy(records, calls[0], max).0, calls[1..], max)
  }

  /** A granted claim is exclusive: whatever else the store is asked, until the claim expires or
      someone settles the key no second claim of it is granted. */
  lemma {:induction false} ClaimIsExclusive(records: Records, calls: seq<Call>, next: Call, max: nat, key: string, until: real)
    requires HeldUntil(records, key, until)
    requires forall c :: c in calls + [next] ==> c.now < until && !Settles(c, key)
    requires next.Claim? && next.key == key && key != "" && next.ttl > 0.0
    ensures Lazy(LazyFrom(records, calls, max), next, max).1 == Claimed(false)
    decreases |calls|
  {
    assert next in calls + [next];
    if calls != [] {
      assert calls[0] in calls + [next];
      StaysHeld(records, calls[0], max, key, until);
      ClaimIsExclusive(Lazy(records, calls[0], max).0, calls[1..], next, max, key, until);
    }
  }

  /** A granted claim does hold the key until its own expiry. */
  lemma GrantHolds(records: Records, key: string, ttl: real, now: real, max: nat)
    requires LazyClaim(records, key, ttl, now, max).1 == Claimed(true)
    ensures HeldUntil(LazyClaim(records, key, ttl, now, max).0, key, now + ttl) && now < now + ttl
    ensures |LazyClaim(records, key, ttl, now, max).0| <= max
  {
    var purged := Live(records - {key}, now);
    assert purged[key := Record(InProgress, now, now + ttl, None)].Keys == purged.Keys + {key};
  }

  /** How many other keys have not expired. */
  function Others(records: Records, key: string, now: real): set<string> {
    set k | k in records && k != key && records[k].expiresAt > now
  }

  /** A key is free again from its expiry on: until then a claim of it is refused, and from then on
      it succeeds exactly while fewer than `max` other keys have not expired. */
  lemma FreeFromExpiryOn(records: Records, key: string, ttl: real, now: real, max: nat)
    requires key != "" && ttl > 0.0
    ensures var (after, answer) := LazyClaim(records, key, ttl, now, max);
      if key in records && now < records[key].expiresAt then answer == Claimed(false) && after == records
      else if |Others(records, key, now)| < max then answer == Claimed(true) && HeldUntil(after, key, now + ttl)
      else answer == Overflow && key !in after
  {
    var purged := Live(records - {key}, now);
    assert purged.Keys == Others(records, key, now);
  }

  lemma {:induction false} StaysHeldFrom(records: Records, calls: seq<Call>, max: nat, key: string, until: real)
    requires HeldUntil(records, key, until)
    requires forall c :: c in calls ==> c.now < until && !Settles(c, key)
    ensures HeldUntil(LazyFrom(records, calls, max), key, until)
    decreases |calls|
  {
    if calls != [] {
      StaysHeld(records, calls[0], max, key, until);
      StaysHeldFrom(Lazy(records, calls[0], max).0, calls[1..], max, key, until);
    }
  }

  /** A claim that nobody settles is refused to others up to its expiry and no longer, whatever else
      the store is asked before. */
  lemma ClaimLapses(records: Records, calls: seq<Call>, next: Call, max: nat, key: string, until: real)
    requires HeldUntil(records, key, until)
    requires forall c :: c in calls ==> c.now < until && !Settles(c, key)
    requires next.Claim? && next.key == key && key != "" && next.ttl > 0.0
    ensures var before := LazyFrom(records, calls, max);
      var answer := Lazy(before, next, max).1;
      && (answer == Claimed(false) <==> next.now < until)
      && (answer == Claimed(true) <==> next.now >= until && |Others(before, key, next.now)| < max)
  {
    StaysHeldFrom(records, calls, max, key, until);
    FreeFromExpiryOn(LazyFrom(records, calls, max), key, next.ttl, next.now, max);
  }

  /** A live key, and only a live one, is found and can be completed; completing it sets a new
      expiry.  A claim, and only a claim, can be released. */
  lemma LiveExactly(records: Records, key: string, ttl: real, now: real)
    requires ttl > 0.0
    ensures var live := key in records && now < records[key].expiresAt;
      && LazyGet(records, key, now).1 == Found(if live then Some(records[key]) else None)
      && (LazyComplete(records, key, ttl, now).1 == if live then CompletedOk else NotClaimed)
      && (live ==> var after := LazyComplete(records, key, ttl, now).0;
                   && key in after && after[key].status.Completed? && after[key].completedAt == Some(now)
                   && after[key].expiresAt == now + ttl && after - {key} == records - {key})
    ensures var claimed := key in records && records[key].status.InProgress?;
      LazyRelease(records, key) == if claimed then (records - {key}, Released(true)) else (records, Released(false))
  {
  }
}
