/** Dead-lettered messages wait in a store until an operator replays, quarantines, archives or
    deletes them.  The counters on a record must account for every publish of it. */
module DeadLetters {
  import opened Wrappers

  datatype Status = Active | Quarantined | Archived | Replayed

  /** `reason` is the quarantine reason.  `revision` stands for the update time: every rewrite of a
      record moves it on. */
  datatype Entry = Entry(status: Status, replayCount: nat, replayFailures: nat, deadLetteredAt: int, hasEnvelope: bool,
                         reason: Option<string>, revision: nat)

  function NewEntry(at: int, hasEnvelope: bool): Entry {
    Entry(Active, 0, 0, at, hasEnvelope, None, 0)
  }

  type Entries = map<string, Entry>

  datatype Policy = Policy(maxReplayAttempts: nat, maxReplayBatch: nat, quarantineAfter: nat,
                           archiveAfter: Option<nat>, retention: Option<nat>)

  predicate ValidPolicy(p: Policy) {
    && p.maxReplayAttempts >= 1 && p.maxReplayBatch >= 1 && p.quarantineAfter >= 1
    && (p.archiveAfter.Some? ==> p.archiveAfter.value > 0)
    && (p.retention.Some? ==> p.retention.value > 0)
    && (p.archiveAfter.Some? && p.retention.Some? ==> p.archiveAfter.value <= p.retention.value)
  }

  datatype Options = Options(dryRun: bool, includeQuarantined: bool, includeArchived: bool)

  /** What the publisher does with a message. */
  datatype Sending = Accepted | Refused | Cancelled

  /** The surroundings of one replay: whether a configured decoder yields an envelope from the
      stored bytes, and what the publisher does. */
  datatype World = World(decodes: bool, sending: Sending)

  datatype Answer =
    | Skipped | DryRun | Succeeded | Failed | MovedToQuarantine
    | UnknownRecord | NoEnvelope | PublishCancelled

  predicate Raises(a: Answer) {
    a.UnknownRecord? || a.NoEnvelope? || a.PublishCancelled?
  }

  datatype Attempt = Attempt(entry: Entry, answer: Answer, published: bool)

  // ----- One record -----------------------------------------------------------------------

  /** The statuses that a replay leaves alone. */
  predicate Guarded(e: Entry, o: Options) {
    || e.status.Replayed?
    || (e.status.Quarantined? && !o.includeQuarantined)
    || (e.status.Archived? && !o.includeArchived)
  }

  function Quarantining(e: Entry, reason: string): Entry {
    e.(status := Quarantined, reason := Some(reason), revision := e.revision + 1)
  }

  function Releasing(e: Entry): Entry {
    e.(status := Active, reason := None, revision := e.revision + 1)
  }

  function Archiving(e: Entry): Entry {
    e.(status := Archived, revision := e.revision + 1)
  }

  function Accepting(e: Entry): Entry {
    e.(status := Replayed, replayCount := e.replayCount + 1, revision := e.revision + 1)
  }

  /** One more failed replay; the last one that is tolerated quarantines. */
  function Refusing(e: Entry, p: Policy): Entry {
    var status := if e.replayFailures + 1 >= p.quarantineAfter then Quarantined else e.status;
    e.(status := status, replayCount := e.replayCount + 1, replayFailures := e.replayFailures + 1,
       reason := if status.Quarantined? then Some("repeated replay failure") else e.reason, revision := e.revision + 1)
  }

  function ReplayEntry(e: Entry, p: Policy, o: Options, w: World): Attempt {
    if Guarded(e, o) then Attempt(e, Skipped, false)
    else if e.replayCount >= p.maxReplayAttempts
    then Attempt(Quarantining(e, "maximum replay attempts reached"), MovedToQuarantine, false)
    else if o.dryRun then Attempt(e, DryRun, false)
    else if !e.hasEnvelope && !w.decodes then Attempt(e, NoEnvelope, false)
    else match w.sending
      case Cancelled => Attempt(e, PublishCancelled, true)
      case Accepted => Attempt(Accepting(e), Succeeded, true)
      case Refused =>
        Attempt(Refusing(e, p), if Refusing(e, p).status.Quarantined? then MovedToQuarantine else Failed, true)
  }

  /** A record that a retention pass deletes. */
  predicate Outlived(e: Entry, now: int, p: Policy) {
    p.retention.Some? && now - e.deadLetteredAt >= p.retention.value
  }

  predicate DueForArchive(e: Entry, now: int, p: Policy) {
    p.archiveAfter.Some? && now - e.deadLetteredAt >= p.archiveAfter.value && (e.status.Active? || e.status.Quarantined?)
  }

  function Aged(e: Entry, now: int, p: Policy): Entry {
    if DueForArchive(e, now, p) then Archiving(e) else e
  }

  function Retained(entries: Entries, now: int, p: Policy): Entries {
    map id | id in entries && !Outlived(entries[id], now, p) :: Aged(entries[id], now, p)
  }

  function ToArchive(entries: Entries, now: int, p: Policy): set<string> {
    set id | id in entries && !Outlived(entries[id], now, p) && DueForArchive(entries[id], now, p)
  }

  function Members(ids: seq<string>): set<string> {
    set id | id in ids
  }

  function Without(entries: Entries, ids: seq<string>): Entries {
    if ids == [] then entries else Without(entries, ids[..|ids| - 1]) - {ids[|ids| - 1]}
  }

  lemma WithoutNext(entries: Entries, ids: seq<string>, i: nat)
    requires i < |ids|
    ensures Without(entries, ids[..i + 1]) == Without(entries, ids[..i]) - {ids[i]}
  {
    assert ids[..i + 1][..i] == ids[..i];
  }

  lemma {:induction false} WithoutMembers(entries: Entries, ids: seq<string>)
    ensures Without(entries, ids) == entries - Members(ids)
    decreases |ids|
  {
    if ids == [] {
      assert entries - Members(ids) == entries;
    } else {
      var front, last := ids[..|ids| - 1], ids[|ids| - 1];
      WithoutMembers(entries, front);
      assert ids == front + [last];
      assert Members(ids) == Members(front) + {last};
    }
  }

  /** A retention pass under way: the records in `todo` have not been looked at. */
  function PartlyRetained(entries: Entries, todo: set<string>, now: int, p: Policy): Entries {
    map id | id in entries && (id in todo || !Outlived(entries[id], now, p)) ::
      if id in todo then entries[id] else Aged(entries[id], now, p)
  }

  lemma RetainNext(entries: Entries, todo: set<string>, id: string, now: int, p: Policy)
    requires id in todo && todo <= entries.Keys
    ensures var partly := PartlyRetained(entries, todo, now, p);
      && id in partly && partly[id] == entries[id]
      && PartlyRetained(entries, todo - {id}, now, p)
         == (if Outlived(entries[id], now, p) then partly - {id} else partly[id := Aged(entries[id], now, p)])
    ensures var waiting := ToArchive(entries, now, p);
      && id !in waiting - todo
      && waiting - (todo - {id}) == (waiting - todo) + (if id in waiting then {id} else {})
  {
  }

  // ----- The store, the manager and the replayer ------------------------------------------------

  class MemoryDeadLetterStore {
    const maxEntries: nat
    var entries: Entries

    constructor (maxEntries: nat)
      requires maxEntries >= 1
      ensures this.maxEntries == maxEntries && entries == map[]
    {
      this.maxEntries := maxEntries;
      entries := map[];
    }

    method Put(id: string, at: int, hasEnvelope: bool) returns (stored: bool)
      modifies this
      ensures stored == (id !in old(entries) && |old(entries)| < maxEntries)
      ensures entries == if stored then old(entries)[id := NewEntry(at, hasEnvelope)] else old(entries)
    {
      if id in entries { return false; }
      if |entries| >= maxEntries { return false; }
      entries := entries[id := NewEntry(at, hasEnvelope)];
      return true;
    }

    method Update(id: string, e: Entry) returns (known: bool)
      modifies this
      ensures known == (id in old(entries))
      ensures entries == if known then old(entries)[id := e] else old(entries)
    {
      if id !in entries { return false; }
      entries := entries[id := e];
      return true;
    }

    method Delete(id: string) returns (known: bool)
      modifies this
      ensures known == (id in old(entries)) && entries == old(entries) - {id}
      ensures |entries| == |old(entries)| - if known then 1 else 0
    {
      known := id in entries;
      assert (entries - {id}).Keys == entries.Keys - {id};
      entries := entries - {id};
    }
  }

  class DeadLetterManager {
    const store: MemoryDeadLetterStore
    const policy: Policy

    constructor (store: MemoryDeadLetterStore, policy: Policy)
      requires ValidPolicy(policy)
      ensures this.store == store && this.policy == policy
    {
      this.store, this.policy := store, policy;
    }

    method Quarantine(id: string, reason: string) returns (ok: bool)
      modifies store
      ensures store.entries == Apply(old(store.entries), Op.Quarantine(id, reason), policy)
      ensures ok == (reason != "" && id in old(store.entries) && !old(store.entries)[id].status.Replayed?)
    {
      if reason == "" { return false; }
      if id !in store.entries { return false; }
      var e := store.entries[id];
      if e.status.Replayed? { return false; }
      ok := store.Update(id, e.(status := Quarantined, reason := Some(reason), revision := e.revision + 1));
    }

    method Release(id: string) returns (ok: bool)
      modifies store
      ensures store.entries == Apply(old(store.entries), Op.Release(id), policy)
      ensures ok == (id in old(store.entries) && old(store.entries)[id].status.Quarantined?)
    {
      if id !in store.entries { return false; }
      var e := store.entries[id];
      if !e.status.Quarantined? { return false; }
      ok := store.Update(id, e.(status := Active, reason := None, revision := e.revision + 1));
    }

    method Archive(id: string) returns (ok: bool)
      modifies store
      ensures store.entries == Apply(old(store.entries), Op.Archive(id), policy)
      ensures ok == (id in old(store.entries) && !old(store.entries)[id].status.Replayed?)
    {
      if id !in store.entries { return false; }
      var e := store.entries[id];
      if e.status.Replayed? { return false; }
      ok := store.Update(id, e.(status := Archived, revision := e.revision + 1));
    }

    method RetainOne(id: string, now: int, ghost before: Entries, ghost todo: set<string>) returns (archived: bool, deleted: bool)
      requires id in todo && todo <= before.Keys && store.entries == PartlyRetained(before, todo, now, policy)
      modifies store
      ensures store.entries == PartlyRetained(before, todo - {id}, now, policy)
      ensures |ToArchive(before, now, policy) - (todo - {id})|
           == |ToArchive(before, now, policy) - todo| + if archived then 1 else 0
      ensures |store.entries| == |old(store.entries)| - if deleted then 1 else 0
    {
      RetainNext(before, todo, id, now, policy);
      var e := store.entries[id];
      assert store.entries[id := e] == store.entries;
      if policy.retention.Some? && now - e.deadLetteredAt >= policy.retention.value {
        var _ := store.Delete(id);
        return false, true;
      }
      if policy.archiveAfter.Some? && now - e.deadLetteredAt >= policy.archiveAfter.value
         && (e.status.Active? || e.status.Quarantined?) {
        assert store.entries[id := Archiving(e)].Keys == store.entries.Keys;
        var ok := Archive(id);
        return ok, false;
      }
      return false, false;
    }

    /** Deletes what a query selected.  Selecting none or several needs a confirmation. */
    method Purge(selected: seq<string>, confirm: bool) returns (allowed: bool, deleted: nat)
      modifies store
      ensures allowed == (|selected| == 1 || confirm)
      ensures store.entries == if allowed then old(store.entries) - Members(selected) else old(store.entries)
      ensures deleted == |old(store.entries)| - |store.entries|
    {
      if |selected| != 1 && !confirm { return false, 0; }
      deleted := 0;
      var i := 0;
      while i < |selected|
        invariant 0 <= i <= |selected|
        invariant store.entries == Without(old(store.entries), selected[..i])
        invariant deleted == |old(store.entries)| - |store.entries|
      {
        WithoutNext(old(store.entries), selected, i);
        var known := store.Delete(selected[i]);
        deleted := deleted + if known then 1 else 0;
        i := i + 1;
      }
      assert selected[..i] == selected;
      WithoutMembers(old(store.entries), selected);
      return true, deleted;
    }

    /** One retention pass.  Each record is deleted, archived or kept on its own age. */
    method ApplyRetention(now: int) returns (archived: nat, purged: nat)
      modifies store
      ensures store.entries == Retained(old(store.entries), now, policy)
      ensures purged == |old(store.entries)| - |store.entries|
      ensures archived == |ToArchive(old(store.entries), now, policy)|
    {
      ghost var before := store.entries;
      var todo := store.entries.Keys;
      archived, purged := 0, 0;
      assert ToArchive(before, now, policy) - todo == {};
      while todo != {}
        invariant todo <= before.Keys
        invariant store.entries == PartlyRetained(before, todo, now, policy)
        invariant purged == |before| - |store.entries|
        invariant archived == |ToArchive(before, now, policy) - todo|
        decreases todo
      {
        var id :| id in todo;
        var a, d := RetainOne(id, now, before, todo);
        archived := archived + (if a then 1 else 0);
        purged := purged + (if d then 1 else 0);
        todo := todo - {id};
      }
      assert ToArchive(before, now, policy) - todo == ToArchive(before, now, policy);
    }
  }

  datatype Batch = TooMany | Unconfirmed | Completed(answers: seq<Answer>) | Stopped(at: Answer)

  class ReplayManager {
    const store: MemoryDeadLetterStore
    const policy: Policy

    constructor (store: MemoryDeadLetterStore, policy: Policy)
      requires ValidPolicy(policy)
      ensures this.store == store && this.policy == policy
    {
      this.store, this.policy := store, policy;
    }

    method Replay(id: string, o: Options, w: World) returns (answer: Answer)
      modifies store
      ensures store.entries == Apply(old(store.entries), Op.Replay(id, o, w), policy)
      ensures answer == if id in old(store.entries) then ReplayEntry(old(store.entries)[id], policy, o, w).answer else UnknownRecord
    {
      if id !in store.entries { return UnknownRecord; }
      var e := store.entries[id];
      assert store.entries[id := e] == store.entries;
      if e.status.Replayed? { return Skipped; }
      if e.status.Quarantined? && !o.includeQuarantined { return Skipped; }
      if e.status.Archived? && !o.includeArchived { return Skipped; }
      if e.replayCount >= policy.maxReplayAttempts {
        var _ := store.Update(id, e.(status := Quarantined, reason := Some("maximum replay attempts reached"),
                                     revision := e.revision + 1));
        return MovedToQuarantine;
      }
      if o.dryRun { return DryRun; }
      if !e.hasEnvelope && !w.decodes { return NoEnvelope; }
      match w.sending {
        case Cancelled => return PublishCancelled;
        case Refused =>
          var failures := e.replayFailures + 1;
          var status := if failures >= policy.quarantineAfter then Quarantined else e.status;
          var reason := if status.Quarantined? then Some("repeated replay failure") else e.reason;
          var _ := store.Update(id, e.(status := status, reason := reason, replayCount := e.replayCount + 1,
                                       replayFailures := failures, revision := e.revision + 1));
          return if status.Quarantined? then MovedToQuarantine else Failed;
        case Accepted =>
          var _ := store.Update(id, e.(status := Replayed, replayCount := e.replayCount + 1, revision := e.revision + 1));
          return Succeeded;
      }
    }

    /** Replays each selected record once, in order, until one replay raises.  The store ends as
        after that many single replays. */
    method ReplaySelected(ids: seq<string>, o: Options, confirm: bool, worlds: string -> World)
      returns (batch: Batch, ghost made: nat)
      modifies store
      ensures made <= |Distinct(ids)| && made <= policy.maxReplayBatch
      ensures store.entries == Run(old(store.entries), Replays(Distinct(ids)[..made], o, worlds), policy)
      ensures batch.TooMany? <==> |Distinct(ids)| > policy.maxReplayBatch
      ensures batch.Unconfirmed? <==> 1 < |Distinct(ids)| <= policy.maxReplayBatch && !confirm && !o.dryRun
      ensures batch.Completed? ==> made == |Distinct(ids)| == |batch.answers| && forall a :: a in batch.answers ==> !Raises(a)
      ensures batch.Stopped? ==> Raises(batch.at)
    {
      var selected := Distinct(ids);
      made := 0;
      if |selected| > policy.maxReplayBatch { return TooMany, 0; }
      if |selected| > 1 && !(confirm || o.dryRun) { return Unconfirmed, 0; }
      var answers: seq<Answer> := [];
      var i := 0;
      while i < |selected|
        invariant 0 <= i <= |selected| && |answers| == i
        invariant forall a :: a in answers ==> !Raises(a)
        invariant store.entries == Run(old(store.entries), Replays(selected[..i], o, worlds), policy)
      {
        var answer := Replay(selected[i], o, worlds(selected[i]));
        OneMoreReplay(old(store.entries), selected, i, o, worlds, policy);
        i := i + 1;
        if Raises(answer) { return Stopped(answer), i; }
        answers := answers + [answer];
      }
      assert selected[..i] == selected;
      return Completed(answers), i;
    }
  }

  /** The selection without its repetitions, in order of first mention. */
  function Distinct(ids: seq<string>): seq<string> {
    if ids == [] then []
    else
      var front := Distinct(ids[..|ids| - 1]);
      if ids[|ids| - 1] in front then front else front + [ids[|ids| - 1]]
  }

  lemma {:induction false} DistinctKeepsEachOnce(ids: seq<string>)
    ensures forall id :: id in Distinct(ids) <==> id in ids
    ensures forall i, j :: 0 <= i < j < |Distinct(ids)| ==> Distinct(ids)[i] != Distinct(ids)[j]
  {
    if ids != [] {
      DistinctKeepsEachOnce(ids[..|ids| - 1]);
      assert ids == ids[..|ids| - 1] + [ids[|ids| - 1]];
    }
  }

  /** They are in the order of their first mention: what is selected from a beginning of the list
      begins the selection. */
  lemma {:induction false} DistinctInOrder(ids: seq<string>, k: nat)
    requires k <= |ids|
    ensures Distinct(ids[..k]) <= Distinct(ids)
    decreases |ids|
  {
    if k == |ids| {
      assert ids[..k] == ids;
    } else {
      DistinctInOrder(ids[..|ids| - 1], k);
      assert ids[..|ids| - 1][..k] == ids[..k];
    }
  }

  // ----- Runs ---------------------------------------------------------------------------------

  datatype Op =
    | Put(id: string, at: int, hasEnvelope: bool, capacity: nat)
    | Replay(id: string, options: Options, world: World)
    | Quarantine(id: string, reason: string)
    | Release(id: string)
    | Archive(id: string)
    | Delete(id: string)
    | Retain(now: int)

  function Apply(entries: Entries, op: Op, p: Policy): Entries {
    match op
    case Put(id, at, hasEnvelope, capacity) =>
      if id in entries || |entries| >= capacity then entries else entries[id := NewEntry(at, hasEnvelope)]
    case Replay(id, o, w) => if id in entries then entries[id := ReplayEntry(entries[id], p, o, w).entry] else entries
    case Quarantine(id, reason) =>
      if reason != "" && id in entries && !entries[id].status.Replayed?
      then entries[id := Quarantining(entries[id], reason)] else entries
    case Release(id) =>
      if id in entries && entries[id].status.Quarantined? then entries[id := Releasing(entries[id])] else entries
    case Archive(id) =>
      if id in entries && !entries[id].status.Replayed? then entries[id := Archiving(entries[id])] else entries
    case Delete(id) => entries - {id}
    case Retain(now) => Retained(entries, now, p)
  }

  function Run(entries: Entries, ops: seq<Op>, p: Policy): Entries
    decreases |ops|
  {
    if ops == [] then entries else Apply(Run(entries, ops[..|ops| - 1], p), ops[|ops| - 1], p)
  }

  lemma RunOneMore(entries: Entries, ops: seq<Op>, op: Op, p: Policy)
    ensures Run(entries, ops + [op], p) == Apply(Run(entries, ops, p), op, p)
  {
    assert (ops + [op])[..|ops|] == ops;
  }

  function Replays(ids: seq<string>, o: Options, worlds: string -> World): seq<Op> {
    seq(|ids|, i requires 0 <= i < |ids| => Op.Replay(ids[i], o, worlds(ids[i])))
  }

  lemma OneMoreReplay(entries: Entries, ids: seq<string>, i: nat, o: Options, worlds: string -> World, p: Policy)
    requires i < |ids|
    ensures Run(entries, Replays(ids[..i + 1], o, worlds), p)
         == Apply(Run(entries, Replays(ids[..i], o, worlds), p), Op.Replay(ids[i], o, worlds(ids[i])), p)
  {
    RunOneMore(entries, Replays(ids[..i], o, worlds), Op.Replay(ids[i], o, worlds(ids[i])), p);
    assert Replays(ids[..i + 1], o, worlds) == Replays(ids[..i], o, worlds) + [Op.Replay(ids[i], o, worlds(ids[i]))];
  }

  /** Whether `op`, made when the store holds `entries`, sends record `id` to the publisher. */
  predicate Publishes(entries: Entries, op: Op, p: Policy, id: string) {
    op.Replay? && op.id == id && id in entries && ReplayEntry(entries[id], p, op.options, op.world).published
  }

  function PublishCount(entries: Entries, ops: seq<Op>, p: Policy, id: string): nat
    decreases |ops|
  {
    if ops == [] then 0
    else
      var before := ops[..|ops| - 1];
      PublishCount(entries, before, p, id) + if Publishes(Run(entries, before, p), ops[|ops| - 1], p, id) then 1 else 0
  }

  /** The publishes that were cancelled half way: the record does not remember them. */
  function CancelledCount(entries: Entries, ops: seq<Op>, p: Policy, id: string): nat
    decreases |ops|
  {
    if ops == [] then 0
    else
      var before, last := ops[..|ops| - 1], ops[|ops| - 1];
      CancelledCount(entries, before, p, id)
      + if Publishes(Run(entries, before, p), last, p, id) && last.world.sending.Cancelled? then 1 else 0
  }

  // ----- One record among many ------------------------------------------------------------------

  function Lookup(entries: Entries, id: string): Option<Entry> {
    if id in entries then Some(entries[id]) else None
  }

  /** What an operation does to the record `id`, which is not being created. */
  function Seen(e: Entry, id: string, op: Op, p: Policy): Option<Entry> {
    match op
    case Put(_, _, _, _) => Some(e)
    case Retain(now) => if Outlived(e, now, p) then None else Some(Aged(e, now, p))
    case _ =>
      if op.id != id then Some(e)
      else match op
        case Replay(_, o, w) => Some(ReplayEntry(e, p, o, w).entry)
        case Quarantine(_, reason) => Some(if reason == "" || e.status.Replayed? then e else Quarantining(e, reason))
        case Release(_) => Some(if e.status.Quarantined? then Releasing(e) else e)
        case Archive(_) => Some(if e.status.Replayed? then e else Archiving(e))
        case _ => None
  }

  lemma ActsOnOne(entries: Entries, op: Op, p: Policy, id: string)
    requires op.Put? ==> op.id != id
    ensures Lookup(Apply(entries, op, p), id) == if id in entries then Seen(entries[id], id, op, p) else None
  {
  }

  ghost predicate NeverPut(ops: seq<Op>, id: string) {
    forall op :: op in ops && op.Put? ==> op.id != id
  }

  ghost predicate Newborn(entries: Entries, id: string) {
    id in entries && entries[id].status.Active? && entries[id].replayCount == 0 && entries[id].replayFailures == 0
  }

  lemma SplitLast(ops: seq<Op>)
    requires ops != []
    ensures ops == ops[..|ops| - 1] + [ops[|ops| - 1]]
    ensures forall op :: op in ops <==> op in ops[..|ops| - 1] || op == ops[|ops| - 1]
  {
  }

  // ----- What one operation does --------------------------------------------------------------

  /** A replay that is let through and sends its message: acceptance makes the record replayed; a
      refusal is counted, and quarantines from the configured number of refusals on, while below it
      the status and the reason stay; a cancellation leaves the record as it was. */
  lemma SentOutcome(e: Entry, p: Policy, o: Options, w: World)
    requires !e.status.Replayed? && (e.status.Quarantined? ==> o.includeQuarantined) && (e.status.Archived? ==> o.includeArchived)
    requires e.replayCount < p.maxReplayAttempts && !o.dryRun && (e.hasEnvelope || w.decodes)
    ensures var r := ReplayEntry(e, p, o, w);
      && r.published && r.entry.deadLetteredAt == e.deadLetteredAt && r.entry.hasEnvelope == e.hasEnvelope
      && match w.sending
         case Accepted =>
           && r.answer.Succeeded? && r.entry.status.Replayed? && r.entry.replayCount == e.replayCount + 1
           && r.entry.replayFailures == e.replayFailures && r.entry.reason == e.reason
         case Refused =>
           && r.entry.replayCount == e.replayCount + 1 && r.entry.replayFailures == e.replayFailures + 1
           && (if e.replayFailures + 1 >= p.quarantineAfter || e.status.Quarantined?
               then r.answer.MovedToQuarantine? && r.entry.status.Quarantined? && r.entry.reason.Some?
               else r.answer.Failed? && r.entry.status == e.status && r.entry.reason == e.reason)
         case Cancelled => r.answer.PublishCancelled? && r.entry == e
  {
  }

  /** A replay that sends nothing: the first safeguard that applies says why, and only the limit
      rewrites the record. */
  lemma UnsentOutcome(e: Entry, p: Policy, o: Options, w: World)
    ensures var r := ReplayEntry(e, p, o, w);
      var skipped := e.status.Replayed? || (e.status.Quarantined? && !o.includeQuarantined) || (e.status.Archived? && !o.includeArchived);
      var spent := e.replayCount >= p.maxReplayAttempts;
      && (!r.published <==> skipped || spent || o.dryRun || !(e.hasEnvelope || w.decodes))
      && (skipped ==> r.answer.Skipped? && r.entry == e)
      && (!skipped && spent ==>
            r.answer.MovedToQuarantine? && r.entry.status.Quarantined? && r.entry.reason.Some? && r.entry.replayCount == e.replayCount)
      && (!skipped && !spent && o.dryRun ==> r.answer.DryRun? && r.entry == e)
      && (!skipped && !spent && !o.dryRun && !r.published ==> r.answer.NoEnvelope? && r.entry == e)
  {
  }

  /** What the administrative operations leave of a record. */
  lemma AdministeredOutcome(entries: Entries, p: Policy, id: string, reason: string)
    requires id in entries
    ensures var e, after := entries[id], Apply(entries, Op.Quarantine(id, reason), p);
      id in after && if reason != "" && !e.status.Replayed?
                     then after[id].status.Quarantined? && after[id].reason == Some(reason) && after[id].replayCount == e.replayCount
                     else after[id] == e
    ensures var e, after := entries[id], Apply(entries, Op.Release(id), p);
      id in after && if e.status.Quarantined?
                     then after[id].status.Active? && after[id].reason.None? && after[id].replayCount == e.replayCount
                     else after[id] == e
    ensures var e, after := entries[id], Apply(entries, Op.Archive(id), p);
      id in after && if e.status.Replayed? then after[id] == e
                     else after[id].status.Archived? && after[id].reason == e.reason && after[id].replayCount == e.replayCount
  {
  }

  /** A new record is active and was never replayed. */
  lemma StoredNew(entries: Entries, p: Policy, id: string, at: int, hasEnvelope: bool, capacity: nat)
    ensures var after := Apply(entries, Put(id, at, hasEnvelope, capacity), p);
      if id !in entries && |entries| < capacity
      then Newborn(after, id) && after[id].reason.None? && after[id].deadLetteredAt == at && after[id].hasEnvelope == hasEnvelope
           && after - {id} == entries
      else after == entries
  {
    if id !in entries { assert entries - {id} == entries; }
  }

  /** A retention pass deletes a record exactly from its retention time on, and archives an active or
      quarantined one exactly from its archive time on. */
  lemma RetainedExactly(entries: Entries, now: int, p: Policy, id: string)
    requires id in entries
    ensures var e, after := entries[id], Apply(entries, Op.Retain(now), p);
      && (id in after <==> p.retention.None? || now < e.deadLetteredAt + p.retention.value)
      && (id in after ==>
            if p.archiveAfter.Some? && now >= e.deadLetteredAt + p.archiveAfter.value && (e.status.Active? || e.status.Quarantined?)
            then after[id].status.Archived? && after[id].replayCount == e.replayCount && after[id].deadLetteredAt == e.deadLetteredAt
            else after[id] == e)
  {
  }

  // ----- Publish accounting ----------------------------------------------------------------------

  predicate Accounted(e: Entry, p: Policy, published: nat, cancelled: nat) {
    && e.replayCount == e.replayFailures + (if e.status.Replayed? then 1 else 0)
    && published == e.replayCount + cancelled
    && e.replayCount <= p.maxReplayAttempts
  }

  /** Whether `op` publishes the record `e` stored under `id`. */
  predicate Sends(e: Entry, id: string, op: Op, p: Policy) {
    op.Replay? && op.id == id && ReplayEntry(e, p, op.options, op.world).published
  }

  lemma AccountedStep(e: Entry, id: string, op: Op, p: Policy, published: nat, cancelled: nat)
    requires Accounted(e, p, published, cancelled)
    ensures var sent := Sends(e, id, op, p);
      var published', cancelled' := published + (if sent then 1 else 0), cancelled + (if sent && op.world.sending.Cancelled? then 1 else 0);
      && published' <= p.maxReplayAttempts + cancelled'
      && (Seen(e, id, op, p).Some? ==> Accounted(Seen(e, id, op, p).value, p, published', cancelled'))
  {
  }

  lemma ContainedStep(e: Entry, id: string, op: Op, p: Policy)
    requires Contained(e, p) && ValidPolicy(p) && WithoutOverrides(op, id)
    ensures Seen(e, id, op, p).Some? ==> Contained(Seen(e, id, op, p).value, p)
    ensures Sends(e, id, op, p) ==> e.replayCount < p.quarantineAfter
  {
  }

  /** A record created with zero counters, through any run of replays, quarantines, releases,
      archivings, deletions and retention passes under one policy: its replay count is its
      failures, plus one once it was replayed; every publish of it is either counted or was
      cancelled; so it is published at most `maxReplayAttempts` times beyond the cancelled ones,
      also when it has been deleted since. */
  lemma {:induction false} PublishesAccounted(entries: Entries, ops: seq<Op>, p: Policy, id: string)
    requires Newborn(entries, id) && NeverPut(ops, id)
    ensures var after, published, cancelled := Run(entries, ops, p), PublishCount(entries, ops, p, id), CancelledCount(entries, ops, p, id);
      && (id in after ==> Accounted(after[id], p, published, cancelled))
      && published <= p.maxReplayAttempts + cancelled
    decreases |ops|
  {
    if ops != [] {
      SplitLast(ops);
      var before, last := ops[..|ops| - 1], ops[|ops| - 1];
      PublishesAccounted(entries, before, p, id);
      var now := Run(entries, before, p);
      ActsOnOne(now, last, p, id);
      if id in now {
        AccountedStep(now[id], id, last, p, PublishCount(entries, before, p, id), CancelledCount(entries, before, p, id));
      }
    }
  }

  predicate WithoutOverrides(op: Op, id: string) {
    && !(op.Release? && op.id == id)
    && (op.Replay? && op.id == id ==> !op.options.includeQuarantined && !op.options.includeArchived)
  }

  predicate Contained(e: Entry, p: Policy) {
    && e.replayCount == e.replayFailures + (if e.status.Replayed? then 1 else 0)
    && e.replayCount <= p.quarantineAfter
    && (e.status.Active? ==> e.replayFailures < p.quarantineAfter)
  }

  /** As long as nobody releases the record or overrides its guards, repeated failure also caps
      the publishes: at most `quarantineAfter`, beyond the cancelled ones. */
  lemma {:induction false} QuarantineCapsPublishes(entries: Entries, ops: seq<Op>, p: Policy, id: string)
    requires Newborn(entries, id) && NeverPut(ops, id) && ValidPolicy(p)
    requires forall op :: op in ops ==> WithoutOverrides(op, id)
    ensures PublishCount(entries, ops, p, id) <= p.quarantineAfter + CancelledCount(entries, ops, p, id)
    ensures id in Run(entries, ops, p) ==> Contained(Run(entries, ops, p)[id], p)
    decreases |ops|
  {
    if ops != [] {
      SplitLast(ops);
      var before, last := ops[..|ops| - 1], ops[|ops| - 1];
      QuarantineCapsPublishes(entries, before, p, id);
      PublishesAccounted(entries, before, p, id);
      var now := Run(entries, before, p);
      ActsOnOne(now, last, p, id);
      if id in now {
        ContainedStep(now[id], id, last, p);
      }
    }
  }

  // ----- How long a quarantine holds ----------------------------------------------------------

  /** The record is out of reach of replays that respect its guards. */
  predicate Withheld(e: Entry) {
    e.status.Quarantined? || e.status.Archived?
  }

  lemma WithheldStep(e: Entry, id: string, op: Op, p: Policy)
    requires Withheld(e) && WithoutOverrides(op, id)
    ensures !Sends(e, id, op, p)
    ensures Seen(e, id, op, p).Some? ==> Withheld(Seen(e, id, op, p).value)
  {
  }

  /** A quarantine holds: as long as nobody releases the record or includes its status in a
      replay, it is never published, whatever is archived, quarantined again or replayed. */
  lemma {:induction false} QuarantineHolds(entries: Entries, ops: seq<Op>, p: Policy, id: string)
    requires id in entries && Withheld(entries[id]) && NeverPut(ops, id)
    requires forall op :: op in ops ==> WithoutOverrides(op, id)
    ensures PublishCount(entries, ops, p, id) == 0
    ensures id in Run(entries, ops, p) ==> Withheld(Run(entries, ops, p)[id])
    decreases |ops|
  {
    if ops != [] {
      SplitLast(ops);
      var before, last := ops[..|ops| - 1], ops[|ops| - 1];
      QuarantineHolds(entries, before, p, id);
      var now := Run(entries, before, p);
      ActsOnOne(now, last, p, id);
      if id in now {
        WithheldStep(now[id], id, last, p);
      }
    }
  }

  /** Conversely every publish of a record that was quarantined or archived is owed to a release,
      or to a replay that includes one of these statuses. */
  lemma PublishNeedsOverride(entries: Entries, ops: seq<Op>, p: Policy, id: string)
    requires id in entries && Withheld(entries[id]) && NeverPut(ops, id) && PublishCount(entries, ops, p, id) > 0
    ensures exists op :: op in ops && !WithoutOverrides(op, id)
  {
    if forall op :: op in ops ==> WithoutOverrides(op, id) {
      QuarantineHolds(entries, ops, p, id);
    }
  }

  /** What the operators may do to one record. */
  datatype Rights = Rights(release: bool, includeQuarantined: bool, includeArchived: bool, archive: bool, retain: bool)

  predicate Allows(r: Rights, op: Op, id: string) {
    && (op.Release? && op.id == id ==> r.release)
    && (op.Archive? && op.id == id ==> r.archive)
    && (op.Retain? ==> r.retain)
    && (op.Replay? && op.id == id ==>
          (op.options.includeQuarantined ==> r.includeQuarantined) && (op.options.includeArchived ==> r.includeArchived))
  }

  /** A retention pass can archive a record before another deletes it. */
  predicate RetentionArchives(p: Policy) {
    p.archiveAfter.Some? && (p.retention.Some? ==> p.archiveAfter.value < p.retention.value)
  }

  predicate CanLift(r: Rights, p: Policy) {
    r.release || r.includeQuarantined || (r.includeArchived && (r.archive || (r.retain && RetentionArchives(p))))
  }

  /** The status that the rights keep out of reach. */
  predicate Kept(e: Entry, r: Rights) {
    e.status.Quarantined? || (e.status.Archived? && !r.includeArchived)
  }

  lemma KeptStep(e: Entry, id: string, op: Op, p: Policy, r: Rights)
    requires ValidPolicy(p) && Kept(e, r) && !CanLift(r, p) && Allows(r, op, id)
    ensures !Sends(e, id, op, p)
    ensures Seen(e, id, op, p).Some? ==> Kept(Seen(e, id, op, p).value, r)
  {
  }

  lemma {:induction false} StaysKept(entries: Entries, ops: seq<Op>, p: Policy, id: string, r: Rights)
    requires ValidPolicy(p) && id in entries && Kept(entries[id], r) && !CanLift(r, p) && NeverPut(ops, id)
    requires forall op :: op in ops ==> Allows(r, op, id)
    ensures PublishCount(entries, ops, p, id) == 0
    ensures id in Run(entries, ops, p) ==> Kept(Run(entries, ops, p)[id], r)
    decreases |ops|
  {
    if ops != [] {
      SplitLast(ops);
      var before, last := ops[..|ops| - 1], ops[|ops| - 1];
      StaysKept(entries, before, p, id, r);
      var now := Run(entries, before, p);
      ActsOnOne(now, last, p, id);
      if id in now {
        KeptStep(now[id], id, last, p, r);
      }
    }
  }

  ghost predicate LiftedBy(entries: Entries, ops: seq<Op>, p: Policy, id: string, r: Rights) {
    NeverPut(ops, id) && (forall op :: op in ops ==> Allows(r, op, id)) && PublishCount(entries, ops, p, id) > 0
  }

  function Replaying(id: string, includeQuarantined: bool, includeArchived: bool): Op {
    Op.Replay(id, Options(false, includeQuarantined, includeArchived), World(false, Accepted))
  }

  lemma OneReplay(entries: Entries, p: Policy, id: string, replay: Op)
    ensures PublishCount(entries, [replay], p, id) == if Publishes(entries, replay, p, id) then 1 else 0
  {
    assert [replay][..0] == [];
    assert Run(entries, [], p) == entries;
  }

  lemma ReplayAfter(entries: Entries, first: Op, p: Policy, id: string, replay: Op)
    requires !first.Replay? && id in Apply(entries, first, p)
    ensures PublishCount(entries, [first, replay], p, id)
         == if Publishes(Apply(entries, first, p), replay, p, id) then 1 else 0
  {
    assert [first, replay][..1] == [first] && [first][..0] == [];
    assert Run(entries, [], p) == entries && Run(entries, [first], p) == Apply(entries, first, p);
    assert PublishCount(entries, [first], p, id) == 0;
  }

  /** One or two operations publish a quarantined record once the rights can lift its quarantine. */
  lemma Lift(entries: Entries, p: Policy, id: string, r: Rights) returns (ops: seq<Op>)
    requires ValidPolicy(p) && id in entries && entries[id].status.Quarantined? && entries[id].hasEnvelope
    requires entries[id].replayCount < p.maxReplayAttempts && CanLift(r, p)
    ensures LiftedBy(entries, ops, p, id, r)
  {
    if r.includeQuarantined {
      ops := [Replaying(id, true, false)];
      OneReplay(entries, p, id, Replaying(id, true, false));
    } else {
      var first := if r.release then Op.Release(id)
                   else if r.archive then Op.Archive(id)
                   else Op.Retain(entries[id].deadLetteredAt + p.archiveAfter.value);
      var replay := Replaying(id, false, !r.release);
      ActsOnOne(entries, first, p, id);
      ReplayAfter(entries, first, p, id, replay);
      ops := [first, replay];
    }
  }

  /** Exactly when a quarantine can be lifted: by operators who may release, or may include
      quarantined records, or may include archived ones while the record can still be archived,
      by hand or by a retention pass that comes before the deleting one.  So archiving lifts a
      quarantine without a release and without including quarantined records. */
  lemma QuarantineLiftedExactly(entries: Entries, p: Policy, id: string, r: Rights)
    requires ValidPolicy(p) && id in entries && entries[id].status.Quarantined? && entries[id].hasEnvelope
    requires entries[id].replayCount < p.maxReplayAttempts
    ensures (exists ops :: LiftedBy(entries, ops, p, id, r)) <==> CanLift(r, p)
  {
    if CanLift(r, p) {
      var ops := Lift(entries, p, id, r);
    } else {
      forall ops | NeverPut(ops, id) && (forall op :: op in ops ==> Allows(r, op, id))
        ensures !LiftedBy(entries, ops, p, id, r)
      {
        StaysKept(entries, ops, p, id, r);
      }
    }
  }

  /** Archiving lifts a quarantine: any quarantined record below its replay limit is published
      again, without a release and without including quarantined records, once it has been
      archived and archived records are included. */
  lemma ArchivingLiftsQuarantine(entries: Entries, id: string, p: Policy)
    requires id in entries && entries[id].status.Quarantined? && entries[id].hasEnvelope
    requires entries[id].replayCount < p.maxReplayAttempts
    ensures var replay := Replaying(id, false, true);
      && PublishCount(entries, [Op.Archive(id), replay], p, id) == 1
      && Lookup(Run(entries, [Op.Archive(id), replay], p), id) == Some(Accepting(Archiving(entries[id])))
  {
    var replay := Replaying(id, false, true);
    ActsOnOne(entries, Op.Archive(id), p, id);
    ReplayAfter(entries, Op.Archive(id), p, id, replay);
    ActsOnOne(Apply(entries, Op.Archive(id), p), replay, p, id);
    RunOneMore(entries, [], Op.Archive(id), p);
    assert [] + [Op.Archive(id)] == [Op.Archive(id)];
    RunOneMore(entries, [Op.Archive(id)], replay, p);
    assert [Op.Archive(id)] + [replay] == [Op.Archive(id), replay];
  }

  /** A quarantined record always says why. */
  ghost predicate Explained(entries: Entries) {
    forall id :: id in entries && entries[id].status.Quarantined? ==> entries[id].reason.Some? && entries[id].reason.value != ""
  }

  lemma {:induction false} QuarantineExplained(entries: Entries, ops: seq<Op>, p: Policy)
    requires Explained(entries)
    ensures Explained(Run(entries, ops, p))
    decreases |ops|
  {
    if ops != [] {
      QuarantineExplained(entries, ops[..|ops| - 1], p);
    }
  }

  /** A replayed record stays replayed until it is deleted, and is never published again. */
  lemma {:induction false} ReplayedIsFinal(entries: Entries, ops: seq<Op>, p: Policy, id: string)
    requires id in entries && entries[id].status.Replayed? && NeverPut(ops, id)
    ensures id in Run(entries, ops, p) ==> Run(entries, ops, p)[id] == entries[id]
    ensures PublishCount(entries, ops, p, id) == 0
    decreases |ops|
  {
    if ops != [] {
      SplitLast(ops);
      var before, last := ops[..|ops| - 1], ops[|ops| - 1];
      ReplayedIsFinal(entries, before, p, id);
      ActsOnOne(Run(entries, before, p), last, p, id);
    }
  }

  /** A dry run publishes nothing, but it is not read-only: it rewrites the record exactly when its
      status is not guarded and the replay limit has been reached, and it changes the status
      exactly when the record is moreover not quarantined yet. */
  lemma DryRunChanges(e: Entry, p: Policy, o: Options, w: World)
    requires o.dryRun
    ensures !ReplayEntry(e, p, o, w).published
    ensures ReplayEntry(e, p, o, w).entry != e <==> !Guarded(e, o) && e.replayCount >= p.maxReplayAttempts
    ensures ReplayEntry(e, p, o, w).entry.status != e.status
       <==> !Guarded(e, o) && e.replayCount >= p.maxReplayAttempts && !e.status.Quarantined?
  {
  }

  /** A batch sends each selected record to the publisher at most once, and so sends no more
      messages than the batch limit. */
  lemma {:induction false} BatchPublishesEachOnce(entries: Entries, ids: seq<string>, o: Options,
                                                   worlds: string -> World, p: Policy, id: string)
    requires forall i, j :: 0 <= i < j < |ids| ==> ids[i] != ids[j]
    ensures PublishCount(entries, Replays(ids, o, worlds), p, id) <= (if id in ids then 1 else 0)
    decreases |ids|
  {
    if ids != [] {
      var front := ids[..|ids| - 1];
      assert Replays(ids, o, worlds)[..|ids| - 1] == Replays(front, o, worlds);
      BatchPublishesEachOnce(entries, front, o, worlds, p, id);
      assert ids == front + [ids[|ids| - 1]];
      assert id in front ==> ids[|ids| - 1] != id;
    }
  }

  // ----- Retention ---------------------------------------------------------------------------------

  function Passes(entries: Entries, times: seq<int>, p: Policy): Entries
    decreases |times|
  {
    if times == [] then entries else Retained(Passes(entries, times[..|times| - 1], p), times[|times| - 1], p)
  }

  lemma RetainTwice(entries: Entries, earlier: int, later: int, p: Policy)
    requires earlier <= later
    ensures Retained(Retained(entries, earlier, p), later, p) == Retained(entries, later, p)
  {
  }

  /** How often retention runs does not matter: any schedule of passes whose times do not
      decrease leaves the same records in the same statuses as its last pass alone. */
  lemma {:induction false} OnlyTheLastPassMatters(entries: Entries, times: seq<int>, p: Policy)
    requires times != [] && forall i, j :: 0 <= i < j < |times| ==> times[i] <= times[j]
    ensures Passes(entries, times, p) == Retained(entries, times[|times| - 1], p)
    decreases |times|
  {
    var front := times[..|times| - 1];
    if front != [] {
      OnlyTheLastPassMatters(entries, front, p);
      RetainTwice(entries, front[|front| - 1], times[|times| - 1], p);
    }
  }
}
