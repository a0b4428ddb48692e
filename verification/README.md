# A verified model of the broker's reliability layer

The broker framework puts transports behind a set of small, lock-protected state machines: a
connection manager, a transactional outbox, a circuit breaker, a retry loop with a budget, a memory
engine with acknowledgement and settlement, dead-letter administration, an idempotency store, a
lifecycle manager, event upcasting, two registries, the wire format and trace propagation.  This
project models them in Dafny 4.11 and proves what they keep over whole runs.

`dafny verify dfyconfig.toml` checks everything.

## How it is laid out

| file | component |
|---|---|
| `RetryBudget.dfy`, `RetryLoop.dfy`, `SharedRetries.dfy` | sliding-window retry budget; retry loop; many runs on one budget |
| `CircuitBreaker.dfy`, `CircuitRuns.dfy` | circuit breaker; its runs, with late completions |
| `Outbox.dfy`, `OutboxRuns.dfy`, `OutboxTiming.dfy` | outbox store and dispatcher; any number of dispatchers; when messages are handed out |
| `Connection.dfy`, `ConnectionRuns.dfy` | connection manager; every interleaving of its callers |
| `MemoryConsumer.dfy`, `MemoryRuns.dfy` | one memory consumer; publishers, workers and close interleaved |
| `Settlement.dfy` | delivery states, in-process acknowledgement, consuming one message |
| `Idempotency.dfy`, `DeadLetters.dfy` | idempotency store; dead-letter store, replay, retention |
| `Upcasting.dfy`, `Lifecycle.dfy`, `Serializers.dfy` | event upcasters; component lifecycle; serializer registry |
| `JsonValues.dfy`, `SharedValues.dfy`, `Envelopes.dfy`, `Wire.dfy` | payload normalisation; cyclic and shared values; envelopes; frames |
| `Tracing.dfy`, `Utf8.dfy`, `Text.dfy`, `Wrappers.dfy` | trace headers and baggage; UTF-8; shared string functions; `Option` |

Objects whose methods update fields are classes with those fields.  Each method is proved against a
function of the old state, and the results about runs are lemmas about those functions.  What the
functions decide (which failure is retried, when a message is due, from which states a startup
connects) is stated a second time by lemmas named `...Exactly` or `...Outcome`, in terms of the fields
and of the events alone.  Where
several callers interleave at their awaits, one step takes one caller from an await to the next, a
run is a sequence of such steps, and the lemmas hold for every run: any scheduling, any outcome of
the callbacks, cancellation at any of these awaits.  Awaits that the steps merge, and those that are
not there, are named under "Left out".

Times are real numbers, or whole microseconds where the code compares dates.  The clock, the random
identifiers, the outcome of a publish or of a handler, and the byte formats of serializers are
parameters.  A constructor's `requires` is the validation on which the original raises, so that no
object exists; errors of other calls are answers in a datatype.

## Where the code does less than one might expect

Each of these is a lemma, with the exact condition or a run that shows it.

- `half_open_inflight` is not the number of live probes: a late completion of a call admitted while
  closed frees a slot it never held (`CircuitRuns.InflightVersusLiveProbes`,
  `CircuitRuns.LateCompletionAdmitsExtraProbe`).
- A call that is cancelled while it emits the half-open turn keeps its slot.  With one half-open call,
  the default, the circuit then refuses every call until a trip, a reset or a late completion
  (`CircuitRuns.LossJams`, `CircuitRuns.JammedUntil`, `CircuitRuns.JamEnded`).
- The windowed failure rate may exceed its limit in a closed circuit
  (`CircuitRuns.RateMayExceedWhileClosed`).
- The retry budget needs a clock that does not run back (`RetryBudgets.BackwardClockOverfills`).
- A drain called on its own keeps leases out exactly as long as no connect attempt completes
  (`ConnectionRuns.DrainHoldsExactly`).  One that was in flight may complete
  (`ConnectionRuns.DrainOvertakenByConnect`), and a single new `run` starts one: its refusal is itself
  taken for a connection error, which fails the connection and reconnects
  (`ConnectionRuns.RunReopensAnyDrain`).  A lease that waited for shutdown reopens the closed manager;
  with heartbeats and the manager's own supervisor, the default, it is itself refused, because the
  supervisor has stopped, but the connection stays up and serves the next caller
  (`ConnectionRuns.WaitingLeaseReopensClosed`).
- Attempts of an outbox message exceed `max_attempts` by its lease expiries and cancellations
  (`OutboxRuns.AttemptsAccounted`).
- Errors that are neither serialization nor validation errors leave a message unsettled and not
  dead-lettered (`Settlement.SettledExactly`, `Settlement.EscapesExactly`): an envelope type that is no
  event name, a timestamp outside the range of UTC dates, a payload on which the JSON parser gives up
  (`Settlement.BadNameUnsettled`, `Settlement.OutOfRangeTimeUnsettled`, `Settlement.ParserFailureUnsettled`).
- The transition table allows a nacked delivery to be requeued, but the adapter always refuses
  (`Settlement.SuccessfulOperations`).
- Releasing an idempotency key answers true for an expired claim that nothing has deleted yet
  (`Idempotency.AnswersLikeLiveMap`).
- A quarantine is lifted not only by a release or by including quarantined records, but also by
  archiving, by hand or by retention, and then including archived ones
  (`DeadLetters.QuarantineLiftedExactly`, `DeadLetters.ArchivingLiftsQuarantine`); otherwise it holds
  (`DeadLetters.QuarantineHolds`).  A dry run may rewrite a record (`DeadLetters.DryRunChanges`).
- An empty trace state comes back absent (`Tracing.ExtractsWhatWasInjected`).
- An envelope whose payload is nested 64 deep is valid, but the JSON and MessagePack serializers write
  no frame for it; a serializer that does not normalise does (`Wire.EncodesExactly`,
  `Wire.DeepestPayload`).  Pickle frames are written but never read (`Wire.UntrustedNeverRead`).

## Model

| member | source | states |
|---|---|---|
| `RetryBudgets.RetryBudget.TryConsume` | src/broka/reliability/retry.py:147-158 | the deque becomes what a budget step leaves: expired uses dropped from the front, and the new use appended exactly when the request is granted |
| `RetryBudgets.RetryBudget.Remaining` | src/broka/reliability/retry.py:160-168 | the number of requests that would be granted at this moment, with the same trimming of the deque |
| `RetryBudgets.RetryBudget.Reset` | src/broka/reliability/retry.py:170-174 | all tokens are returned |
| `RetryBudgets.EveryWindowWithinBudget` | src/broka/reliability/retry.py:124-158 | over any run with a non-decreasing clock every interval (x - window, x] of the whole history holds at most `max_retries` grants, although the deque forgets older ones |
| `RetryBudgets.RefusedIffWindowFull` | src/broka/reliability/retry.py:147-168 | a request is refused exactly when the last window of the full history already holds `max_retries` grants |
| `RetryBudgets.ReadingCountsWindow` | src/broka/reliability/retry.py:147-168 | what a reading of the budget counts as used are the grants in the last window of the full history |
| `RetryBudgets.BackwardClockOverfills` | src/broka/reliability/retry.py:147-158 | the clock condition is needed: a read with a later clock followed by a request with an earlier one puts two grants into a window with a budget of one |
| `RetryLoop.Run` | src/broka/reliability/retry.py:223-316 | the loop and its log of effects (invocations, tokens, begun sleeps) are the recursive reading of the outcome sequence, with an error or a cancellation in the notification or in the sleep among the endings; the statement after the loop is unreachable |
| `RetryLoop.RunShape` | src/broka/reliability/retry.py:223-316 | a run stops at the first attempt that does not go again, invokes the operation once per attempt, sleeps exactly the delays between consecutive attempts and after the last one at most the sleep in which it is cut short, and takes one token per further attempt plus one that is wasted when the next delay would pass the time limit or the pause is cut short |
| `RetryLoop.LastAttempt` | src/broka/reliability/retry.py:245-312 | the first attempt that does not go again: every earlier one does, and it lies within the limit |
| `RetryLoop.ReturnsFirstSuccess` | src/broka/reliability/retry.py:239-262 | a value is returned exactly when some attempt within the limit yields it and every earlier attempt went round again |
| `RetryLoop.NotRetried` | src/broka/reliability/retry.py:245-262 | an attempt that ends in an error classified as terminal, in a cancellation that is to propagate or is classified so, or in anything the loop does not catch is the last one, and its failure leaves unchanged; a value is returned |
| `RetryLoop.RetriedExactly` | src/broka/reliability/retry.py:245-312 | an attempt that fails with an error classified as transient, or with such a cancellation where cancellations are classified, is followed by another exactly when attempts, time, budget and delay allow it and the pause is unbroken; otherwise the first of these that fails is the reason of the end |
| `RetryLoop.RunWithinLimits` | src/broka/reliability/retry.py:223-316 | at most `max_attempts` invocations, one fewer sleep than invocations or as many when the run is cut short in a sleep, and sleeps that ask for at most `max_elapsed_time` in total when the clock covers each finished sleep |
| `RetryLoop.SleptBeforeReading` | src/broka/reliability/retry.py:262-312 | the clock reading of an attempt lies at least the sum of all earlier sleeps after the start |
| `SharedRetries.TokensSpent` | src/broka/reliability/retry.py:124-158 | over any number of retry runs on one budget, each granted token in any interval is one scheduled retry or one token wasted on the time limit |
| `SharedRetries.AttemptOutcome` | src/broka/reliability/retry.py:223-316 | what one attempt of one run comes to: whether it asks the shared budget, what becomes of the token, and whether the run goes on |
| `SharedRetries.RetriesWithinBudget` | src/broka/reliability/retry.py:223-316 | however many runs share a budget, in any window all of them together schedule at most max_retries retries (each dated by its token, before it is announced and slept for), less the tokens wasted in it |
| `CircuitBreakers.CircuitBreaker.ShouldOpen` | src/broka/reliability/circuit_breaker.py:262-269 | the opening test: the streak at the threshold, or at least minimum_calls outcomes in the window whose failures, counted as a set, are at least the limiting share of them |
| `CircuitBreakers.CircuitBreaker.constructor` | src/broka/reliability/circuit_breaker.py:84-104 | a breaker begins closed with nothing remembered |
| `CircuitBreakers.CircuitBreaker.OpenLocked` | src/broka/reliability/circuit_breaker.py:271-275 | opening notes the time and forgets the probes |
| `CircuitBreakers.CircuitBreaker.CloseLocked` | src/broka/reliability/circuit_breaker.py:277-283 | closing forgets window, streak, opening time and probes |
| `CircuitBreakers.CircuitBreaker.Before` | src/broka/reliability/circuit_breaker.py:136-160 | admission: an open circuit past its recovery time turns half-open, an earlier one refuses, a half-open one admits while its in-flight counter is below the maximum; a refusal keeps everything else |
| `CircuitBreakers.CircuitBreaker.Success` | src/broka/reliability/circuit_breaker.py:162-178 | a success resets the streak when closed, and half-open frees a slot, counts, and closes at the success threshold |
| `CircuitBreakers.CircuitBreaker.Failure` | src/broka/reliability/circuit_breaker.py:180-201 | a failure reopens a half-open circuit, and a closed one exactly when the opening test holds after recording it |
| `CircuitBreakers.CircuitBreaker.Release` | src/broka/reliability/circuit_breaker.py:252-255 | a cancelled call frees its slot and records no outcome |
| `CircuitBreakers.CircuitBreaker.Trip` | src/broka/reliability/circuit_breaker.py:215-225 | forced opening starts a new recovery period |
| `CircuitBreakers.CircuitBreaker.Reset` | src/broka/reliability/circuit_breaker.py:203-213 | forced closing forgets window, streak and probes |
| `CircuitRuns.ClosedRemembersOutcomes` | src/broka/reliability/circuit_breaker.py:162-201 | in every reachable closed state the window is the last `window_size` outcomes since the last close, the streak is the trailing failure run since then and below the threshold, and the opening time is absent exactly when closed |
| `CircuitRuns.OpensExactlyOnPolicy` | src/broka/reliability/circuit_breaker.py:180-201 | a recorded outcome opens a closed circuit exactly when it is a failure and, of the outcomes since the last close, the last failure_threshold are failures, or the last window_size are at least minimum_calls and contain at least the limiting share of failures |
| `CircuitRuns.RateMayExceedWhileClosed` | src/broka/reliability/circuit_breaker.py:162-201 | a run that leaves the circuit closed with a window that reaches the rate limit, since the rate is looked at on failures only |
| `CircuitRuns.NoAdmissionBeforeRecovery` | src/broka/reliability/circuit_breaker.py:136-160 | with a non-decreasing clock a call admitted within `recovery_timeout` of an opening implies a reset in between |
| `CircuitRuns.EpisodeAdmissionsBounded` | src/broka/reliability/circuit_breaker.py:136-201 | one half-open episode admits at most half_open_max_calls + success_threshold - 1 + cancellations calls, whatever completes late |
| `CircuitRuns.EpisodeBoundReached` | src/broka/reliability/circuit_breaker.py:136-201 | the bound is tight: for every configuration and number of cancellations some run reaches it without any late completion |
| `CircuitRuns.InflightVersusLiveProbes` | src/broka/reliability/circuit_breaker.py:112-160 | live probes are exactly the in-flight counter, plus the late completions that freed a slot, minus the probes that ended at counter zero, minus the calls lost while emitting the half-open turn; without late completions they are the counter less the lost calls |
| `CircuitRuns.OneSlotLost` | src/broka/reliability/circuit_breaker.py:112-160 | an episode loses at most one call, the one that began it, and with it one of its slots: without late completions at most half_open_max_calls less the lost call are live |
| `CircuitRuns.LossJams` | src/broka/reliability/circuit_breaker.py:112-160 | from every state of every run whose open circuit has recovered, with one half-open call allowed, the cancellation of the next call while it emits its turn leaves the circuit half-open with its only slot taken and no probe |
| `CircuitRuns.JammedUntil` | src/broka/reliability/circuit_breaker.py:136-160 | such a circuit admits no call, however much time passes, until a trip, a reset or a late completion |
| `CircuitRuns.JamEnded` | src/broka/reliability/circuit_breaker.py:162-225 | each of these does end it: the next call is admitted exactly after a reset, a late success or a late cancellation, or once the recovery time has passed after a trip or a late failure |
| `CircuitRuns.LateCompletionAdmitsExtraProbe` | src/broka/reliability/circuit_breaker.py:162-178 | a run in which a call admitted while closed completes half-open and two probes are live although one is the maximum |
| `Outbox.MemoryOutboxStore.Add` | src/broka/reliability/outbox.py:103-109 | a message is stored exactly when its id is new and there is room; otherwise nothing changes |
| `Outbox.MemoryOutboxStore.Lease` | src/broka/reliability/outbox.py:115-164 | expired leases are swept, then exactly the first `limit` messages of the sorted due list are leased under the next token, and their leased copies are returned in that order |
| `Outbox.MemoryOutboxStore.Candidates` | src/broka/reliability/outbox.py:144-152 | the due messages, all of them, in strictly increasing (available_at, created_at, id) order |
| `Outbox.MemoryOutboxStore.SweepExpired` | src/broka/reliability/outbox.py:131-143 | exactly the expired leases become failed and lose their token |
| `Outbox.MemoryOutboxStore.LeaseBatch` | src/broka/reliability/outbox.py:153-164 | each chosen message is leased under the one new token, with one more attempt, and nothing else changes |
| `Outbox.SortedKeysUnique` | src/broka/reliability/outbox.py:144-152 | there is only one such list, so the first due messages are well defined |
| `Outbox.MemoryOutboxStore.MarkPublished` | src/broka/reliability/outbox.py:166-176 | only the current token publishes a message; any other call leaves the store as it was |
| `Outbox.MemoryOutboxStore.MarkFailed` | src/broka/reliability/outbox.py:178-198 | only the current token fails a message: terminally, or back to due at the retry time |
| `Outbox.MemoryOutboxStore.PurgePublished` | src/broka/reliability/outbox.py:215-230 | exactly the messages published before the time are removed, and counted |
| `OutboxRuns.SettleOne` | src/broka/reliability/outbox.py:279-303 | one message of a batch is settled by its publish outcome under its own token; the batch goes on unless the token was lost or the dispatcher cancelled |
| `OutboxRuns.DispatchOnce` | src/broka/reliability/outbox.py:272-303 | a dispatch leases the first due messages and settles them in order until it is cut short |
| `OutboxRuns.EachSettledByItsOutcome` | src/broka/reliability/outbox.py:272-303 | in an undisturbed dispatch each message ends as its own outcome says, field by field (published; dead-lettered at its last attempt; failed until the delay is over), and a failing one does not touch the others |
| `OutboxRuns.CutShort` | src/broka/reliability/outbox.py:272-303 | a dispatch that is cancelled at one message puts that one back at once and leaves the rest of its batch leased; one that has lost a lease leaves that message and the rest as they are |
| `OutboxRuns.HandsOutFirstDue` | src/broka/reliability/outbox.py:115-164 | from any state, what is handed out was due and in order, a due message left behind comes after all of it, and none is left behind below the limit |
| `OutboxTiming.LeasedExactly` | src/broka/reliability/outbox.py:115-164 | what a lease makes of each message, field by field: handed out exactly when its time has come, it waits or its lease has run out, and fewer than limit such messages precede it; put back when its lease has run out; otherwise untouched |
| `OutboxTiming.SettledByOutcome` | src/broka/reliability/outbox.py:279-303 | what settling under the current token makes of the message, field by field, that every other message is untouched, and whether the dispatcher goes on with its batch |
| `OutboxTiming.RetryWaits` | src/broka/reliability/outbox.py:178-198 | over any run, a message failed retryably at some time with a delay is not handed out again before that time plus the delay |
| `OutboxTiming.RetryComesDue` | src/broka/reliability/outbox.py:115-198 | from then on, while nobody has taken it, a lease hands it out exactly unless limit available messages precede it |
| `OutboxTiming.PurgedExactly` | src/broka/reliability/outbox.py:215-230 | a published message stays unchanged until a purge of what was published before a later time, which takes it |
| `OutboxRuns.OneUsableToken` | src/broka/reliability/outbox.py:232-241 | over any run of any number of dispatchers, at most one held token can still settle a given message |
| `OutboxRuns.LeasePeriodsDisjoint` | src/broka/reliability/outbox.py:115-164 | lease periods of one message never overlap, and a leased message is in its latest, unfinished one |
| `OutboxRuns.StaleTokenChangesNothing` | src/broka/reliability/outbox.py:232-241 | settling under a superseded token changes no message and no account |
| `OutboxRuns.AttemptsAccounted` | src/broka/reliability/outbox.py:131-198 | attempts are publications + terminal failures + retryable failures + cancellations + lease expiries + (1 while leased), so at most max_attempts + expiries + cancellations; at most one settlement is final |
| `OutboxRuns.SettledIsFinal` | src/broka/reliability/outbox.py:166-230 | a published or dead-lettered message stays unchanged until a purge takes it |
| `OutboxRuns.DeadLetteredForever` | src/broka/reliability/outbox.py:215-230 | no purge takes a dead-lettered message |
| `OutboxRuns.NothingUnpublishedIsLost` | src/broka/reliability/outbox.py:215-230 | a stored message that is gone had been published and then purged |
| `Connection.ConnectionManager.EnterStartup` | src/broka/connection.py:180-195 | the verdict of startup and the state it enters, which only changes when it proceeds |
| `Connection.ConnectionManager.EnterReconnect` | src/broka/connection.py:204-228 | a reconnect proceeds from every state but draining, closing and closed, and enters reconnecting |
| `Connection.ConnectionManager.EnterDrain` | src/broka/connection.py:370-386 | a drain returns at once when disconnected or closed and otherwise enters draining from any state, without the operation lock |
| `Connection.ConnectionManager.TryLease` | src/broka/connection.py:334-351 | a lease is granted exactly when connected, and counted |
| `Connection.ConnectionManager.ReleaseLease` | src/broka/connection.py:347-351 | a returned lease is uncounted and leaves the state alone |
| `Connection.ConnectionManager.NoteError` | src/broka/connection.py:360-367 | an error under `run` fails the connection, and a reconnect follows, exactly when the classifier takes it for a connection error |
| `Connection.ConnectionManager.Startup` | src/broka/connection.py:180-193 | startup as a whole, when nothing comes between: it connects or fails from every state but draining and closing, which it leaves alone |
| `Connection.ConnectionManager.Reconnect` | src/broka/connection.py:204-228 | reconnect as a whole: one more reconnect counted and the outcome of the attempt, or nothing from draining, closing and closed |
| `Connection.ConnectionManager.Shutdown` | src/broka/connection.py:388-417 | shutdown as a whole: closed or failed by the engine disconnect, whatever its own drain did; a closed manager stays as it is |
| `ConnectionRuns.LeasesCounted` | src/broka/connection.py:180-417 | in every interleaving of startup, leases, failing and refused runs, reconnects, heartbeats, drains and shutdowns `active_leases` is the number of lease holders, and at most one caller is inside the operation lock |
| `ConnectionRuns.DrainedDisconnectRunsAlone` | src/broka/connection.py:388-417 | when the drain inside shutdown returned true, the engine disconnect runs with no leases |
| `ConnectionRuns.NoLeaseWhileShuttingDown` | src/broka/connection.py:388-417 | from the start of the drain until shutdown releases the operation lock no lease is granted |
| `ConnectionRuns.DrainKeepsLeasesOutUntilConnect` | src/broka/connection.py:370-386 | a lease granted after a drain began means that a connect attempt completed in between |
| `ConnectionRuns.DrainHoldsExactly` | src/broka/connection.py:370-386 | a drain keeps a new caller out up to some event exactly as long as no connect attempt completes |
| `ConnectionRuns.DrainingLeftExactly` | src/broka/connection.py:353-417 | exactly what moves a draining manager on: the end of an attempt in flight, an error under `run` taken for a connection error (a refusal because of the drain included), a running heartbeat that fails, or a shutdown past its own drain |
| `ConnectionRuns.RunReopensAnyDrain` | src/broka/connection.py:353-368 | from every draining state of every run with the lock free, one call of `run` can reopen the connection by itself, and the next caller is served while the other callers, a waiting drain among them, are where they were |
| `ConnectionRuns.DrainWaiting` | src/broka/connection.py:370-386 | such a state is reached under any setting: a drain waits for a lease and the lock is free |
| `ConnectionRuns.DrainOvertakenByConnect` | src/broka/connection.py:370-386 | from every state inside a connect attempt, a drain and the completion of the attempt leave the drain waiting while new leases are granted |
| `ConnectionRuns.ConnectInFlight` | src/broka/connection.py:180-195 | a state inside a connect attempt, with every other caller free, is reached under any setting |
| `ConnectionRuns.ClosedLeftExactly` | src/broka/connection.py:388-417 | in every run a closed manager leaves that state exactly through a startup that gets the lock or an operation under `run` that fails late with a connection error; no heartbeat runs then |
| `ConnectionRuns.WaitingLeaseReopensClosed` | src/broka/connection.py:285-351 | from every state of every run in which shutdown is about to release the lock and a lease waits to start up, the startup reconnects the manager just closed; the lease itself is granted exactly when no heartbeat is configured or the supervisor is neither owned nor stopped, and the next free caller is served in any case |
| `ConnectionRuns.ClosedWithWaiter` | src/broka/connection.py:388-417 | such a state is reached under any setting |
| `ConnectionRuns.StartupUndisturbed` | src/broka/connection.py:180-257 | from every state with the lock free the steps of one caller amount to the whole startup and give the lock back |
| `ConnectionRuns.ReconnectUndisturbed` | src/broka/connection.py:204-257 | so they do for reconnect, called or made by the heartbeat |
| `ConnectionRuns.ShutdownUndisturbed` | src/broka/connection.py:370-417 | and for shutdown without a running heartbeat, whether its drain has nothing to do, sees all leases back or times out |
| `ConnectionRuns.StartupOutcome` | src/broka/connection.py:180-257 | after an undisturbed startup the manager is connected exactly when it was, or the engine connects and it was neither draining nor closing; failed exactly when it was none of the three and the engine does not connect; otherwise unchanged |
| `ConnectionRuns.HeartbeatStarts` | src/broka/connection.py:285-296 | a startup that has connected leaves a heartbeat running exactly when one ran, or one is configured and the supervisor takes it; a reconnect starts none |
| `ConnectionRuns.ReconnectOutcome` | src/broka/connection.py:204-257 | after an undisturbed reconnect a draining, closing or closed manager is unchanged; any other is connected or failed as the engine says, with one more reconnect counted |
| `ConnectionRuns.DrainOutcome` | src/broka/connection.py:370-386 | a drain leaves a disconnected or closed manager as it is and any other draining, whether its wait succeeds or times out |
| `ConnectionRuns.DrainReturnsExactly` | src/broka/connection.py:370-386 | in every run a waiting drain returns exactly when nobody holds a lease |
| `ConnectionRuns.ShutdownOutcome` | src/broka/connection.py:370-417 | after an undisturbed shutdown the manager is closed exactly when it was or the engine disconnects, and failed exactly otherwise |
| `MemoryConsumer.Consumer.Enqueue` | src/broka/engines/memory.py:77-91 | closed refuses, room accepts, and a full queue waits, refuses or raises as the overflow policy says; only acceptance changes the queue |
| `MemoryConsumer.Consumer.Get` | src/broka/engines/memory.py:118-121 | slots leave the queue first in, first out, and stay unfinished |
| `MemoryConsumer.Consumer.BeginClose` | src/broka/engines/memory.py:99-103 | closing is noted once |
| `MemoryConsumer.Consumer.AfterCallback` | src/broka/engines/memory.py:139-157 | after its callback a worker puts the item back exactly on an unraised requeue or deferral of an open consumer, and otherwise marks it done |
| `MemoryConsumer.Consumer.PutBack` | src/broka/engines/memory.py:146-157 | the item re-enters with one more attempt before its old slot counts as done |
| `MemoryRuns.EveryItemInOnePlace` | src/broka/engines/memory.py:77-157 | in every run each accepted item is in exactly one place, the queue is within its capacity, an attempt is 1 + put-backs, and the unfinished count is queued + held |
| `MemoryRuns.PublishOutcome` | src/broka/engines/memory.py:77-91 | a new item is refused by a closed consumer, queued at the end when there is room, and otherwise makes its publisher wait exactly under the blocking policy |
| `MemoryRuns.CallbackOutcome` | src/broka/engines/memory.py:129-157 | after its callback, and the delay of a deferral, a worker puts its item back exactly on an unraised requeue or deferral of an open consumer; otherwise the item is done with, and why |
| `MemoryRuns.PutBackReturns` | src/broka/engines/memory.py:139-157 | an item put back goes to the end of the queue with one more attempt as soon as there is room |
| `MemoryRuns.OneStopPerWorker` | src/broka/engines/memory.py:99-121 | in every run a released close puts exactly one stop marker for each worker, counted over queued, taken and still to be put, and before there is none |
| `MemoryRuns.JoinReleasedOnlyWhenIdle` | src/broka/engines/memory.py:99-114 | close is released by `join` only when nothing is queued or held, so never while a put-back is pending |
| `MemoryRuns.QuietCloseLosesNothing` | src/broka/engines/memory.py:99-157 | with no publisher blocked at that moment, every accepted item is done with for good, whatever happens later |
| `Settlement.InProcessAcknowledgement.Finish` | src/broka/engines/_inprocess.py:32-39 | the first action is recorded, the same one may be repeated and a different one fails |
| `Settlement.InProcessAcknowledgement.Perform` | src/broka/engines/_inprocess.py:41-62 | the action, delay and extension an operation leaves, or no change when it is refused |
| `Settlement.Delivery.Perform` | src/broka/delivery.py:278-395 | a handler operation moves adapter and state together or changes neither; the answer tells refusals of the mode, the table, the value and the adapter apart |
| `Settlement.Delivery.Transition` | src/broka/delivery.py:397-422 | a move happens exactly when the table allows it; repeating the state is no move |
| `Settlement.AllowedExactly` | src/broka/delivery.py:62-143 | the table of transitions agrees with the table of the states from which each state is reached, and exactly four states are final |
| `Settlement.FirstOperation` | src/broka/delivery.py:278-395 | the state, the recorded action, the delay and the extension that the first operation of a handler leaves, in any mode that acknowledges |
| `Settlement.LaterOperation` | src/broka/delivery.py:278-395 | once an action is recorded, operations change nothing but a nack into a rejection and the extension of a deferred message |
| `Settlement.HandlerSequencesAgree` | src/broka/delivery.py:62-143 | after any handler sequence state and adapter agree (acknowledged, requeued and deferred exactly with their action; nacked, rejected, dead-lettered or expired exactly with reject), and a recorded action is never replaced |
| `Settlement.SuccessfulOperations` | src/broka/delivery.py:278-395 | which operations succeed, exactly; requeueing a nacked delivery is in the table but always fails at the adapter |
| `Settlement.Broker.ConsumeOne` | src/broka/broker.py:844-980 | the in-flight counter is restored on every path, and delivery, adapter, escape and dead-letter count are what consuming the message means |
| `Settlement.Broker.Dispatch` | src/broka/broker.py:855-976 | the paths of one message: escaping, refused, expired, or handled |
| `Settlement.Broker.RunHandler` | src/broka/broker.py:881-915 | the handler leaves what its operations leave, one after the other |
| `Settlement.Broker.Conclude` | src/broka/broker.py:907-961 | the ends of a handler run: nothing more when it settled, dead-letter then reject then mark on failure, automatic acknowledgement otherwise |
| `Settlement.ConsumeAgrees` | src/broka/broker.py:844-980 | once a delivery exists, state and adapter agree when consuming ends, escaped exception or not |
| `Settlement.SettledExactly` | src/broka/broker.py:844-980 | in the automatic modes exactly one action is settled, except exactly when decoding or typing raises something that is neither a serialization nor a validation error, when the dead-letter store fails with nothing else settled, or when the handler is interrupted first |
| `Settlement.ExpiredExactly` | src/broka/broker.py:874-877 | exactly the messages whose expiry is not later than the moment they are consumed end expired, rejected and without a dead letter |
| `Settlement.HandledOutcome` | src/broka/broker.py:878-961 | what every other decoded message comes to, from what the operations of its handler leave and from how the handler ends: state, action, escape and dead letter |
| `Settlement.RefusedOutcome` | src/broka/broker.py:962-977 | a refused payload is dead-lettered and rejected, unless the dead-letter store fails |
| `Settlement.PutBackExactly` | src/broka/broker.py:844-980 | a message is put back by an open memory consumer exactly when its delivery ends requeued or deferred |
| `Settlement.EscapesExactly` | src/broka/broker.py:855-860 | which payloads are messages, and on which consuming escapes: those whose decoding escapes, and decoded envelopes whose type is no valid event name or whose class fails to report its failure |
| `Settlement.BadNameUnsettled` | src/broka/broker.py:962-977 | the frame of any valid envelope whose type is not an event name leaves its message unsettled |
| `Settlement.OutOfRangeTimeUnsettled` | src/broka/broker.py:962-977 | so does a well-shaped bare mapping whose timestamp lies outside the range of UTC dates, whatever its other fields |
| `Settlement.ParserFailureUnsettled` | src/broka/broker.py:962-977 | so does a bare payload on which the JSON parser itself gives up |
| `Settlement.DeadLetteredIsNotPutBack` | src/broka/broker.py:917-976 | a dead-lettered message is rejected at the transport, so never put back; one that is put back was not dead-lettered |
| `Idempotency.MemoryIdempotencyStore.Claim` | src/broka/reliability/idempotency.py:91-118 | the lazily purging claim: live keys refuse, otherwise expired records go and the key is claimed or the store overflows |
| `Idempotency.MemoryIdempotencyStore.Complete` | src/broka/reliability/idempotency.py:120-134 | a live record is completed with a new expiry; anything else is an error |
| `Idempotency.MemoryIdempotencyStore.Release` | src/broka/reliability/idempotency.py:136-142 | a stored claim that is not completed is deleted, expired or not |
| `Idempotency.MemoryIdempotencyStore.Get` | src/broka/reliability/idempotency.py:144-151 | a live record is found; an expired one is deleted and not found |
| `Idempotency.MemoryIdempotencyStore.DeleteExpired` | src/broka/reliability/idempotency.py:161-174 | exactly the expired records are deleted, and counted |
| `Idempotency.RunRefines` | src/broka/reliability/idempotency.py:91-174 | after any run with a non-decreasing clock the live part of the lazy store is the reference map that holds only live keys |
| `Idempotency.AnswersLikeLiveMap` | src/broka/reliability/idempotency.py:91-174 | the next call is answered like the reference, except exactly when it releases an expired claim that is still stored |
| `Idempotency.ClaimAnswers` | src/broka/reliability/idempotency.py:91-118 | a claim is false exactly on a live key, overflows exactly when the key is not live and `max_entries` keys are, and succeeds otherwise |
| `Idempotency.GrantHolds` | src/broka/reliability/idempotency.py:91-118 | a granted claim holds its key until its own expiry, and the store stays within `max_entries` |
| `Idempotency.FreeFromExpiryOn` | src/broka/reliability/idempotency.py:91-118 | a claim is refused while the key has not expired; from its expiry on it succeeds exactly while fewer than max_entries other keys have not expired |
| `Idempotency.ClaimLapses` | src/broka/reliability/idempotency.py:91-142 | a claim nobody settles is refused to others up to its expiry and no longer, whatever else the store is asked |
| `Idempotency.LiveExactly` | src/broka/reliability/idempotency.py:120-151 | exactly a key that has not expired is found and completed, completion sets its expiry, and exactly an uncompleted claim is released |
| `Idempotency.ClaimIsExclusive` | src/broka/reliability/idempotency.py:91-142 | until a granted claim expires or someone settles the key, no second claim of it is granted, whatever else is asked |
| `DeadLetters.MemoryDeadLetterStore.Put` | src/broka/deadletter/store.py:48-54 | a record is stored exactly when its id is new and there is room |
| `DeadLetters.MemoryDeadLetterStore.Update` | src/broka/deadletter/store.py:73-77 | only an existing record is replaced |
| `DeadLetters.MemoryDeadLetterStore.Delete` | src/broka/deadletter/store.py:79-81 | the record is gone, and whether it was there |
| `DeadLetters.DeadLetterManager.Quarantine` | src/broka/deadletter/manager.py:168-185 | any record but a replayed one is quarantined, with a reason |
| `DeadLetters.DeadLetterManager.Release` | src/broka/deadletter/manager.py:187-200 | only a quarantined record becomes active again |
| `DeadLetters.DeadLetterManager.Archive` | src/broka/deadletter/manager.py:202-217 | any record but a replayed one is archived |
| `DeadLetters.DeadLetterManager.Purge` | src/broka/deadletter/manager.py:219-236 | exactly the selected records are deleted and counted, and none or several only with a confirmation |
| `DeadLetters.DeadLetterManager.ApplyRetention` | src/broka/deadletter/manager.py:238-258 | a pass deletes exactly the outlived records, archives exactly the due active and quarantined ones and counts both |
| `DeadLetters.DeadLetterManager.RetainOne` | src/broka/deadletter/manager.py:247-257 | one record of a retention pass is deleted, archived or kept on its own age |
| `DeadLetters.ReplayManager.Replay` | src/broka/deadletter/replay.py:63-180 | the safeguards in their order, and the record and answer each publish outcome leaves |
| `DeadLetters.ReplayManager.ReplaySelected` | src/broka/deadletter/replay.py:182-223 | the selection is replayed once each, in order, until one replay raises; too many or unconfirmed selections change nothing |
| `DeadLetters.DistinctKeepsEachOnce` | src/broka/deadletter/replay.py:194-194 | the deduplicated selection has the same members, each once |
| `DeadLetters.DistinctInOrder` | src/broka/deadletter/replay.py:194-194 | in the order of first mention |
| `DeadLetters.SentOutcome` | src/broka/deadletter/replay.py:117-180 | what a replay that is let through makes of the record, by what the publisher does: replayed; one more failure, quarantined exactly from the configured number on and otherwise with its status and reason kept; unchanged when cancelled |
| `DeadLetters.UnsentOutcome` | src/broka/deadletter/replay.py:81-124 | exactly which replays send nothing, and what each of the safeguards answers and leaves |
| `DeadLetters.AdministeredOutcome` | src/broka/deadletter/manager.py:168-217 | status, reason and count after a quarantine, a release and an archiving |
| `DeadLetters.StoredNew` | src/broka/deadletter/store.py:48-54 | a record that is stored is active and was never replayed |
| `DeadLetters.RetainedExactly` | src/broka/deadletter/manager.py:238-258 | a retention pass deletes a record exactly from its retention time on and archives an active or quarantined one exactly from its archive time on |
| `DeadLetters.PublishesAccounted` | src/broka/deadletter/replay.py:63-180 | for a record created with zero counters, in any run: replay_count is replay_failures, plus one once replayed; publishes are replay_count + cancelled ones; so at most max_replay_attempts beyond the cancelled ones |
| `DeadLetters.QuarantineCapsPublishes` | src/broka/deadletter/replay.py:126-160 | as long as nobody releases the record or overrides its guards, publishes are also at most quarantine_after_replay_failures beyond the cancelled ones |
| `DeadLetters.ReplayedIsFinal` | src/broka/deadletter/replay.py:81-88 | a replayed record is left only by deletion and is never published again |
| `DeadLetters.QuarantineHolds` | src/broka/deadletter/replay.py:89-104 | from a quarantined or archived state, without a release and without a replay that includes these statuses, the record is never published and stays in one of the two |
| `DeadLetters.PublishNeedsOverride` | src/broka/deadletter/replay.py:89-104 | conversely every publish from such a state is owed to one of these operations |
| `DeadLetters.QuarantineLiftedExactly` | src/broka/deadletter/manager.py:168-258 | a quarantine can be lifted exactly by operators who may release, or include quarantined records, or include archived ones while the record can still be archived by hand or by a retention pass before the deleting one |
| `DeadLetters.ArchivingLiftsQuarantine` | src/broka/deadletter/manager.py:202-217 | a quarantined record below its limit is published without a release and without including quarantined records, once archived and replayed with archived ones included |
| `DeadLetters.QuarantineExplained` | src/broka/deadletter/manager.py:168-200 | in every run a quarantined record has a non-empty reason |
| `DeadLetters.DryRunChanges` | src/broka/deadletter/replay.py:105-115 | a dry run never publishes; it rewrites the record exactly when its status is not guarded and the replay limit is reached, and changes the status exactly when it is moreover not quarantined |
| `DeadLetters.BatchPublishesEachOnce` | src/broka/deadletter/replay.py:182-223 | a batch publishes each selected record at most once and no other |
| `DeadLetters.OnlyTheLastPassMatters` | src/broka/deadletter/manager.py:238-258 | any schedule of retention passes at non-decreasing times leaves the same records and statuses as its last pass alone |
| `Upcasting.EventRegistry.RegisterUpcaster` | src/broka/event.py:167-193 | a step is stored exactly when its identity is valid, it goes forward and its place is free or replaced |
| `Upcasting.EventRegistry.Reconstruct` | src/broka/event.py:195-250 | the loop terminates and its result or error is that of the recursive climb, then of the class lookup |
| `Upcasting.AlwaysForward` | src/broka/event.py:167-193 | after any registrations, with or without replace, every stored step goes strictly forward from a valid identity |
| `Upcasting.RegisteredExactly` | src/broka/event.py:167-193 | the registration stores its step exactly when its identity is valid, it goes forward and its place is free or replaced, and keeps every other step |
| `Upcasting.ValidNameExactly` | src/broka/event.py:27-27 | an event name begins with a letter or digit and goes on with these, underscores, dots, colons and dashes |
| `Upcasting.BuiltExactlyOnChain` | src/broka/event.py:218-250 | a payload is produced exactly when the goal is on the successor chain of the wire version and every transformation before it succeeds, and then it is their composition |
| `Upcasting.NoPathExactlyOffChain` | src/broka/event.py:218-230 | a goal on the chain is never answered with "no path", one off it is never reached, and without failing transformations "no path" means off the chain |
| `Upcasting.ClimbFollowsChain` | src/broka/event.py:218-247 | every climb ends at one step of the chain, with the success, missing step or failing transformation found there |
| `Upcasting.ChainClimbs` | src/broka/event.py:181-182 | versions strictly increase along the chain |
| `Upcasting.TwoStages` | src/broka/event.py:195-250 | upcasting v to w and then w to t equals v to t for every w on the chain, errors included |
| `Upcasting.StopOverOnChain` | src/broka/event.py:195-250 | when v to t succeeds, v to w succeeds exactly for w on the chain |
| `Lifecycle.LifecycleManager.Register` | src/broka/lifecycle.py:351-360 | a component is appended exactly while new or stopped, with a new non-empty name |
| `Lifecycle.LifecycleManager.Startup` | src/broka/lifecycle.py:362-392 | components start in order; the first failure stops those already up in reverse and leaves the manager failed |
| `Lifecycle.LifecycleManager.Unwind` | src/broka/lifecycle.py:463-469 | one stop attempt per started component, latest first, and nothing remembered as started |
| `Lifecycle.LifecycleManager.Drain` | src/broka/lifecycle.py:394-420 | drain hooks of the started components in start order, up to the first that fails |
| `Lifecycle.LifecycleManager.Shutdown` | src/broka/lifecycle.py:422-461 | every started component gets one stop attempt, latest first, whatever the others do, and the manager is stopped |
| `Lifecycle.StartupOutcome` | src/broka/lifecycle.py:362-392 | a startup from a new, stopped or failed manager ends running exactly when every component starts and failed otherwise; from any other state it changes nothing |
| `Lifecycle.OtherOutcomes` | src/broka/lifecycle.py:351-461 | the states after a registration, a drain and a shutdown |
| `Lifecycle.DrainsExactly` | src/broka/lifecycle.py:394-420 | the drain hooks are called in start order up to the first that fails, which is called too |
| `Lifecycle.ProperlyNested` | src/broka/lifecycle.py:351-469 | over any sequence of calls with any failures each stop matches the latest start still up, drains touch only what is up, and what is up is all components while running or draining and nothing otherwise |
| `Lifecycle.EachStartStoppedOnce` | src/broka/lifecycle.py:351-469 | a component has been stopped as often as it started, or once less exactly while it is up |
| `Serializers.SerializerRegistry.Register` | src/broka/serialization/registry.py:47-97 | both indexes and the default after a registration, or the error that refuses it with nothing changed |
| `Serializers.SerializerRegistry.Unregister` | src/broka/serialization/registry.py:99-109 | the serializer leaves both indexes and the default with them |
| `Serializers.SerializerRegistry.Resolve` | src/broka/serialization/registry.py:137-162 | lookup by name, by content type, by both or by default |
| `Serializers.AcceptedExactly` | src/broka/serialization/registry.py:47-97 | after any run a registration is accepted exactly when name and type are not blank and each is free, its own, or to be replaced |
| `Serializers.AcceptedIsFound` | src/broka/serialization/registry.py:71-97 | an accepted serializer is found by name and by type, and exactly when it is the default |
| `Serializers.RemovedExactly` | src/broka/serialization/registry.py:99-109 | a removal takes exactly the named serializer, and the default exactly when it was that one |
| `Serializers.NotFoundExactly` | src/broka/serialization/registry.py:137-162 | why a lookup finds nothing |
| `Serializers.CaseIgnored` | src/broka/serialization/registry.py:66-66 | the letter cases of a name make no difference |
| `Serializers.ParametersIgnored` | src/broka/serialization/registry.py:211-211 | the parameters of a content type make no difference |
| `Serializers.AlwaysInverse` | src/broka/serialization/registry.py:47-109 | after any run of registrations and removals the name index and the content-type index are inverses of each other |
| `Serializers.LookupsAgree` | src/broka/serialization/registry.py:111-135 | a serializer is found by its name exactly when it is found by its content type |
| `Serializers.BothSelectorsAgree` | src/broka/serialization/registry.py:137-162 | selecting by name and content type finds a serializer exactly when each selector alone finds it |
| `Serializers.DefaultRegistered` | src/broka/serialization/registry.py:18-109 | the default is absent or registered, unless it is the initial one and was never registered under that name |
| `Serializers.WithDefaults` | src/broka/serialization/registry.py:25-31 | starting from the stock registry the default is absent or registered after any later calls |
| `Serializers.DefaultResolves` | src/broka/serialization/registry.py:40-45 | a registered default is what resolving without selectors finds |
| `Serializers.EvictsExactlyRivals` | src/broka/serialization/registry.py:71-96 | an accepted registration removes exactly the other entries with its content type and keeps the rest |
| `Tracing.TraceParentRoundTrip` | src/broka/observability/tracing.py:75-93 | parsing a written traceparent gives identifiers and flags back (section 3.2 of W3C Trace Context) |
| `Tracing.ParsedIsWritten` | src/broka/observability/tracing.py:81-93 | under any case folding, every accepted header folds to what a valid context writes, up to white space and the version digits |
| `Tracing.VersionIsRead` | src/broka/observability/tracing.py:81-93 | a header of any version but ff is read like one of version 00, and ff is refused |
| `Tracing.QuoteRoundTrip` | src/broka/observability/tracing.py:430-432 | percent-decoding undoes percent-encoding for every string (sections 2.1 and 2.3 of RFC 3986) |
| `Tracing.QuotedExactly` | src/broka/observability/tracing.py:430-432 | exactly letters, digits and four marks are kept (section 2.3 of RFC 3986), every other byte becomes a percent sign and its two digits |
| `Tracing.UnescapedStays` | src/broka/observability/tracing.py:446-447 | text without escapes is left alone by decoding, whatever characters it holds |
| `Tracing.SplitUndoesJoin` | src/broka/observability/tracing.py:430-433 | splitting on the separator undoes joining items without it |
| `Tracing.ItemIsRead` | src/broka/observability/tracing.py:445-447 | a written list member is read as its key and value, whatever characters they hold |
| `Tracing.MemberIsRead` | src/broka/observability/tracing.py:442-447 | a foreign list member is read as its key and value also between white space and with properties |
| `Tracing.NoMember` | src/broka/observability/tracing.py:442-444 | one without an equals sign is ignored |
| `Tracing.BaggageRoundTrip` | src/broka/observability/tracing.py:429-447 | the baggage header of a map gives that map back |
| `Tracing.SortKeys` | src/broka/observability/tracing.py:432-432 | all keys, each once, in increasing order |
| `Tracing.Inject` | src/broka/observability/tracing.py:416-433 | the headers after injection, with baggage in key order; no context, no change |
| `Tracing.Extract` | src/broka/observability/tracing.py:436-456 | the context read from the headers under the given case folding, or that there is none, or that it is invalid |
| `Tracing.ExtractionOutcome` | src/broka/observability/tracing.py:436-456 | no trace exactly without the header, invalid only when it does not parse, and otherwise its context with the other two headers |
| `Tracing.PutExactly` | src/broka/observability/tracing.py:426-433 | injection replaces a header in its place or appends it |
| `Tracing.LastWins` | src/broka/observability/tracing.py:436-437 | of headers that differ in letter case only the last is read |
| `Tracing.ExtractsWhatWasInjected` | src/broka/observability/tracing.py:416-456 | extraction after injection into a carrier without trace headers returns the context, exactly when its trace state is not the empty string, which comes back absent |
| `Utf8.RoundTrip` | src/broka/observability/tracing.py:430-432 | UTF-8 decoding undoes encoding, as percent-encoding relies on |
| `Utf8.EncodedShape` | src/broka/observability/tracing.py:430-432 | the lead byte gives the length of a character and the others continue it (section 3 of RFC 3629) |
| `Utf8.DecodedIsEncoded` | src/broka/observability/tracing.py:446-447 | whatever is decoded is what its character encodes to, and any other byte is replaced |
| `JsonValues.NormalOfJson` | src/broka/message.py:142-245 | a JSON value is kept unchanged exactly when its numbers are finite and no part of it is nested too deeply |
| `JsonValues.NormalFits` | src/broka/message.py:129-245 | whatever is accepted, the result is within the depth limit |
| `JsonValues.NormalisingTwice` | src/broka/message.py:129-139 | normalising is idempotent |
| `JsonValues.NormalisedAlike` | src/broka/message.py:142-240 | values that are no JSON are normalised like the text, member or mapping they stand for, and the others are refused |
| `JsonValues.ThawFreeze` | src/broka/envelope.py:454-472 | thawing undoes freezing |
| `JsonValues.FreezeThaw` | src/broka/envelope.py:454-472 | freezing undoes thawing |
| `SharedValues.ToJsonValue` | src/broka/message.py:142-240 | the recursion with its mutable set of enclosing containers restores the set on every path and computes the set-passing normalisation |
| `SharedValues.DictValue` | src/broka/message.py:192-216 | the fields are normalised one by one, and the first refused one refuses the mapping |
| `SharedValues.ListValue` | src/broka/message.py:217-236 | the items are normalised in order, and the first refused one refuses the sequence |
| `SharedValues.CycleRefused` | src/broka/message.py:192-238 | a container that contains itself is refused for its depth alone |
| `SharedValues.SeenChangesNothing` | src/broka/message.py:142-240 | the set of enclosing containers never changes what is accepted or the result; merely shared containers are fine |
| `Envelopes.BuildExactly` | src/broka/envelope.py:51-101 | construction succeeds exactly on good metadata and payload and trace within the depth limit, and holds what it was given |
| `Envelopes.GoodMetadataExactly` | src/broka/envelope.py:51-88 | good metadata is that every required text says something, versions are positive and supported, header names are not empty, and no optional text is blank |
| `Envelopes.DefaultsRead` | src/broka/envelope.py:239-290 | a mapping of the five required fields is read with the defaults for all others |
| `Envelopes.RequiredFields` | src/broka/envelope.py:244-254 | and refused without any one of them |
| `Envelopes.HeadersAreTexts` | src/broka/envelope.py:373-383 | an accepted mapping has texts for headers and gives them to the envelope |
| `Envelopes.ValidIsBuilt` | src/broka/envelope.py:51-101 | the valid envelopes are exactly the ones that can be constructed |
| `Envelopes.DictRoundTrip` | src/broka/envelope.py:215-290 | reading the wire mapping of an envelope gives that envelope |
| `Envelopes.ReadIsCanonical` | src/broka/envelope.py:239-290 | an accepted mapping gives a valid envelope that writing and reading no longer changes |
| `Envelopes.EscapesExactly` | src/broka/envelope.py:239-290 | reading a mapping fails with neither kind of error exactly when a time outside the range of UTC dates is met before any check that fails |
| `Envelopes.DictDepth` | src/broka/envelope.py:215-236 | the wire mapping nests payload and trace exactly one level deeper |
| `Wire.FramingIsInjective` | src/broka/broker.py:1220-1231 | different names or different bodies make different frames |
| `Wire.NormalisingExactly` | src/broka/serialization/json.py:22-40 | a serializer that normalises and then dumps encodes exactly what fits the depth limit and can be dumped |
| `Wire.EncodesExactly` | src/broka/broker.py:1220-1231 | with a normalising serializer encoding succeeds exactly with an ASCII name of 1 to 255 bytes, payload and trace at most 63 deep, and a mapping that can be dumped |
| `Wire.NoFrameBelowTheLimit` | src/broka/broker.py:1220-1231 | whatever serializer refuses what the normaliser refuses writes no frame for a payload or trace deeper than 63 |
| `Wire.WireRoundTrip` | src/broka/broker.py:1036-1072 | decoding an encoded frame returns the envelope, for every valid envelope and every allowed, registered and invertible serializer, within the size limit |
| `Wire.AcceptedIsFrame` | src/broka/broker.py:1036-1072 | an accepted payload with the magic prefix is the frame of an allowed, registered name and a body its serializer reads |
| `Wire.FrameRefused` | src/broka/broker.py:1036-1067 | a frame is refused for its size, its name not allowed or no serializer under it, exactly and in this order |
| `Wire.BrokenFrameRefused` | src/broka/broker.py:1048-1060 | a payload that only begins like a frame is refused for being cut off, for its name length or for its name not being ASCII, exactly |
| `Wire.BareExactly` | src/broka/envelope.py:310-345 | what a payload without the prefix comes to, by what its text is |
| `Wire.EqualFramesEqualEnvelopes` | src/broka/broker.py:1220-1231 | equal frames carry equal envelopes and come from the same serializer |
| `Wire.BareRoundTrip` | src/broka/broker.py:1046-1047 | every valid envelope whose JSON text can be written is read back from it, and it never is a frame |
| `Wire.DeepestPayload` | src/broka/broker.py:1220-1231 | an envelope with a payload nested 64 deep can be constructed; no normalising serializer writes a frame for it, and an invertible one that encodes it carries it over the wire |
| `Wire.UntrustedNeverRead` | src/broka/serialization/pickle.py:55-64 | frames of a serializer whose decoder always refuses, as Pickle does untrusted, are written and never read |

## Left out

- The Redis, RabbitMQ and Kafka engines, the Django, Celery, ASGI and command-line integrations, configuration loading, plugin discovery: network I/O and foreign clients.
- Event emission, metrics, logging, redaction and health aggregation: emission may be slow, and cancelled where a model has the await; a listener that raises is not modelled.
- Backoff strategies: a delay is an arbitrary number that the strategy yields.
- Middleware, routing and capability sets: a fold, a sort and set lookups.
- Argument validation that raises before anything happens: negative timeouts, dates without a zone, objects of the wrong type.
- Liveness and fairness, including a memory worker that waits to put back into its own full queue: only safety and bounds are stated.
- Connection manager: the bodies and the bookkeeping of restore callbacks and of the heartbeat loop (a heartbeat starts, fails, reconnects and ends by events; its health checks and restarts are not steps) and timestamps; the classifier of connection errors may answer anything.  An await of event emission or backoff is one with the await after it.
- Outbox: creation times and availability are whole microseconds, lease identifiers are counting numbers for random ones, `list` and `get` only read; dispatchers are the only callers that lease.
- Outbox.MemoryOutboxStore.Add: the added messages of a run are fresh ones (pending, unleased, no attempts), as the outbox itself creates them.
- Memory engine: `publish` to several consumers is one publish event for each of them, without the engine's count of dropped messages; the scheduling is any order of steps, which is more than the event loop's first-in-first-out order.
- MemoryRuns.QuietCloseLosesNothing: says nothing about a publisher that is still blocked on a full queue when close is released, because what happens to its item depends on the order in which the event loop wakes the waiters.
- Delivery: direct calls to `transition` and `schedule_retry` by a handler, and acknowledgement mode NONE in the agreement lemmas, where the adapter is settled before the handler begins.
- Settlement.Arrive: whether the class of an event accepts a payload is a parameter.
- Settlement.Broker.ConsumeOne: the handler's operations are one sequence over all its retries; its middleware and its waiting are not modelled.
- Retry loop: exhaustion actions, what a notification says, and attempt timeouts; a timed-out attempt is one of the error outcomes, and a callback that raises (clock, budget or backoff) is not modelled.
- SharedRetries.RetriesWithinBudget: a retry is dated by its token; the notification awaited between token and sleep may delay the sleep into another window.
- Circuit breaker: excluded exceptions are successes, as the code records them; the registry of breakers and snapshots.
- Idempotency.MemoryIdempotencyStore.DeleteExpired: its count differs between the lazy store and the reference, which has nothing to delete, so purging has one fixed answer in the refinement; record metadata is left out and `contains` is a reading of `get`.
- Dead letters: creating a record from a failure (redaction, traceback, headers), filters and the sorted query; a selection is given. `replay_all` is `replay_selected` on a queried selection.  Two replays of one record that interleave at the publish are excluded.
- Dead letters: archive reasons, destinations and the last replay error of a record; a revision number stands for the time of its last update; the replay rate limit only waits.
- DeadLetters.ReplayManager.Replay: a decoder that raises and one that yields nothing are one answer; neither changes the record.
- Upcasting: the normalisation of the first payload and the construction of the typed event after the class lookup; a transformation includes the normalisation of its result and yields nothing on any failure.
- Lifecycle: cancellation, the supervisor of background tasks and the division of the grace period; a timed-out stop is a failed one.
- Text.Lower: letter case of serializer names and content types is that of ASCII; in trace headers case folding is a parameter that is only known to fold ASCII.
- Utf8.Decode: each byte that starts no character decodes to one replacement character, while Python replaces maximal ill-formed stretches; this concerns foreign headers only.
- Strings are sequences of Unicode scalar values, so text with lone surrogates, which UTF-8 encoding refuses, is not modelled.
- JSON, MessagePack and date texts: parameters; a lemma that needs one to be invertible requires it.
- Wire: the registry's case-insensitive lookup is a parameter; the name in the frame must itself be allowed.
