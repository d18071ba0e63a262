# Webhook gateway: the delivery worker, event ingest and listings

The gateway stores events in PostgreSQL, fans each one out to the endpoints subscribed to its topic, and delivers it
with a background worker. This project models the parts whose guarantees come from several statements and functions
acting together, and proves those guarantees for every run.

**The worker over its tables.** `tick` resets stale claims, claims the oldest due deliveries and runs `processDelivery`
on each: it consults the endpoint's circuit breaker, sends, records the outcome on the endpoint, and then delivers,
retries or dead-letters the row. There is no transaction around this. `Protocol` is the state machine with one step per
SQL statement. Between any two steps the clock moves, deliveries and endpoints are created, endpoints are edited or
deleted, and the process stops. Every statement is executed, executed with its reply lost, or not executed (`Outcome`);
the worker sees the last two as the same error. Its clock readings lie anywhere between its previous step and the
present one, so they may be older than the `NOW()` of the statement they are written by. `Worker` is the program
itself, as a class over the tables: its ghost trace records the steps, and its invariant says that its fields are where
the protocol's run along that trace leads. What becomes of its statements and what its requests are answered is
given from outside, so that it can neither invent a failure nor overlook one. Every theorem about runs is therefore one
about the program, at every statement boundary, and since a prefix of a run is a run, wherever it is killed.

**Ingest.** `Ingest` says what a `CreateEvent` request does to the tables whatever fails in it, and proves what follows
for any history of requests; `EventService` is the program with its transaction, proved to do exactly that.

**Listings.** `Keyset` has the scheme "fetch one row more, trim, continue after the last row" that the three listings
share, against the sorted list; `Listings` has the three, and the dead-letter walk while the worker runs.

## Reading order

| file | content |
|---|---|
| `Collections.dfy` | counting with sets and sequences |
| `Texts.dfy`, `Tables.dfy` | bytes and UTF-8; rows, and the SQL statements as functions |
| `Settings.dfy`, `Backoff.dfy`, `Breaker.dfy` | configuration; retry delay in 64 bits; breaker columns against history |
| `Protocol.dfy`, `Invariant.dfy` | the state machine with its runs; what every reachable state satisfies |
| `Verdicts.dfy` | the steps with every status, comparison and value written out |
| `Safety.dfy`, `Ledger.dfy`, `Timing.dfy`, `Claims.dfy`, `CircuitHistory.dfy` | properties of all runs, faults included |
| `Progress.dfy`, `Quiescence.dfy` | runs without faults: never stuck, a bounded amount of work, at rest in time |
| `RequestLimit.dfy`, `Unstorable.dfy` | when max_attempts bounds the requests, and the replies that defeat it |
| `Ticks.dfy`, `Worker.dfy` | a tick as a part of a run; the worker as a program |
| `Lease.dfy` | several workers on one table |
| `Ingest.dfy`, `EventService.dfy` | event ingest |
| `Keyset.dfy`, `Listings.dfy` | paging |

`dafny verify dfyconfig.toml` verifies the project. Automatic induction is switched off in every lemma: each induction
is the lemma's own recursion.

## Hypotheses

- `Normal` is what `NewDeliveryWorker` establishes: every field is positive. Most theorems need no more.
- `Forward` adds that the cap with its largest jitter fits 64 bits, so that no delay is negative. The theorems about
  starvation need it.
- `Sound` adds that the backoff of the nineteenth attempt fits too. The theorems about the length of retry delays need
  it, and `Settings.ShippedIsSound` shows that the shipped configuration has it.
- `Faultless` runs and `Calm` steps exclude failing or lost statements, failed reads and crashes; `Calm` steps also
  exclude new deliveries. Edits of endpoints, any replies and any passing of time remain allowed.

## What the proofs brought to light

- **Replies that cannot be stored.** The HTTP client accepts any three-digit status, but the table refuses 1..99 and
  600..999 in `last_http_status`. And `last_error` gets the text of a transport error as it is, which may quote what the
  endpoint sent, but a TEXT column refuses a zero byte and malformed UTF-8. In both cases the attempt cannot be written:
  the row stays claimed, the stale reset returns it with its attempt count unchanged, and it is sent again.
  `Unstorable.LimitIsKeptExactlyWhenStorable` has the exact condition: for any set of replies, `max_attempts` bounds the
  requests, as long as nothing else fails, if and only if the table takes every reply of the set.
  `Unstorable.RequestsUnbounded` is the failing family, `RequestLimit.RequestsWithinLimit` the price of one request per
  refusal in general, and `Progress.StuckExactlyOnUnstorableReply` says that such a reply is also the only thing that
  leaves a worker without a successful step.
- **Backoff overflow and rounding.** If `BaseBackoff * 2^(k-1)` exceeds 64 bits, `backoff` returns the base and not the
  cap; and a base above 2^53 nanoseconds is rounded, so that a delay can be shorter than intended.
  `Backoff.BackoffIsCappedExponentialExactlyWhen` has the exact condition under which the result is the intended one;
  `Backoff.LongBaseCollapses` and `Backoff.LongBaseIsRounded` are examples.
- **Lease of several workers.** Claims are exclusive as long as every batch ends within the stale window, and not a
  moment longer. With the shipped values that allows less than six seconds per item, while a request may take thirty.
- **Lost commit reply.** `CreateEvent` answers `Internal` when only the reply to its commit is lost, although the event
  and its deliveries exist; `Ingest.IngestIsAtomic` shows that this is the only such case, and
  `Ingest.DeliveriesConserved` accounts for these deliveries.
- **Lenient filters.** A status filter of which no value names a status filters nothing, and a dead-letter cursor of
  which one half is missing is ignored; `Listings` models both as they are.

Where documentation and code disagree the model follows the code: the comment of `WithTx` promises a rollback on error,
but an error of the commit itself leaves open whether it took effect.

## Model

| member | source | states |
|---|---|---|
| `Breaker.BreakerRefinesHistory` | internal/db/queries/endpoint_management.sql:73-112 | For any sequence of breaker statements and edits, hence any interleaving of any number of workers: failure_count is the trailing run of failures, closed exactly below the threshold, cooldown_until null exactly when closed and otherwise that of the last failure, last_failure_at that failure's time or null |
| `Breaker.FailureAfterOpeningReopens` | internal/db/queries/endpoint_management.sql:85-101 | A failure on a half-open or open circuit always opens it with the new cooldown, despite the ELSE branches |
| `CircuitHistory.BreakerFollowsRun` | internal/worker/delivery_worker.go:152-174 | The same for every endpoint in every run of the worker, with the statements that really reached the row |
| `Backoff.BackoffDelay` | internal/worker/delivery_worker.go:272-287 | Returns one of the values that float64 rounding and 64-bit arithmetic allow, for every positive configuration and attempt; where nothing is rounded or wraps, min(base 2^(k-1), max) or less than half of it more |
| `Backoff.ReturnsAre` | internal/worker/delivery_worker.go:272-287 | Where nothing is rounded or wraps, the possible results are exactly the doubled base up to the cap, or that and less than half of it more |
| `Backoff.ShippedDelays` | internal/worker/delivery_worker.go:272-287 | For the shipped base and cap exactly [1, 1.5) s, [2, 3) s, [4, 6) s and so on, and [300, 450) s from the tenth failure on |
| `Backoff.BackoffIsCappedExponentialExactlyWhen` | internal/worker/delivery_worker.go:272-287 | Every result is D or lies in [D, 1.5 D), with D = min(base 2^(k-1), max), if and only if: the product of the rounded base fits 64 bits and the shortest and the longest result are in that range without wrapping, or it does not fit and the base happens to be in range |
| `Backoff.ShortBaseIsExactlyWhen` | internal/worker/delivery_worker.go:272-287 | For bases up to 2^53, where nothing is rounded: if and only if the product (or else the base in its place) and the largest jitter fit |
| `Backoff.LongBaseIsRounded` | internal/worker/delivery_worker.go:273-274 | A base above 2^53 for which the first delay can be shorter than the base |
| `Backoff.ConsecutiveDelaysDisjoint` | internal/worker/delivery_worker.go:272-287 | Below the cap every possible delay is shorter than every possible next one |
| `Backoff.LongBaseCollapses` | internal/worker/delivery_worker.go:272-280 | A concrete base and cap for which the nineteenth delay is the base instead of the cap |
| `Settings.RetryDelayInRange` | internal/worker/delivery_worker.go:180-187 | In a sound configuration every attempt that can be retried gets the intended delay, at least one nanosecond |
| `Settings.ShippedIsSound` | cmd/gateway/main.go:52-63 | The shipped configuration satisfies the hypotheses and has a stale window of two minutes |
| `Worker.Normalise` | internal/worker/delivery_worker.go:52-79 | Every field is kept or, exactly when not positive, replaced by its default, each default written out |
| `Invariant.StepKeepsInv` | internal/worker/delivery_worker.go:105-205 | Every step, failing or not, keeps: row shapes, attempt bounds, breaker consistency, batch rows distinct and equal to their claimed snapshot, breaker unchanged under the delivery in hand |
| `Invariant.RunKeepsInv` | internal/worker/delivery_worker.go:88-122 | Every reachable state satisfies that invariant |
| `Invariant.HeldRowUntouched` | internal/worker/delivery_worker.go:115-119 | A row waiting in the batch is exactly what the claim returned, whatever happens meanwhile |
| `Verdicts.AttemptIsDecided` | internal/worker/delivery_worker.go:152-188 | Every attempt written after a reply, by its status: 200..299 makes the row delivered; a transport error, 0, 408, 429 or 500 and above, with attempts left below the limit read, makes it pending after a backoff; anything else makes it dead-lettered; each with every column |
| `Verdicts.UnsentIsBuried` | internal/worker/delivery_worker.go:135-137 | An attempt without a reply is written only for an inactive endpoint, as a dead letter with that message |
| `Verdicts.DeferralPutsOff` | internal/worker/delivery_worker.go:139-150 | A deferral moves the row to the end of the open circuit's cooldown, which is still to come, notes why, and changes nothing else |
| `Verdicts.NoteIsTold` | internal/worker/delivery_worker.go:153-174 | The breaker is told a success exactly for 200..299 and a failure otherwise; each column it gets, and that nothing else of the endpoint changes |
| `Verdicts.ProbeIs` | internal/db/queries/endpoint_management.sql:103-112 | The half-open statement is issued for an open circuit whose cooldown is over or missing, and moves the row exactly if it is open with a cooldown that is over |
| `Verdicts.SendIs` | internal/worker/delivery_worker.go:191-205 | A request can go out exactly to an active endpoint whose circuit was not open, or after the half-open statement |
| `Verdicts.ClaimOrder` | internal/db/queries/delivery_operations.sql:39-46 | A due row that a claim passes over is due later than every row taken, or at the same time with a larger id, and the batch is full |
| `Verdicts.ClaimAndResetAre` | internal/db/queries/delivery_operations.sql:47-62 | What a claim and a reset do to each row, with the age from which a claim is stale |
| `Verdicts.SurroundingsMay` | internal/db/migrations/20260519140342_create_endpoints.sql:21-28 | When the other services' statements succeed: exactly as uniqueness, foreign keys and CHECKs have it |
| `Verdicts.SurroundingsAre` | internal/db/queries/endpoint_management.sql:58-68 | What they do to the tables; edits of an endpoint leave its breaker columns alone |
| `Safety.TerminalIsFinal` | internal/db/queries/delivery_operations.sql:64-85 | Delivered and dead-lettered rows never change again, rows are never removed, attempt_count never decreases, although the updates do not look at the status |
| `Safety.AttemptsBounded` | internal/db/migrations/20260519140342_create_endpoints.sql:23 | At most 20 attempts, at most 19 while unfinished, even if limits change in flight |
| `Safety.AttemptsWithinLimit` | internal/worker/delivery_worker.go:162-188 | If max_attempts has never exceeded M: at most M attempts, fewer than M while unfinished |
| `Safety.FindSettling` | internal/worker/delivery_worker.go:247-270 | Every finished row was finished by one applied attempt write, and has not changed since |
| `Safety.SettledOnce` | internal/worker/delivery_worker.go:247-270 | No delivery is settled twice in a run |
| `Safety.DeliveredIsJustified` | internal/worker/delivery_worker.go:152-158 | Delivered implies that the endpoint answered 2xx to a request for this delivery, with the status kept in the row |
| `Safety.DeadLetteredIsJustified` | internal/worker/delivery_worker.go:135-178 | Dead-lettered implies, for the endpoint row that the worker held at the settling step, read for this attempt: inactive, or the reply to this attempt is not retryable, or the attempts are at the limit of that row; with status and message to match |
| `Safety.NothingLost` | internal/worker/delivery_worker.go:105-133 | At any stopping point an unfinished row is pending, in the batch exactly as claimed, or an orphan with a known claim time |
| `Safety.OrphanReturns` | internal/db/queries/delivery_operations.sql:57-62 | An executed reset makes an orphan claimable if and only if its claim is a stale window old, and changes nothing else of it |
| `Safety.CrashRecovery` | internal/worker/delivery_worker.go:105-113 | After a crash anywhere, one reset a stale window later leaves every unfinished row pending with its attempts kept, the claimed ones due |
| `Ledger.BooksBalance` | internal/worker/delivery_worker.go:124-189 | Per delivery and run: requests = written + lapsed + in progress; attempt_count = written + buried unsent; lapses are covered by resets and one orphan |
| `Ledger.SendLedger` | internal/worker/delivery_worker.go:135-188 | attempt_count = requests - lost ones + one if buried unsent; lost ones at most the stale resets plus one while delivering |
| `Ledger.RequestsBounded` | internal/worker/delivery_worker.go:162-188 | At most twenty requests plus one per stale reset |
| `Ledger.RowFactsShow` | internal/db/queries/delivery_operations.sql:57-85 | What is counted shows in the rows: a written attempt exactly as one more, a reset and a deferral exactly as the way from delivering back to pending |
| `Ledger.EndpointFactsShow` | internal/db/queries/endpoint_management.sql:85-112 | An opening failure and a probe show exactly as the circuit's change |
| `Ledger.DeferralsBounded` | internal/worker/delivery_worker.go:139-150 | A delivery is deferred for an open circuit at most as often as its endpoint's circuit was opened by a recorded failure |
| `Timing.NextRetryGrows` | internal/worker/delivery_worker.go:180-187 | next_retry_at never goes back and has grown by at least the delays of all failures recorded meanwhile, despite resets and deferrals |
| `Timing.NextRetryMonotone` | internal/worker/delivery_worker.go:180-187 | next_retry_at never goes back even where the backoff is not the intended one, as long as it cannot wrap around |
| `Timing.RequestsAreSpaced` | internal/worker/delivery_worker.go:180-187 | A request starts no earlier than the delivery's due time at any earlier moment plus all delays since: the cumulative bound for the n-th request |
| `Timing.RetryWaits` | internal/worker/delivery_worker.go:180-187 | No request for a delivery starts before the clock reading of its k-th recorded failure plus min(base 2^(k-1), max) |
| `Timing.DelaySumIs` | internal/worker/delivery_worker.go:272-287 | The delays owed for the first n failures are 2^n - 1 times the base, below the cap |
| `Timing.ProbesAreSpaced` | internal/worker/delivery_worker.go:191-205 | Two open to half-open transitions of an endpoint are at least the cooldown apart |
| `Timing.ProbeRate` | internal/db/queries/endpoint_management.sql:103-112 | Between two moments an endpoint is probed at most once more than whole cooldowns fit |
| `Timing.CircuitStaysOpen` | internal/db/queries/endpoint_management.sql:85-112 | A circuit opened by a failure stays open with that cooldown until it is over |
| `Timing.NoRequestDuringCooldown` | internal/worker/delivery_worker.go:168-174 | No request to the endpoint starts between an opening failure and the end of its cooldown |
| `Claims.ClaimExists` | internal/db/queries/delivery_operations.sql:38-55 | In every table there is a batch that meets the claim's description |
| `Claims.ClaimIsUnique` | internal/db/queries/delivery_operations.sql:38-55 | The claimed set is determined, only its order is not |
| `Claims.AheadIs` | internal/db/queries/delivery_operations.sql:41-46 | Which rows are ahead of another, and which insertions get there, by next_retry_at and id |
| `Claims.NoStarvation` | internal/db/queries/delivery_operations.sql:38-62 | If the longest jittered cap fits 64 bits, whatever the base: while an overdue row waits every executed claim takes a whole batch of the rows that were ahead of it, or were inserted there by a transaction begun before it was due; nothing else gets ahead |
| `Claims.FindTaking` | internal/db/queries/delivery_operations.sql:38-62 | A pending row stays as it is until the claim that takes it, which is found |
| `Claims.TakenInTime` | internal/db/queries/delivery_operations.sql:38-62 | With r rows ahead, those insertions included, and batch size B: once more than r / B claims were executed, one of them has taken the row. That claim is returned; up to it the row is unchanged, and the claims before it took r rows at most |
| `Progress.StuckExactlyOnUnstorableReply` | internal/db/migrations/20260519140358_create_deliveries.sql:4-28 | In a reachable state the worker has a step that succeeds if and only if it does not hold a reply with a status or an error text that the table refuses; for every configuration that the worker can have |
| `Unstorable.RequestsUnbounded` | internal/worker/delivery_worker.go:160-188 | For every reply that the table refuses, status or error text, and every n: a run with n requests for one delivery and no attempt on record, in which the endpoint always allows one attempt, that reply is the only one, and nothing fails but the writes that the table refuses |
| `Unstorable.LimitIsKeptExactlyWhenStorable` | internal/db/migrations/20260519140358_create_deliveries.sql:4-28 | For any set of replies, transport errors included: in all runs with these, in which nothing fails but refused writes, the endpoint's limit m bounds the requests of every delivery by m, if and only if the table takes every reply of the set |
| `Unstorable.RefusedReplies` | internal/worker/delivery_worker.go:259-267 | Which replies these are: the statuses 1..99 and 600..999, every error text with a zero byte, malformed UTF-8 |
| `Texts.Utf8IsEncoding` | internal/db/migrations/20260519140358_create_deliveries.sql:12 | A text is well-formed exactly if it is the encoding of some Unicode scalar values |
| `RequestLimit.RequestsWithinLimit` | internal/worker/delivery_worker.go:162-188 | If nothing fails but refused writes: at most m requests plus one per refusal, for a limit that never exceeded m |
| `RequestLimit.NothingRefused` | internal/worker/delivery_worker.go:180-188 | With replies whose status and error text the table takes, whichever they are, no attempt is refused, faults or not |
| `RequestLimit.FaultlessKeepsLimit` | internal/worker/delivery_worker.go:162-188 | Without faults at most m requests, however the limit changes in flight below m |
| `Progress.HalfOpenOnlyDuringProbe` | internal/worker/delivery_worker.go:152-174 | Without faults half_open is visible only while its probe is in hand |
| `Progress.NextTickClaims` | internal/worker/delivery_worker.go:105-122 | As long as a delivery is unfinished, the next tick of an idle worker that is late enough for it claims a batch that is not empty |
| `Progress.WorkAheadStep` | internal/worker/delivery_worker.go:124-205 | A weighted sum of attempts left and deferrals possible is never increased by a calm step and strictly decreased by each delivery processed |
| `Progress.WorkIsBounded` | internal/worker/delivery_worker.go:124-205 | From any reachable state, calm runs process at most that many deliveries |
| `Progress.JobsLeft` | internal/worker/delivery_worker.go:124-205 | In figures: n deliveries leave an idle worker at most 20 n (n + 1) + n of them to process |
| `Quiescence.RipeTicksBounded` | internal/worker/delivery_worker.go:105-122 | After the last fault and the last new delivery at most one tick more than there is work ahead begins with something to claim: each of them finishes a delivery |
| `Quiescence.RipeWithinHorizon` | internal/worker/delivery_worker.go:139-150 | In every run, faults included, an unfinished delivery can be claimed by a tick that begins after the longest of base, one and a half caps, cooldown and stale window from now |
| `Quiescence.Quiesces` | internal/worker/delivery_worker.go:88-205 | After the last fault and the last new delivery, if ticks begin at least every w, every delivery is delivered or dead-lettered within (3 * work ahead + 3) * (horizon + w) |
| `Quiescence.TimeToRestIs` | internal/worker/delivery_worker.go:88-205 | That time in figures, for n deliveries and an idle worker |
| `Quiescence.ShippedHorizon` | cmd/gateway/main.go:52-63 | The shipped configuration has a horizon of 450 seconds |
| `Ticks.BatchFate` | internal/worker/delivery_worker.go:115-119 | Until the next reset or claim a claimed row is as claimed, or has left the batch and was concluded from exactly that row |
| `Ticks.OutOfBatchStays` | internal/worker/delivery_worker.go:115-119 | A row that has left the batch stays as it is until the next reset or claim |
| `Worker.DeliveryWorker.Interfere` | internal/db/queries/endpoint_management.sql:58-71 | Whatever happens around the worker continues the run and moves neither its position nor its last step |
| `Worker.DeliveryWorker.ResetStaleDelivering` | internal/db/queries/delivery_operations.sql:57-62 | The new table for each of the three outcomes, row by row |
| `Worker.DeliveryWorker.ClaimPendingDeliveriesForWorker` | internal/db/queries/delivery_operations.sql:38-55 | At most limit due rows, and a due row passed over only behind a full batch and later in (next_retry_at, id) order; the new rows, and that these are returned |
| `Worker.DeliveryWorker.UpdateDeliveryAttempt` | internal/db/queries/delivery_operations.sql:64-76 | The new table; a missing row, a refused status and a refused text fail |
| `Worker.DeliveryWorker.RescheduleDelivery` | internal/db/queries/delivery_operations.sql:78-85 | The new table; a missing row fails |
| `Worker.DeliveryWorker.MoveEndpointCircuitToHalfOpen` | internal/db/queries/endpoint_management.sql:103-112 | The new table, and when the statement returns no row |
| `Worker.DeliveryWorker.CheckCircuit` | internal/worker/delivery_worker.go:191-205 | Lets through with the row untouched if the circuit is not open; if it is, defers to the cooldown read while the clock is before it, and otherwise only after the probe's statement; an empty result of that is no error |
| `Worker.DeliveryWorker.SendRequest` | internal/worker/delivery_worker.go:207-245 | One request, on record before its reply, which is the one returned |
| `Worker.DeliveryWorker.MarkDelivered` | internal/worker/delivery_worker.go:247-257 | One write; without error the row is what a 2xx reply makes of it, and with one either the statement failed or the reply is refused |
| `Worker.DeliveryWorker.DeadLetter` | internal/worker/delivery_worker.go:259-270 | One write; without error the row is what the reply, or the inactive endpoint, makes of it |
| `Worker.DeliveryWorker.ScheduleRetry` | internal/worker/delivery_worker.go:180-188 | One write; without error the row is what a reply worth a retry makes of it |
| `Worker.DeliveryWorker.NoteFailureNow` | internal/worker/delivery_worker.go:168-174 | One write; without error the endpoint's breaker is told the failure, with a cooldown from an earlier clock reading |
| `Worker.DeliveryWorker.NoteSuccessNow` | internal/worker/delivery_worker.go:153-157 | One write; without error the endpoint's breaker is told the success |
| `Worker.DeliveryWorker.HandleResponse` | internal/worker/delivery_worker.go:152-188 | Without error the row is what the reply makes of it, column by column; if no statement fails there is no error, unless the reply is refused |
| `Worker.DeliveryWorker.ProcessDelivery` | internal/worker/delivery_worker.go:124-189 | The steps are a run of the protocol that ends with the delivery let go. Without error: dead-lettered unsent if the endpoint row read was inactive, put off if its circuit was open, and otherwise sent once and decided by that reply. An error exactly if the last statement failed, and if none fails only for a refused reply |
| `Worker.DeliveryWorker.Tick` | internal/worker/delivery_worker.go:105-122 | One reset, one claim and the processing of the whole batch, as one continuation of the run; every claimed row is concluded or as claimed; what was final is unchanged. If no statement fails: no error, no step fails but refused writes, and with replies that can be stored every claimed row is concluded |
| `Worker.DeliveryWorker.Serve` | internal/worker/delivery_worker.go:88-103 | Any number of ticks, with crashes and restarts between them, is one run with one reset per tick |
| `Lease.LeaseHolds` | internal/db/queries/delivery_operations.sql:38-62 | However long single items take: as long as every batch was done within the stale window, no delivery is in two workers' batches, and held rows are delivering since that very claim |
| `Lease.MovesAre` | internal/db/queries/delivery_operations.sql:38-85 | When each move of a worker is possible |
| `Lease.MovesMake` | internal/db/queries/delivery_operations.sql:38-85 | And what it makes of every row and every batch |
| `Lease.FinalForFleet` | internal/db/queries/delivery_operations.sql:64-85 | As long as batches are done in time, delivered and dead-lettered rows are final and attempts never taken back, for any number of workers |
| `Lease.AttemptsBoundedForFleet` | internal/worker/delivery_worker.go:162-188 | And no row has more than 20 attempts, no unfinished one more than 19 |
| `Lease.OverdueBatchIsShared` | internal/db/queries/delivery_operations.sql:57-62 | As soon as a held delivery's claim is a stale window old, a reset and a claim by another worker put it into a second batch |
| `Lease.PromptIsFresh` | internal/worker/delivery_worker.go:115-119 | Items of at most b each, in batches of at most batchSize, keep every batch within the window if batchSize * b does |
| `Lease.SlowBatchIsShared` | internal/worker/delivery_worker.go:105-119 | If batchSize * b reaches the window there is a run with items of at most b in which a second worker's reset and regular claim take deliveries that the first still holds |
| `Lease.ExclusiveExactlyWhenBatchFitsWindow` | internal/worker/delivery_worker.go:105-122 | Claims are exclusive in all such runs if and only if batchSize * b is less than StaleAfter in whole milliseconds |
| `Lease.HeldRowsAreClaimed` | internal/db/queries/delivery_operations.sql:47-55 | In such runs a held row stays as its holder's claim left it |
| `Lease.ShippedLease` | cmd/gateway/main.go:52-63 | For the shipped values: if and only if items take less than six seconds |
| `Ingest.HistoryIsWellFormed` | internal/db/migrations/20260519140358_create_deliveries.sql:4-20 | In every history of CreateEvent, CreateDelivery and CreateDeliveriesForEvent: one event per key at most, one delivery per event and endpoint at most, no delivery without its event |
| `Ingest.EventsStay` | internal/db/queries/event_management.sql:1-4 | Events never change or disappear; deliveries keep their references |
| `Ingest.FirstRequestWins` | internal/service/event_service.go:83-101 | The key's event is for good the one the first committed request stored; a later request with the key changes nothing and learns that event |
| `Ingest.IngestIsAtomic` | internal/service/event_service.go:51-119 | All or nothing, with exactly one fresh delivery per active subscribed endpoint; success replies count them, other replies mean no change unless the commit's reply was lost |
| `Ingest.IngestSpelledOut` | internal/service/event_service.go:32-119 | The same without naming a function of the model: which request gets which answer; a new event holds key, topic and stored payload; an endpoint has a delivery of it exactly if it is active and has the topic, and the count is theirs; if nothing fails, the answer is Internal only for a payload that is not JSON |
| `Ingest.FanOutSpelledOut` | internal/db/queries/delivery_operations.sql:7-15 | After a fan-out an endpoint has a delivery of the event exactly if it had one or is active and shares a topic; new rows are pending, due at once, without attempts |
| `Ingest.SpreadIsIdempotent` | internal/db/queries/delivery_operations.sql:7-15 | Repeating the fan-out resets no row, adds exactly the missing deliveries of active endpoints that share a topic, and then finds nothing to do |
| `Ingest.DeliveriesConserved` | internal/service/event_service.go:80-110 | With events as the only source, the table holds as many deliveries as were reported, plus those of lost commit replies |
| `EventService.EventService.InsertFanOut` | internal/db/queries/delivery_operations.sql:7-15 | The rows added one by one: afterwards an endpoint has a delivery exactly if it had one or is active and shares a topic, each new row as it has to be, and the count is right |
| `EventService.EventService.FindByKey` | internal/db/queries/event_management.sql:11-14 | Finds an event of the key if and only if there is one |
| `EventService.EventService.IngestInTx` | internal/service/event_service.go:51-82 | The callback's error in the order of its statements, and without error the transaction's view of both tables |
| `EventService.EventService.RunTx` | internal/store/store.go:31-49 | Both tables become the transaction's view exactly if begin, callback and commit go through, the commit's reply lost or not, and are as before otherwise; success exactly if they all do with that reply |
| `EventService.EventService.CreateEvent` | internal/service/event_service.go:32-119 | New tables and reply are those of the specification and of its spelled-out form, for every way the statements, the commit or the lookup can fail; and nothing is taken to fail unless a statement that was issued does |
| `Keyset.BoundedLimit` | internal/service/endpoint_service.go:268-276 | The limit asked for exactly if it lies between 1 and 100, and otherwise 50 or 100 |
| `Keyset.FetchPage` | internal/service/endpoint_service.go:114-137 | As many rows as asked for (50 by default, 100 at most) of those after the cursor, or all if there are fewer, the first in key order; has_more exactly if there are more, and then the cursor is the last row shown |
| `Keyset.WalkIsOrdered` | internal/service/delivery_service.go:182-206 | However the table changes between pages, no key is listed twice, none out of order, none that was not there |
| `Keyset.WalkMissesNothing` | internal/service/delivery_service.go:182-206 | A row that matches at every page is listed |
| `Keyset.WalkIsSortedList` | internal/service/endpoint_service.go:114-143 | On a table that stays fixed beyond the cursor the pages together are the sorted filtered list, for any limits |
| `Keyset.WalkIsShort` | internal/service/endpoint_service.go:124-137 | There the walk ends, with at most as many pages as rows, or one |
| `Keyset.GrowingWalkIsShort` | internal/service/delivery_service.go:234-251 | If rows are only added meanwhile, the walk has no more pages than rows listed |
| `Listings.ListEndpoints` | internal/service/endpoint_service.go:103-144 | Of the matching rows (the active ones if asked for, with one of the topics if any are given) those after the cursor in ascending id, as many as asked for, none left out but behind a full page; has_more exactly if some are; the last id as next cursor |
| `Listings.StatusesFromProto` | internal/service/delivery_service.go:273-281 | Exactly the values that name a status |
| `Listings.ListDeliveriesByEndpoint` | internal/service/delivery_service.go:167-213 | Of the matching rows (those of the endpoint whose status is in the filter, or all if it names none) those after the cursor in ascending id, as many as asked for, none left out but behind a full page; has_more exactly if some are; the last id as next cursor |
| `Listings.ListDeadLetteredDeliveries` | internal/service/delivery_service.go:215-259 | Of the dead letters, those before the cursor in (dead_lettered_at, id), if both halves are given, latest first, as many as asked for, none left out but behind a full page; has_more exactly if some are; both halves of the next cursor |
| `Listings.DeadLetterIsListed` | internal/db/queries/delivery_operations.sql:107-118 | A delivery that is dead-lettered when the walk begins is listed, whatever the worker does between pages |
| `Listings.LaterDeadLetters` | internal/worker/delivery_worker.go:259-270 | A row dead-lettered after a moment has a time no earlier than the worker's last step before it |
| `Listings.DeadLetterWalk` | internal/db/queries/delivery_operations.sql:107-118 | Every walk, whatever the worker does between pages: in order, none twice, every dead letter of its first moment, of those from before the worker's last step no others, and no more pages than there are dead letters in the end, or one |
| `Listings.DeadLetterWalkIsSnapshot` | internal/service/delivery_service.go:215-259 | If the first page is the last, or ends with a row from before the worker's last step, the walk lists exactly the dead letters of its first moment, in order, and has at most as many pages |

## Left out

- The `UpdateDeliveryAttempt` RPC (internal/service/delivery_service.go:121-157): it writes any status and times to any row, so no worker invariant survives it. The runs here do not contain it.
- `ListEvents`: its cursor reaches the query as NULL because the values are built without `Valid: true` (internal/service/event_service.go:172-180), so every call returns the first page and the paging property does not hold.
- `GetEvent`, `GetDelivery`, `ListPendingDeliveries`, `CountPendingDeliveries` and the other plain reads: selections of one branch.
- HTTP transport, request building, headers and HMAC signing: `send` is an oracle for a three-digit status or an error with any text; how long it takes is left open, so the request timeout plays no part.
- gRPC plumbing, status and null mappers, interceptors, logging, configuration loading, signal handling, the connection pool.
- `validateEndpointURL`, UUID parsing and the argument checks of `CreateEndpoint` and `UpdateEndpoint`: of the two only what reaches the tables is kept.
- The columns name, url, secret, created_at and updated_at, which nothing modelled here depends on.
- internal/domain: an unused second model with other status names. Generated code under gen/ and internal/repository repeats the queries.
- Isolation inside PostgreSQL: a statement is one atomic step, and so are a transaction of `CreateEvent` and the lookup after it. A serialization failure is a failing statement or commit.
- Row locks of other sessions: the single worker's claim skips no row. `Lease` lets claims skip any rows.
- Autocommit statements are stamped when they are executed; only insertions carry an earlier time, that of their transaction's beginning.
- The two clocks are one, it never goes back, and times keep their nanoseconds; the truncation of timestamptz to microseconds is not modelled.
- Ids are integers in the order of the UUIDs; that generated ids are new is assumed.
- Numbers of 32 bits: failure_count, whose statement fails after 2^31 - 1 consecutive failures, and the delivery count in the reply.
- `Progress.StuckExactlyOnUnstorableReply`: does not count that failing statement, because failure_count is unbounded here.
- `Unstorable.RequestsUnbounded`: does not model that limit of failure_count either, so n may exceed it.
- `Backoff.BackoffDelay`: does not model other processors than amd64, on which a product out of range converts to the smallest integer.
- The database's encoding is taken to be UTF-8. What the HTTP client's error texts say is left open: they are any bytes.
- `Worker.DeliveryWorker.CheckCircuit`: does not model other workers, so its tolerance of an empty result of the half-open statement is not needed here.
- `Worker.DeliveryWorker.Serve`: does not model the poll interval and the stop signal, because the time between ticks is arbitrary in a run.
- `Worker.DeliveryWorker.SendRequest`: does not model the request's content, because no table depends on it.
- Loading the event in `processDelivery` is modelled only as a read that can fail; its payload goes into the request alone.
