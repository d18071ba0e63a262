/** The delivery worker as a program over its tables.

    Each SQL statement is a method that can succeed, fail, or lose its reply: `fate` says which, and `answers` what the
    endpoints reply, both arbitrary but not up to the program. `trace` records the steps; `Valid` says that the fields
    are where the protocol's run along that trace leads. So everything proved about runs holds of the program at every
    statement boundary, and since every prefix of a run is a run, a crash at any of them is covered. */
module Worker {
  import opened Tables
  import opened Settings
  import opened Protocol
  import opened Invariant
  import opened Safety
  import opened Ledger
  import opened Claims
  import opened Ticks
  import opened Verdicts
  import Backoff
  import Progress
  import RequestLimit

  /** NewDeliveryWorker: every field that is not positive gets its default. */
  method Normalise(raw: Config) returns (cfg: Config)
    requires Typed(raw)
    ensures Normal(cfg) && Typed(cfg)
    ensures cfg == Config(
              if raw.batchSize <= 0 then 20 else raw.batchSize,
              if raw.pollInterval <= 0 then 1_000_000_000 else raw.pollInterval,
              if raw.baseBackoff <= 0 then 1_000_000_000 else raw.baseBackoff,
              if raw.maxBackoff <= 0 then 300_000_000_000 else raw.maxBackoff,
              if raw.staleAfter <= 0 then 120_000_000_000 else raw.staleAfter,
              if raw.circuitThreshold <= 0 then 5 else raw.circuitThreshold,
              if raw.circuitCooldown <= 0 then 60_000_000_000 else raw.circuitCooldown,
              if raw.defaultTimeout <= 0 then 30_000_000_000 else raw.defaultTimeout,
              if raw.defaultMaxAttempts <= 0 then 5 else raw.defaultMaxAttempts)
  {
    cfg := raw;
    if cfg.batchSize <= 0 {
      cfg := cfg.(batchSize := 20);
    }
    if cfg.pollInterval <= 0 {
      cfg := cfg.(pollInterval := SECOND);
    }
    if cfg.baseBackoff <= 0 {
      cfg := cfg.(baseBackoff := SECOND);
    }
    if cfg.maxBackoff <= 0 {
      cfg := cfg.(maxBackoff := 5 * MINUTE);
    }
    if cfg.staleAfter <= 0 {
      cfg := cfg.(staleAfter := 2 * MINUTE);
    }
    if cfg.circuitThreshold <= 0 {
      cfg := cfg.(circuitThreshold := 5);
    }
    if cfg.circuitCooldown <= 0 {
      cfg := cfg.(circuitCooldown := MINUTE);
    }
    if cfg.defaultTimeout <= 0 {
      cfg := cfg.(defaultTimeout := 30 * SECOND);
    }
    if cfg.defaultMaxAttempts <= 0 {
      cfg := cfg.(defaultMaxAttempts := 5);
    }
  }

  // --------------------------------------------------------------------------------------------- the program's steps

  lemma {:induction false} AttemptStep(cfg: Config, s: State, read: Time, delay: int, o: Outcome)
    requires Inv(cfg, s) && Concludes(s.phase) && s.since <= read <= s.now
    requires if Conclusion(cfg, s.phase).Retry?
             then Backoff.MayReturn(cfg.baseBackoff, cfg.maxBackoff, Max1(s.phase.job.row.attemptCount + 1), delay)
             else delay == 0
    requires !Accepted(WriteOf(cfg, s.phase, read, delay)) ==> o == Failed
    ensures var l, d, w := Attempt(read, delay, o), s.phase.job.id, WriteOf(cfg, s.phase, read, delay);
            && Enabled(cfg, s, l) && d in s.rows && s.rows[d] == s.phase.job.row && w.status != Delivering
            && (RequestLimit.IsRefusal(cfg, s, l) <==> !Accepted(w))
            && var rows := if o.Failed? then s.rows else s.rows[d :=
                 Delivery(s.rows[d].eventId, s.rows[d].endpointId, w.status, s.rows[d].attemptCount + 1, w.nextRetryAt,
                          w.lastHttpStatus, w.lastError, Some(s.now), w.deliveredAt, w.deadLetteredAt)];
               Next(cfg, s, l) == State(s.now, s.now, rows, s.eps, Rest(s.phase.todo))
  {
    InHand(cfg, s);
  }

  lemma {:induction false} RescheduleStep(cfg: Config, s: State, read: Time, o: Outcome)
    requires Inv(cfg, s) && s.phase.Busy? && s.phase.stage.Fetched? && s.phase.ep.active && s.since <= read <= s.now
    requires s.phase.ep.circuit == Open && s.phase.ep.cooldownUntil.Some? && read < s.phase.ep.cooldownUntil.value
    ensures var l, d := Reschedule(read, o), s.phase.job.id;
            && Enabled(cfg, s, l) && d in s.rows && s.rows[d] == s.phase.job.row
            && s.phase.ep.cooldownUntil.value > s.rows[d].nextRetryAt
            && var rows := if o.Failed? then s.rows else s.rows[d := s.rows[d].(
                 status := Pending, nextRetryAt := s.phase.ep.cooldownUntil.value, lastError := Some(CircuitOpen))];
               Next(cfg, s, l) == State(s.now, s.now, rows, s.eps, Rest(s.phase.todo))
  {
    InHand(cfg, s);
  }

  lemma {:induction false} ProbeStep(cfg: Config, s: State, read: Time, o: Outcome)
    requires Inv(cfg, s) && s.phase.Busy? && s.phase.stage.Fetched? && s.phase.ep.active && s.since <= read <= s.now
    requires s.phase.ep.circuit == Open
    requires s.phase.ep.cooldownUntil.Some? ==> s.phase.ep.cooldownUntil.value <= read
    ensures var l, e := ToHalfOpen(read, o), s.phase.job.row.endpointId;
            && Enabled(cfg, s, l) && e in s.eps && s.eps[e].circuit == Open && s.eps[e].cooldownUntil.Some?
            && s.eps[e].cooldownUntil.value <= s.now
            && var eps := if o.Failed? then s.eps else s.eps[e := s.eps[e].(circuit := HalfOpen)];
               Next(cfg, s, l) == State(s.now, s.now, s.rows, eps,
                 if o.Ok? then s.phase.(stage := Cleared) else Rest(s.phase.todo))
  {
    InHand(cfg, s);
    assert EndpointOk(cfg, s.eps[s.phase.job.row.endpointId], s.now);
  }

  lemma {:induction false} SuccessStep(cfg: Config, s: State, o: Outcome)
    requires Inv(cfg, s) && s.phase.Busy? && s.phase.stage.Answered? && Successful(s.phase.stage.resp)
    ensures var l, e := NoteSuccess(o), s.phase.job.row.endpointId;
            && Enabled(cfg, s, l) && e in s.eps
            && var eps := if o.Failed? then s.eps else s.eps[e := s.eps[e].(
                 circuit := Closed, failureCount := 0, lastFailureAt := None, cooldownUntil := None)];
               Next(cfg, s, l) == State(s.now, s.now, s.rows, eps,
                 if o.Ok? then s.phase.(stage := Noted(s.phase.stage.resp)) else Rest(s.phase.todo))
  {
  }

  lemma {:induction false} FailureStep(cfg: Config, s: State, read: Time, o: Outcome)
    requires Inv(cfg, s) && s.phase.Busy? && s.phase.stage.Answered? && !Successful(s.phase.stage.resp)
    requires s.since <= read <= s.now
    ensures var l, e := NoteFailure(read, o), s.phase.job.row.endpointId;
            && Enabled(cfg, s, l) && e in s.eps
            && var ep := s.eps[e];
               var after := if ep.failureCount + 1 >= cfg.circuitThreshold
                 then ep.(failureCount := ep.failureCount + 1, lastFailureAt := Some(s.now), circuit := Open,
                          cooldownUntil := Some(read + cfg.circuitCooldown))
                 else ep.(failureCount := ep.failureCount + 1, lastFailureAt := Some(s.now));
               Next(cfg, s, l) == State(s.now, s.now, s.rows, if o.Failed? then s.eps else s.eps[e := after],
                 if o.Ok? then s.phase.(stage := Noted(s.phase.stage.resp)) else Rest(s.phase.todo))
  {
  }

  lemma {:induction false} FetchStep(cfg: Config, s: State)
    requires Inv(cfg, s) && s.phase.Working? && s.phase.todo != []
    ensures var job := s.phase.todo[0];
            && job.row.endpointId in s.eps && Enabled(cfg, s, Fetch) && Enabled(cfg, s, Skip)
            && Next(cfg, s, Fetch) == State(s.now, s.now, s.rows, s.eps,
                 Busy(job, s.eps[job.row.endpointId], Fetched, s.phase.todo[1..]))
            && Next(cfg, s, Skip) == State(s.now, s.now, s.rows, s.eps, Rest(s.phase.todo[1..]))
  {
    assert Owned(s, Held(s.phase)[0]);
  }

  lemma {:induction false} SendStep(cfg: Config, s: State)
    requires Enabled(cfg, s, Send)
    ensures s.phase.Busy? && Next(cfg, s, Send) == s.(since := s.now, phase := s.phase.(stage := Sending))
  {
  }

  lemma {:induction false} RespondStep(cfg: Config, s: State, resp: Response)
    requires s.phase.Busy? && s.phase.stage.Sending? && PossibleResponse(resp)
    ensures Enabled(cfg, s, Respond(resp))
    ensures Next(cfg, s, Respond(resp)) == s.(since := s.now, phase := s.phase.(stage := Answered(resp)))
  {
  }

  lemma {:induction false} ResetStep(cfg: Config, s: State, o: Outcome)
    requires s.phase.Idle?
    ensures Enabled(cfg, s, Reset(o))
    ensures var rows := if o.Applied() then ResetStale(s.rows, s.now, StaleWindow(cfg)) else s.rows;
            Next(cfg, s, Reset(o)) == State(s.now, s.now, rows, s.eps, if o.Ok? then Claiming else Idle)
  {
  }

  lemma {:induction false} ClaimStep(cfg: Config, s: State, ids: seq<Id>, o: Outcome)
    requires s.phase.Claiming? && IsClaim(s.rows, s.now, cfg.batchSize, ids)
    ensures Enabled(cfg, s, Claim(ids, o)) && (forall i | 0 <= i < |ids| :: ids[i] in s.rows) && Distinct(ids)
    ensures var rows := if o.Applied() then ClaimRows(s.rows, ids, s.now) else s.rows;
            Next(cfg, s, Claim(ids, o)) == State(s.now, s.now, rows, s.eps,
              if o.Ok? then Rest(Jobs(s.rows, ids, s.now)) else Idle)
  {
  }

  /** Every reply is one that `send` can report. */
  ghost predicate Answering(answers: nat -> Response) {
    forall n: nat :: PossibleResponse(answers(n))
  }

  lemma {:induction false} ClaimOrders(rows: Deliveries, now: Time, limit: int, ids: seq<Id>)
    requires IsClaim(rows, now, limit, ids)
    ensures forall x, y | x in ids && y in rows && y !in ids && rows[y].status == Pending
                          && rows[y].nextRetryAt <= now ::
              && |ids| == limit && x in rows
              && (|| rows[x].nextRetryAt < rows[y].nextRetryAt
                  || (rows[x].nextRetryAt == rows[y].nextRetryAt && x < y))
  {
    forall x, y | x in ids && y in rows && y !in ids && rows[y].status == Pending && rows[y].nextRetryAt <= now
      ensures |ids| == limit && x in rows
      ensures rows[x].nextRetryAt < rows[y].nextRetryAt || (rows[x].nextRetryAt == rows[y].nextRetryAt && x < y)
    {
      ClaimOrder(rows, now, limit, ids, x, y);
    }
  }

  /** A moment: the run up to it, and how many statements were issued before it. */
  datatype Mark = Mark(trace: Trace, issued: nat)

  class DeliveryWorker {
    const config: Config
    var deliveries: Deliveries
    var endpoints: Endpoints
    var clock: Time

    /** What becomes of the statements and what the requests are answered, and how many of each there were. */
    const fate: nat -> Outcome
    const answers: nat -> Response
    var issued: nat
    var sent: nat

    ghost var phase: Phase
    ghost var since: Time
    ghost var trace: Trace

    ghost predicate Valid()
      reads this
    {
      && Normal(config) && Typed(config) && Answering(answers)
      && Run(config, trace) && since <= clock
      && At(config, trace) == State(clock, since, deliveries, endpoints, phase)
    }

    /** The worker over an empty database. */
    constructor (raw: Config, fate: nat -> Outcome, answers: nat -> Response)
      requires Typed(raw) && Answering(answers)
      ensures Valid() && phase == Idle && trace == Start && this.fate == fate && this.answers == answers
    {
      var cfg := Normalise(raw);
      config, this.fate, this.answers := cfg, fate, answers;
      deliveries, endpoints, clock := map[], map[], 0;
      issued, sent := 0, 0;
      phase, since, trace := Idle, 0, Start;
    }

    // ------------------------------------------------------------------------------------------------ surroundings

    /** Since the moment `from` the run was only continued, within one tick; and if none of the statements issued since
        then fails, no step has failed but writes that the table refuses. */
    ghost predicate Since(from: Mark)
      requires Run(config, trace)
      reads this
    {
      && SameTick(from.trace, trace) && from.issued <= issued
      && (AllWell(fate, from.issued, issued) ==> FaultFree(config, from.trace, trace))
    }

    /** Whatever may happen around the worker between two of its steps. */
    method Interfere(ghost from: Mark)
      requires Valid() && Since(from)
      modifies this`deliveries, this`endpoints, this`clock, this`trace
      ensures Valid() && Since(from) && old(clock) <= clock
    {
      var steps: nat := *;
      while steps > 0
        invariant Valid() && Since(from) && old(clock) <= clock
      {
        var l: Label := *;
        var here := State(clock, clock, deliveries, endpoints, Idle);
        if !FromWorker(l) && !l.Crash? && Enabled(config, here, l) {
          var there := Next(config, here, l);
          clock, deliveries, endpoints := there.now, there.rows, there.eps;
          trace := Then(trace, l);
        }
        steps := steps - 1;
      }
    }

    /** Takes the step that the program has just made on the tables into the trace. */
    ghost method Record(l: Label)
      requires Normal(config) && Typed(config) && Answering(answers)
      requires Run(config, trace) && Enabled(config, At(config, trace), l)
      requires var s := Next(config, At(config, trace), l);
               s.now == clock && s.rows == deliveries && s.eps == endpoints && s.since <= s.now
      modifies this`phase, this`since, this`trace
      ensures Valid() && trace == Then(old(trace), l)
      ensures State(clock, since, deliveries, endpoints, phase) == Next(config, At(config, old(trace)), l)
    {
      var s := Next(config, At(config, trace), l);
      phase, since := s.phase, s.since;
      trace := Then(trace, l);
    }

    /** Takes a step within a tick into the trace; it fails only if a statement does. */
    ghost method RecordIn(l: Label, from: Mark)
      requires Normal(config) && Typed(config) && Answering(answers)
      requires Run(config, trace) && Enabled(config, At(config, trace), l)
      requires var s := Next(config, At(config, trace), l);
               s.now == clock && s.rows == deliveries && s.eps == endpoints && s.since <= s.now
      requires !l.Reset? && !l.Claim? && !l.Crash? && SameTick(from.trace, trace) && from.issued <= issued
      requires AllWell(fate, from.issued, issued) ==>
                 && FaultFree(config, from.trace, trace)
                 && (Progress.Faulty(l) ==> RequestLimit.IsRefusal(config, At(config, trace), l))
      modifies this`phase, this`since, this`trace
      ensures Valid() && Since(from) && trace == Then(old(trace), l)
      ensures State(clock, since, deliveries, endpoints, phase) == Next(config, At(config, old(trace)), l)
    {
      hide Next, Enabled;
      Record(l);
    }

    /** What held since `middle`, and since `from` up to there, holds since `from`. */
    lemma {:induction false} SinceThen(from: Mark, middle: Mark)
      requires Valid() && Since(middle) && Run(config, middle.trace)
      requires SameTick(from.trace, middle.trace) && from.issued <= middle.issued
      requires AllWell(fate, from.issued, middle.issued) ==> FaultFree(config, from.trace, middle.trace)
      ensures Since(from)
    {
      SameTickTransitive(from.trace, middle.trace, trace);
      if AllWell(fate, from.issued, issued) {
        FaultFreeTransitive(config, from.trace, middle.trace, trace);
      }
    }

    // ---------------------------------------------------------------------------------------------- SQL statements

    /** Issues the next statement. */
    method Issue() returns (o: Outcome)
      modifies this`issued
      ensures issued == old(issued) + 1 && o == fate(old(issued))
    {
      o := fate(issued);
      issued := issued + 1;
    }

    method ResetStaleDelivering(staleAfterMilliseconds: int) returns (err: bool, ghost o: Outcome)
      modifies this`deliveries, this`issued
      ensures issued == old(issued) + 1 && o == fate(old(issued)) && err == !o.Ok?
      ensures deliveries == if o.Applied() then ResetStale(old(deliveries), clock, staleAfterMilliseconds * MILLISECOND)
                            else old(deliveries)
      ensures deliveries.Keys == old(deliveries.Keys)
      ensures forall d | d in deliveries ::
                var row := old(deliveries)[d];
                deliveries[d] ==
                  if !o.Failed? && row.status == Delivering && row.lastAttemptedAt.Some?
                     && row.lastAttemptedAt.value <= clock - staleAfterMilliseconds * 1_000_000
                  then row.(status := Pending, nextRetryAt := clock) else row
    {
      var outcome := Issue();
      if outcome.Applied() {
        deliveries := ResetStale(deliveries, clock, staleAfterMilliseconds * MILLISECOND);
      }
      err, o := !outcome.Ok?, outcome;
    }

    method ClaimPendingDeliveriesForWorker(limit: int)
      returns (jobs: seq<Job>, err: bool, ghost ids: seq<Id>, ghost o: Outcome)
      requires limit > 0
      modifies this`deliveries, this`issued
      ensures issued == old(issued) + 1 && o == fate(old(issued)) && err == !o.Ok?
      ensures IsClaim(old(deliveries), clock, limit, ids) && |ids| <= limit
      ensures forall x, y | x in ids && y in old(deliveries) && y !in ids
                            && old(deliveries)[y].status == Pending && old(deliveries)[y].nextRetryAt <= clock ::
                && |ids| == limit && x in old(deliveries)
                && (|| old(deliveries)[x].nextRetryAt < old(deliveries)[y].nextRetryAt
                    || (old(deliveries)[x].nextRetryAt == old(deliveries)[y].nextRetryAt && x < y))
      ensures deliveries == if o.Applied() then ClaimRows(old(deliveries), ids, clock) else old(deliveries)
      ensures forall d | d in ids ::
                && d in old(deliveries) && old(deliveries)[d].status == Pending
                && old(deliveries)[d].nextRetryAt <= clock
                && (!o.Failed? ==> d in deliveries && deliveries[d]
                                   == old(deliveries)[d].(status := Delivering, lastAttemptedAt := Some(clock)))
      ensures !err ==> jobs == Jobs(old(deliveries), ids, clock) && |jobs| == |ids|
      ensures !err ==> forall i | 0 <= i < |jobs| ::
                         ids[i] in deliveries && jobs[i] == Job(ids[i], deliveries[ids[i]])
    {
      var outcome := Issue();
      jobs := [];
      ghost var oldest := ClaimExists(deliveries, clock, limit);
      var chosen: seq<Id> :| IsClaim(deliveries, clock, limit, chosen);
      ClaimIsOfRows(deliveries, clock, limit, chosen);
      ClaimOrders(deliveries, clock, limit, chosen);
      if outcome.Ok? {
        jobs := Jobs(deliveries, chosen, clock);
      }
      if outcome.Applied() {
        deliveries := ClaimRows(deliveries, chosen, clock);
      }
      err, ids, o := !outcome.Ok?, chosen, outcome;
    }

    /** The event's payload plays no part; only whether it can be read. */
    method GetEventByID(id: Id) returns (err: bool)
      modifies this`issued
      ensures issued == old(issued) + 1 && err == !fate(old(issued)).Ok?
    {
      var outcome := Issue();
      err := !outcome.Ok?;
    }

    method GetEndpointByID(id: Id) returns (row: Option<Endpoint>)
      modifies this`issued
      ensures issued == old(issued) + 1
      ensures row == if fate(old(issued)).Ok? && id in endpoints then Some(endpoints[id]) else None
    {
      var outcome := Issue();
      row := if !outcome.Ok? || id !in endpoints then None else Some(endpoints[id]);
    }

    method UpdateDeliveryAttempt(w: Write, id: Id) returns (err: bool, ghost o: Outcome)
      modifies this`deliveries, this`issued
      ensures issued == old(issued) + 1 && err == !o.Ok?
      ensures o == if id !in old(deliveries) || !Accepted(w) then Failed else fate(old(issued))
      ensures o.Failed? ==> deliveries == old(deliveries)
      ensures !o.Failed? ==>
                var row := old(deliveries)[id];
                deliveries == old(deliveries)[id :=
                  Delivery(row.eventId, row.endpointId, w.status, row.attemptCount + 1, w.nextRetryAt,
                           w.lastHttpStatus, w.lastError, Some(clock), w.deliveredAt, w.deadLetteredAt)]
    {
      var outcome := Issue();
      if id !in deliveries || !Accepted(w) {
        outcome := Failed;
      }
      if outcome.Applied() {
        deliveries := deliveries[id := AttemptRow(deliveries[id], w, clock)];
      }
      err, o := !outcome.Ok?, outcome;
    }

    method RescheduleDelivery(nextRetryAt: Time, message: Message, id: Id) returns (err: bool, ghost o: Outcome)
      modifies this`deliveries, this`issued
      ensures issued == old(issued) + 1 && err == !o.Ok?
      ensures o == if id !in old(deliveries) then Failed else fate(old(issued))
      ensures o.Failed? ==> deliveries == old(deliveries)
      ensures !o.Failed? ==>
                deliveries == old(deliveries)[id := old(deliveries)[id].(
                  status := Pending, nextRetryAt := nextRetryAt, lastError := Some(message))]
    {
      var outcome := Issue();
      if id !in deliveries {
        outcome := Failed;
      }
      if outcome.Applied() {
        deliveries := deliveries[id := RescheduleRow(deliveries[id], nextRetryAt, message)];
      }
      err, o := !outcome.Ok?, outcome;
    }

    method MarkEndpointDeliverySuccess(id: Id) returns (err: bool, ghost o: Outcome)
      modifies this`endpoints, this`issued
      ensures issued == old(issued) + 1 && err == !o.Ok?
      ensures o == if id !in old(endpoints) then Failed else fate(old(issued))
      ensures o.Failed? ==> endpoints == old(endpoints)
      ensures !o.Failed? ==>
                endpoints == old(endpoints)[id := old(endpoints)[id].(
                  circuit := Closed, failureCount := 0, lastFailureAt := None, cooldownUntil := None)]
    {
      var outcome := Issue();
      if id !in endpoints {
        outcome := Failed;
      }
      if outcome.Applied() {
        endpoints := endpoints[id := SuccessRow(endpoints[id])];
      }
      err, o := !outcome.Ok?, outcome;
    }

    method MarkEndpointDeliveryFailure(threshold: int, cooldownUntil: Time, id: Id)
      returns (err: bool, ghost o: Outcome)
      modifies this`endpoints, this`issued
      ensures issued == old(issued) + 1 && err == !o.Ok?
      ensures o == if id !in old(endpoints) then Failed else fate(old(issued))
      ensures o.Failed? ==> endpoints == old(endpoints)
      ensures !o.Failed? ==>
                var ep := old(endpoints)[id];
                endpoints == old(endpoints)[id :=
                  if ep.failureCount + 1 >= threshold
                  then ep.(failureCount := ep.failureCount + 1, lastFailureAt := Some(clock), circuit := Open,
                           cooldownUntil := Some(cooldownUntil))
                  else ep.(failureCount := ep.failureCount + 1, lastFailureAt := Some(clock))]
    {
      var outcome := Issue();
      if id !in endpoints {
        outcome := Failed;
      }
      if outcome.Applied() {
        endpoints := endpoints[id := FailureRow(endpoints[id], threshold, clock, cooldownUntil)];
      }
      err, o := !outcome.Ok?, outcome;
    }

    /** `noRows` is the error for an empty RETURNING, which the caller tells from the others. */
    method MoveEndpointCircuitToHalfOpen(id: Id) returns (err: bool, noRows: bool, ghost o: Outcome)
      modifies this`endpoints, this`issued
      ensures issued == old(issued) + 1 && o == fate(old(issued)) && err == (noRows || !o.Ok?)
      ensures var moves := && id in old(endpoints) && old(endpoints)[id].circuit == Open
                           && old(endpoints)[id].cooldownUntil.Some?
                           && old(endpoints)[id].cooldownUntil.value <= clock;
              && noRows == (o.Ok? && !moves)
              && endpoints == if !o.Failed? && moves then old(endpoints)[id := old(endpoints)[id].(circuit := HalfOpen)]
                              else old(endpoints)
    {
      var outcome := Issue();
      noRows := outcome.Ok? && (id !in endpoints || !MayProbe(endpoints[id], clock));
      if outcome.Applied() && id in endpoints {
        endpoints := endpoints[id := HalfOpenRow(endpoints[id], clock)];
      }
      err, o := noRows || !outcome.Ok?, outcome;
    }

    // ------------------------------------------------------------------------------------------------- the program

    /** How the processing of a delivery ended: the last step is the worker's, `err` says whether it failed, and if not,
        the row was concluded. */
    ghost predicate Ended(job: Job, err: bool)
      reads this
    {
      && trace.Then? && FromWorker(trace.step) && err == Progress.Faulty(trace.step)
      && (!err ==> job.id in deliveries && Concluded(job.row, deliveries[job.id]))
    }

    /** checkCircuit. */
    method CheckCircuit(id: Id, endpoint: Endpoint, ghost job: Job, ghost todo: seq<Job>, ghost from: Mark)
      returns (canSend: bool, nextRetryAt: Time, err: bool, ghost read: Time)
      requires Valid() && Since(from)
      requires phase == Busy(job, endpoint, Fetched, todo) && endpoint.active && id == job.row.endpointId
      modifies this
      ensures Valid() && Since(from) && old(clock) <= read <= clock && old(issued) <= issued && sent == old(sent)
      ensures err ==> phase == Rest(todo) && Ended(job, true) && !AllWell(fate, old(issued), issued)
      ensures !err && canSend ==>
                && phase == Busy(job, endpoint, if endpoint.circuit == Open then Cleared else Fetched, todo)
                && (endpoint.circuit == Open && endpoint.cooldownUntil.Some? ==> endpoint.cooldownUntil.value <= clock)
      ensures !err && !canSend ==>
                && phase == old(phase) && since <= read && endpoint.circuit == Open
                && endpoint.cooldownUntil == Some(nextRetryAt) && read < nextRetryAt
    {
      hide Next, Enabled, Inv, Concluded;
      read := clock;
      if endpoint.circuit != Open {
        return true, 0, false, read;
      }
      Interfere(from);
      read := clock;
      if endpoint.cooldownUntil.Some? && clock < endpoint.cooldownUntil.value {
        return false, endpoint.cooldownUntil.value, false, read;
      }
      Interfere(from);
      RunKeepsInv(config, trace);
      ghost var s := At(config, trace);
      var failed, noRows, o := MoveEndpointCircuitToHalfOpen(id);
      ProbeStep(config, s, read, o);
      RecordIn(ToHalfOpen(read, o), from);
      if failed && !noRows {
        return false, 0, true, read;
      }
      return true, 0, false, read;
    }

    /** `send`: the request goes out, and some time later there is a response or an error. */
    method SendRequest(ghost job: Job, ghost todo: seq<Job>, ghost endpoint: Endpoint, ghost from: Mark)
      returns (resp: Response)
      requires Valid() && Since(from) && phase.Busy? && Enabled(config, At(config, trace), Send)
      requires phase.job == job && phase.todo == todo && phase.ep == endpoint
      modifies this
      ensures Valid() && Since(from) && old(clock) <= clock && issued == old(issued)
      ensures sent == old(sent) + 1 && resp == answers(old(sent))
      ensures phase == Busy(job, endpoint, Answered(resp), todo)
    {
      hide Next, Enabled;
      SendStep(config, At(config, trace));
      RecordIn(Send, from);
      Interfere(from);
      resp := answers(sent);
      sent := sent + 1;
      RespondStep(config, At(config, trace), resp);
      RecordIn(Respond(resp), from);
    }

    /** The last statement of processDelivery. */
    method WriteAttempt(w: Write, job: Job, ghost read: Time, ghost delay: int, ghost from: Mark) returns (err: bool)
      requires Valid() && Since(from) && Concludes(phase) && phase.job == job && since <= read <= clock
      requires w == WriteOf(config, phase, read, delay)
      requires if Conclusion(config, phase).Retry?
               then Backoff.MayReturn(config.baseBackoff, config.maxBackoff, Max1(job.row.attemptCount + 1), delay)
               else delay == 0
      modifies this
      ensures Valid() && Since(from) && phase == Rest(old(phase).todo) && Ended(job, err)
      ensures clock == old(clock) && issued == old(issued) + 1 && sent == old(sent)
      ensures !err ==>
                var p := old(phase);
                if p.stage.Noted? then Decided(config, job.row, p.ep, p.stage.resp, deliveries[job.id], read, clock)
                else BuriedInactive(job.row, deliveries[job.id], read, clock)
      ensures err && fate(old(issued)).Ok? ==> old(phase).stage.Noted? && !StorableReply(old(phase).stage.resp)
    {
      hide Next, Enabled, Inv, WriteOf, Conclusion, Backoff.MayReturn, Decided, BuriedInactive, RequestLimit.IsRefusal;
      ghost var s := At(config, trace);
      RunKeepsInv(config, trace);
      InHand(config, s);
      ghost var o;
      err, o := UpdateDeliveryAttempt(w, job.id);
      ghost var l := Attempt(read, delay, o);
      AttemptStep(config, s, read, delay, o);
      if !err {
        if s.phase.stage.Noted? {
          AttemptIsDecided(config, s, l);
        } else {
          UnsentIsBuried(config, s, l);
        }
      } else if s.phase.stage.Noted? ==> StorableReply(s.phase.stage.resp) {
        RequestLimit.StorableIsNotRefused(config, s, l);
      }
      RecordIn(l, from);
    }

    /** markDelivered. */
    method MarkDelivered(job: Job, resp: Response, ghost endpoint: Endpoint, ghost todo: seq<Job>, ghost from: Mark)
      returns (err: bool, ghost read: Time)
      requires Valid() && Since(from) && Successful(resp)
      requires phase == Busy(job, endpoint, Noted(resp), todo)
      modifies this
      ensures Valid() && Since(from) && phase == Rest(todo) && Ended(job, err)
      ensures old(clock) <= read <= clock && issued == old(issued) + 1 && sent == old(sent)
      ensures !err ==> Decided(config, job.row, endpoint, resp, deliveries[job.id], read, clock)
      ensures err && fate(old(issued)).Ok? ==> !StorableReply(resp)
    {
      hide Next, Decided;
      var now := clock;
      read := now;
      Interfere(from);
      err := WriteAttempt(Write(Delivered, Some(resp.code), None, now, Some(now), None), job, now, 0, from);
    }

    /** deadLetter. */
    method DeadLetter(job: Job, status: Option<int>, message: Message, ghost todo: seq<Job>, ghost from: Mark)
      returns (err: bool, ghost read: Time)
      requires Valid() && Since(from) && phase.Busy? && phase.job == job && phase.todo == todo
      requires Concludes(phase) && Conclusion(config, phase).Bury?
      requires status == if phase.stage.Fetched? then None else StatusPtr(StatusOf(phase.stage.resp))
      requires message == if phase.stage.Fetched? then EndpointInactive else MessageOf(phase.stage.resp)
      modifies this
      ensures Valid() && Since(from) && phase == Rest(todo) && Ended(job, err)
      ensures old(clock) <= read <= clock && issued == old(issued) + 1 && sent == old(sent)
      ensures !err ==>
                var p := old(phase);
                if p.stage.Noted? then Decided(config, job.row, p.ep, p.stage.resp, deliveries[job.id], read, clock)
                else BuriedInactive(job.row, deliveries[job.id], read, clock)
      ensures err && fate(old(issued)).Ok? ==> old(phase).stage.Noted? && !StorableReply(old(phase).stage.resp)
    {
      hide Next, Decided, BuriedInactive;
      var now := clock;
      read := now;
      Interfere(from);
      err := WriteAttempt(Write(DeadLettered, status, NonEmpty(message), now, None, Some(now)), job, now, 0, from);
    }

    /** The retry branch of processDelivery. */
    method ScheduleRetry(job: Job, resp: Response, ghost endpoint: Endpoint, ghost todo: seq<Job>, ghost from: Mark)
      returns (err: bool, ghost read: Time)
      requires Valid() && Since(from) && phase == Busy(job, endpoint, Noted(resp), todo)
      requires Judge(config, job, endpoint, resp).Retry?
      modifies this
      ensures Valid() && Since(from) && phase == Rest(todo) && Ended(job, err)
      ensures old(clock) <= read <= clock && issued == old(issued) + 1 && sent == old(sent)
      ensures !err ==> Decided(config, job.row, endpoint, resp, deliveries[job.id], read, clock)
      ensures err && fate(old(issued)).Ok? ==> !StorableReply(resp)
    {
      hide Next, Decided;
      RunKeepsInv(config, trace);
      InHand(config, At(config, trace));
      assert RowOk(job.row, clock);
      read := clock;
      var now := clock;
      var delay := Backoff.BackoffDelay(config.baseBackoff, config.maxBackoff, job.row.attemptCount + 1);
      Interfere(from);
      var w := Write(Pending, StatusPtr(StatusOf(resp)), Some(MessageOf(resp)), now + delay, None, None);
      err := WriteAttempt(w, job, read, delay, from);
    }

    /** The success's record on the endpoint. */
    method NoteSuccessNow(
      job: Job, ghost resp: Response, ghost endpoint: Endpoint, ghost todo: seq<Job>, ghost from: Mark)
      returns (err: bool, ghost before: Endpoint)
      requires Valid() && Since(from) && phase == Busy(job, endpoint, Answered(resp), todo)
      requires Successful(resp)
      modifies this
      ensures Valid() && Since(from) && old(clock) <= clock && issued == old(issued) + 1 && sent == old(sent)
      ensures phase == if err then Rest(todo) else Busy(job, endpoint, Noted(resp), todo)
      ensures err ==> Ended(job, true) && !fate(old(issued)).Ok?
      ensures !err ==>
                && job.row.endpointId in endpoints
                && Told(config, before, resp, endpoints[job.row.endpointId], clock, clock)
    {
      hide Next, Enabled, Inv, Concluded;
      Interfere(from);
      RunKeepsInv(config, trace);
      ghost var s := At(config, trace);
      SuccessStep(config, s, Ok);
      before := endpoints[job.row.endpointId];
      ghost var o;
      err, o := MarkEndpointDeliverySuccess(job.row.endpointId);
      SuccessStep(config, s, o);
      RecordIn(NoteSuccess(o), from);
    }

    /** The failure's record on the endpoint, with the cooldown counted from a clock reading before the statement. */
    method NoteFailureNow(
      job: Job, ghost resp: Response, ghost endpoint: Endpoint, ghost todo: seq<Job>, ghost from: Mark)
      returns (err: bool, ghost before: Endpoint, ghost read: Time)
      requires Valid() && Since(from) && phase == Busy(job, endpoint, Answered(resp), todo)
      requires !Successful(resp)
      modifies this
      ensures Valid() && Since(from) && old(clock) <= read <= clock && issued == old(issued) + 1 && sent == old(sent)
      ensures phase == if err then Rest(todo) else Busy(job, endpoint, Noted(resp), todo)
      ensures err ==> Ended(job, true) && !fate(old(issued)).Ok?
      ensures !err ==>
                && job.row.endpointId in endpoints
                && Told(config, before, resp, endpoints[job.row.endpointId], read, clock)
    {
      hide Next, Enabled, Inv, Concluded;
      read := clock;
      var cooldownUntil := clock + config.circuitCooldown;
      Interfere(from);
      RunKeepsInv(config, trace);
      ghost var s := At(config, trace);
      FailureStep(config, s, read, Ok);
      before := endpoints[job.row.endpointId];
      ghost var o;
      err, o := MarkEndpointDeliveryFailure(config.circuitThreshold, cooldownUntil, job.row.endpointId);
      FailureStep(config, s, read, o);
      RecordIn(NoteFailure(read, o), from);
    }

    /** processDelivery after `send`. */
    method HandleResponse(
      job: Job, resp: Response, endpoint: Endpoint, ghost todo: seq<Job>, ghost from: Mark)
      returns (err: bool, ghost read: Time)
      requires Valid() && Since(from) && phase == Busy(job, endpoint, Answered(resp), todo)
      modifies this
      ensures Valid() && Since(from) && phase == Rest(todo) && Ended(job, err)
      ensures old(clock) <= clock && old(issued) <= issued && sent == old(sent)
      ensures !err ==> old(clock) <= read <= clock
      ensures !err ==> Decided(config, job.row, endpoint, resp, deliveries[job.id], read, clock)
      ensures err && AllWell(fate, old(issued), issued) ==> !StorableReply(resp)
    {
      hide Next, Decided, Told;
      read := clock;
      var failed: bool;
      ghost var before, noted;
      if resp.Http? && resp.code >= 200 && resp.code <= 299 {
        failed, before := NoteSuccessNow(job, resp, endpoint, todo, from);
        if failed {
          return true, read;
        }
        Interfere(from);
        err, read := MarkDelivered(job, resp, endpoint, todo, from);
        return;
      }
      var message := MessageOf(resp);
      var retryable := resp.NoResponse? || RetryableStatus(StatusOf(resp));
      var attemptsAfterThisFailure := job.row.attemptCount + 1;
      var maxAttempts := endpoint.maxAttempts;
      if maxAttempts <= 0 {
        maxAttempts := config.defaultMaxAttempts;
      }
      failed, before, noted := NoteFailureNow(job, resp, endpoint, todo, from);
      if failed {
        return true, read;
      }
      Interfere(from);
      if !retryable || attemptsAfterThisFailure >= maxAttempts {
        err, read := DeadLetter(job, StatusPtr(StatusOf(resp)), message, todo, from);
        return;
      }
      err, read := ScheduleRetry(job, resp, endpoint, todo, from);
    }

    /** Defers the delivery to the cooldown that checkCircuit returned. */
    method Defer(
      job: Job, nextRetryAt: Time, ghost endpoint: Endpoint, ghost read: Time, ghost todo: seq<Job>, ghost from: Mark)
      returns (err: bool)
      requires Valid() && Since(from) && phase == Busy(job, endpoint, Fetched, todo) && endpoint.active
      requires since <= read <= clock && endpoint.circuit == Open
      requires endpoint.cooldownUntil == Some(nextRetryAt) && read < nextRetryAt
      modifies this
      ensures Valid() && Since(from) && phase == Rest(todo) && Ended(job, err)
      ensures old(clock) <= clock && issued == old(issued) + 1 && sent == old(sent)
      ensures !err ==> PutOff(job.row, endpoint, deliveries[job.id])
      ensures err ==> !fate(old(issued)).Ok?
    {
      hide Next, Enabled, Inv;
      Interfere(from);
      RunKeepsInv(config, trace);
      ghost var s := At(config, trace);
      RescheduleStep(config, s, read, Ok);
      ghost var o;
      err, o := RescheduleDelivery(nextRetryAt, CircuitOpen, job.id);
      RescheduleStep(config, s, read, o);
      RecordIn(Reschedule(read, o), from);
    }

    /** The two reads at the head of processDelivery. */
    method ReadEventAndEndpoint(job: Job, ghost todo: seq<Job>, ghost from: Mark) returns (row: Option<Endpoint>)
      requires Valid() && Since(from) && phase == Working([job] + todo)
      modifies this
      ensures Valid() && Since(from) && old(clock) <= clock && old(issued) <= issued && sent == old(sent)
      ensures phase == if row.Some? then Busy(job, row.value, Fetched, todo) else Rest(todo)
      ensures row.None? ==> Ended(job, true) && !AllWell(fate, old(issued), issued)
      ensures row.Some? ==> WasRead(config, trace, job.id, row.value) && issued == old(issued) + 2
    {
      hide Next, Enabled, Inv, Concluded;
      assert ([job] + todo)[1..] == todo;
      RunKeepsInv(config, trace);
      FetchStep(config, At(config, trace));
      var failed := GetEventByID(job.row.eventId);
      if failed {
        RecordIn(Skip, from);
        return None;
      }
      Interfere(from);
      RunKeepsInv(config, trace);
      FetchStep(config, At(config, trace));
      row := GetEndpointByID(job.row.endpointId);
      if row.None? {
        RecordIn(Skip, from);
      } else {
        RecordIn(Fetch, from);
      }
    }

    /** processDelivery once the endpoint is read. */
    method ProcessWith(job: Job, endpoint: Endpoint, ghost todo: seq<Job>, ghost from: Mark)
      returns (err: bool, ghost read: Time)
      requires Valid() && Since(from) && phase == Busy(job, endpoint, Fetched, todo)
      modifies this
      ensures Valid() && Since(from) && phase == Rest(todo) && Ended(job, err)
      ensures old(clock) <= clock && old(issued) <= issued && old(sent) <= sent
      ensures !err ==>
                && old(clock) <= read <= clock
                && Processed(config, job.row, endpoint, sent - old(sent), answers(old(sent)), deliveries[job.id], read,
                             clock)
      ensures err && AllWell(fate, old(issued), issued) ==> old(sent) < sent && !StorableReply(answers(old(sent)))
    {
      hide Next, Decided, BuriedInactive, PutOff;
      read := clock;
      if !endpoint.active {
        err, read := DeadLetter(job, None, EndpointInactive, todo, from);
        return;
      }
      var canSend, nextRetryAt, failed, checked := CheckCircuit(job.row.endpointId, endpoint, job, todo, from);
      if failed {
        return true, read;
      }
      if !canSend {
        read := checked;
        err := Defer(job, nextRetryAt, endpoint, checked, todo, from);
        return;
      }
      var resp := SendRequest(job, todo, endpoint, from);
      err, read := HandleResponse(job, resp, endpoint, todo, from);
    }

    /** processDelivery. The delivery is let go, with an error exactly if the last statement failed. Without one its row
        is what the endpoint row that was read and the reply to the request make of it; and if no statement fails, there
        is none, unless the reply is one that the table refuses. */
    method ProcessDelivery(job: Job, ghost todo: seq<Job>, ghost from: Mark)
      returns (err: bool, ghost endpoint: Option<Endpoint>, ghost read: Time)
      requires Valid() && Since(from) && phase == Working([job] + todo)
      modifies this
      ensures Valid() && Since(from) && phase == Rest(todo) && Ended(job, err)
      ensures old(clock) <= clock && old(issued) <= issued && old(sent) <= sent
      ensures !err ==>
                && endpoint.Some? && WasRead(config, trace, job.id, endpoint.value) && old(clock) <= read <= clock
                && Processed(config, job.row, endpoint.value, sent - old(sent), answers(old(sent)), deliveries[job.id],
                             read, clock)
      ensures err && AllWell(fate, old(issued), issued) ==> old(sent) < sent && !StorableReply(answers(old(sent)))
    {
      hide Next, Processed, WasRead;
      read := clock;
      var row := ReadEventAndEndpoint(job, todo, from);
      endpoint := row;
      if row.None? {
        return true, None, read;
      }
      ghost var middle := Mark(trace, issued);
      err, read := ProcessWith(job, row.value, todo, middle);
      SinceThen(from, middle);
      SameTickExtends(middle.trace, trace);
      ReadStays(config, middle.trace, trace, job.id, row.value);
    }

    /** What a claim returns, by the row it leaves. */
    ghost predicate Claimed(jobs: seq<Job>, ids: seq<Id>)
      reads this
    {
      && |jobs| == |ids|
      && (forall d | d in ids :: d in deliveries)
      && (forall i | 0 <= i < |jobs| :: jobs[i].id == ids[i] && jobs[i].row == deliveries[ids[i]])
      && (forall i, j | 0 <= i < j < |jobs| :: jobs[i].id != jobs[j].id)
    }

    /** The second statement of tick. */
    method ClaimBatch() returns (jobs: seq<Job>, err: bool)
      requires Valid() && phase == Claiming
      modifies this
      ensures Valid() && trace.Then? && trace.prev == old(trace) && trace.step.Claim?
      ensures err == Progress.Faulty(trace.step) && phase == if err then Idle else Rest(jobs)
      ensures !err ==> Claimed(jobs, trace.step.ids)
      ensures issued == old(issued) + 1 && sent == old(sent) && (fate(old(issued)).Ok? ==> !err)
    {
      hide Next, Enabled, IsClaim, ClaimRows, Jobs;
      ghost var s := At(config, trace);
      ghost var ids, o;
      jobs, err, ids, o := ClaimPendingDeliveriesForWorker(config.batchSize);
      ClaimStep(config, s, ids, o);
      Record(Claim(ids, o));
    }

    /** The two statements at the head of tick. An empty batch leaves nothing to do. */
    method ResetAndClaim() returns (jobs: seq<Job>, err: bool)
      requires Valid() && phase == Idle
      modifies this
      ensures Valid() && TickHead(old(trace), trace) && err == Progress.Faulty(trace.step)
      ensures phase == if err then Idle else Rest(jobs)
      ensures !err ==> trace.step.Claim? && Claimed(jobs, trace.step.ids)
      ensures old(issued) <= issued && sent == old(sent)
      ensures AllWell(fate, old(issued), issued) ==> !err && FaultFree(config, old(trace), trace)
    {
      hide Next, Enabled, ResetStale, Claimed;
      jobs := [];
      ghost var s := At(config, trace);
      ghost var o;
      err, o := ResetStaleDelivering(config.staleAfter / MILLISECOND);
      ResetStep(config, s, o);
      Record(Reset(o));
      if !err {
        ghost var middle := Mark(trace, issued);
        Interfere(middle);
        jobs, err := ClaimBatch();
        if AllWell(fate, old(issued), issued) {
          FaultFreeTransitive(config, old(trace), middle.trace, trace.prev);
        }
      }
    }

    /** One round of the loop in tick. */
    method ProcessItem(jobs: seq<Job>, i: nat, ghost start: Mark, ghost firstSent: nat)
      requires Valid() && Since(start) && i < |jobs| && phase == Rest(jobs[i..]) && firstSent <= sent
      requires forall j, k | 0 <= j < k < |jobs| :: jobs[j].id != jobs[k].id
      requires AllWell(fate, start.issued, issued) && AllStorable(firstSent, sent)
               ==> FirstConcluded(jobs, deliveries, i)
      modifies this
      ensures Valid() && Since(start) && phase == Rest(jobs[i + 1..]) && old(sent) <= sent
      ensures AllWell(fate, start.issued, issued) && AllStorable(firstSent, sent)
              ==> FirstConcluded(jobs, deliveries, i + 1)
    {
      hide Next, Enabled, Progress.Faulty, Processed, FirstConcluded, WasRead, Concluded;
      ghost var middle := Mark(trace, issued);
      Interfere(middle);
      assert jobs[i..] == [jobs[i]] + jobs[i + 1..];
      ghost var sentBefore := sent;
      var failed, endpoint, read := ProcessDelivery(jobs[i], jobs[i + 1..], middle);
      SinceThen(start, middle);
      if AllWell(fate, start.issued, issued) && AllStorable(firstSent, sent) {
        assert AllStorable(firstSent, sentBefore);
        OneMoreConcluded(jobs, i, middle.trace);
      }
    }

    /** tick. Up to `head` it resets and claims, and an error means that one of the two failed. Otherwise every claimed
        delivery has been dealt with: it was concluded, or, if a statement on it failed, its row may be as the claim
        left it. What was final stays as it was. And if no statement fails, there is no error, no step has failed but
        refused writes, and with replies that can be stored every claimed delivery is concluded. */
    method Tick() returns (err: bool, ghost head: Trace)
      requires Valid() && phase == Idle
      modifies this
      ensures Valid() && phase == Idle
      ensures TickHead(old(trace), head) && SameTick(head, trace) && err == Progress.Faulty(head.step)
      ensures Extends(old(trace), trace) && Resets(trace) == Resets(old(trace)) + 1
      ensures Run(config, head) && (!err ==> head.step.Claim? && BatchDone(head))
      ensures forall d | d in old(deliveries) && old(deliveries[d].status.Terminal()) ::
                d in deliveries && deliveries[d] == old(deliveries[d])
      ensures old(issued) <= issued && old(sent) <= sent
      ensures AllWell(fate, old(issued), issued) ==> !err && FaultFree(config, old(trace), trace)
      ensures AllWell(fate, old(issued), issued) && AllStorable(old(sent), sent) ==> BatchConcluded(head)
    {
      hide Next, Enabled, Progress.Faulty, FirstConcluded, Concluded;
      ghost var before := trace;
      var jobs;
      jobs, err := ResetAndClaim();
      head := trace;
      ghost var start := Mark(trace, issued);
      if !err {
        NoneConcluded(jobs, deliveries);
        for i := 0 to |jobs|
          invariant Valid() && Since(start) && phase == Rest(jobs[i..]) && old(sent) <= sent
          invariant AllWell(fate, start.issued, issued) && AllStorable(old(sent), sent)
                    ==> FirstConcluded(jobs, deliveries, i)
        {
          ProcessItem(jobs, i, start, old(sent));
        }
        assert jobs[|jobs|..] == [];
        BatchIsDone(head);
        if AllWell(fate, start.issued, issued) && AllStorable(old(sent), sent) {
          AllConcluded(jobs, head);
        }
      }
      WholeTickExtends(before, head, trace);
      TerminalRowsKept(before);
      if AllWell(fate, old(issued), issued) {
        FaultFreeTransitive(config, before, head, trace);
      }
    }

    /** These requests get replies that can be stored. */
    ghost predicate AllStorable(from: nat, to: nat) {
      forall n: nat | from <= n < to :: StorableReply(answers(n))
    }

    /** The first i jobs are concluded. */
    ghost predicate FirstConcluded(jobs: seq<Job>, rows: Deliveries, i: nat) {
      forall k | 0 <= k < |jobs| && k < i :: jobs[k].id in rows && Concluded(jobs[k].row, rows[jobs[k].id])
    }

    lemma {:induction false} NoneConcluded(jobs: seq<Job>, rows: Deliveries)
      ensures FirstConcluded(jobs, rows, 0)
    {
    }

    /** Those that were concluded stay as they are while the next is processed. */
    lemma {:induction false} OneMoreConcluded(jobs: seq<Job>, i: nat, middle: Trace)
      requires Valid() && Run(config, middle) && SameTick(middle, trace) && i < |jobs|
      requires At(config, middle).phase == Rest(jobs[i..])
      requires forall j, k | 0 <= j < k < |jobs| :: jobs[j].id != jobs[k].id
      requires FirstConcluded(jobs, At(config, middle).rows, i) && Ended(jobs[i], false)
      ensures FirstConcluded(jobs, deliveries, i + 1)
    {
      hide Next, Concluded, Progress.Faulty;
      SameTickExtends(middle, trace);
      forall k | 0 <= k < i
        ensures jobs[k].id in deliveries && Concluded(jobs[k].row, deliveries[jobs[k].id])
      {
        assert forall j | 0 <= j < |jobs[i..]| :: jobs[i..][j] == jobs[i + j];
        assert !InBatch(At(config, middle).phase, jobs[k].id);
        OutOfBatchStays(config, middle, trace, jobs[k].id);
      }
    }

    lemma {:induction false} AllConcluded(jobs: seq<Job>, head: Trace)
      requires Run(config, head) && head.Then? && head.step.Claim? && |jobs| == |head.step.ids|
      requires forall i | 0 <= i < |jobs| ::
                 && jobs[i].id == head.step.ids[i] && jobs[i].id in At(config, head).rows
                 && jobs[i].row == At(config, head).rows[jobs[i].id]
      requires FirstConcluded(jobs, deliveries, |jobs|)
      ensures BatchConcluded(head)
    {
      forall d | d in head.step.ids
        ensures d in At(config, head).rows && d in deliveries
        ensures Concluded(At(config, head).rows[d], deliveries[d])
      {
        var i :| 0 <= i < |jobs| && head.step.ids[i] == d;
        assert jobs[i].id == d;
      }
    }

    /** Every row that the claim `head` took is concluded from what it left. */
    ghost predicate BatchConcluded(head: Trace)
      requires Run(config, head) && head.Then? && head.step.Claim?
      reads this
    {
      forall d | d in head.step.ids ::
        d in At(config, head).rows && d in deliveries && Concluded(At(config, head).rows[d], deliveries[d])
    }

    /** Every row that the claim `head` took is as it left it, or concluded from that. */
    ghost predicate BatchDone(head: Trace)
      requires Run(config, head) && head.Then? && head.step.Claim?
      reads this
    {
      forall d | d in head.step.ids ::
        && d in At(config, head).rows && d in deliveries
        && (deliveries[d] == At(config, head).rows[d] || Concluded(At(config, head).rows[d], deliveries[d]))
    }

    lemma {:induction false} BatchIsDone(head: Trace)
      requires Valid() && Run(config, head) && head.Then? && head.step.Claim? && SameTick(head, trace)
      requires forall d | d in head.step.ids :: d in At(config, head).rows
      ensures BatchDone(head)
    {
      hide Next;
      SameTickExtends(head, trace);
      forall d | d in head.step.ids
        ensures d in deliveries
        ensures deliveries[d] == At(config, head).rows[d] || Concluded(At(config, head).rows[d], deliveries[d])
      {
        BatchFate(config, head, trace, d);
      }
    }

    lemma {:induction false} TerminalRowsKept(from: Trace)
      requires Valid() && Run(config, from) && Extends(from, trace)
      ensures var before := At(config, from).rows;
              forall d | d in before && before[d].status.Terminal() :: d in deliveries && deliveries[d] == before[d]
    {
      var before := At(config, from).rows;
      forall d | d in before && before[d].status.Terminal()
        ensures d in deliveries && deliveries[d] == before[d]
      {
        TerminalIsFinal(config, from, trace, d);
      }
    }

    /** Run, for some number of ticks. After each, the process may have stopped and been started again. */
    method Serve(ticks: nat)
      requires Valid() && phase == Idle
      modifies this
      ensures Valid() && phase == Idle
      ensures Extends(old(trace), trace) && Resets(trace) == Resets(old(trace)) + ticks
    {
      for i := 0 to ticks
        invariant Valid() && phase == Idle
        invariant Extends(old(trace), trace) && Resets(trace) == Resets(old(trace)) + i
      {
        ghost var earlier := trace;
        var failed, head := Tick();
        ExtendsTransitive(old(trace), earlier, trace);
        earlier := trace;
        Interfere(Mark(trace, issued));
        SameTickExtends(earlier, trace);
        ExtendsTransitive(old(trace), earlier, trace);
        var stopped: bool := *;
        if stopped {
          Record(Crash);
        }
      }
    }
  }
}
