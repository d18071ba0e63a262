/** What every reachable state of the single-worker protocol satisfies, with failing statements, lost replies and
    crashes included. */
module Invariant {
  import opened Tables
  import opened Settings
  import opened Breaker
  import opened Protocol

  predicate RowOk(row: Delivery, now: Time) {
    && 0 <= row.attemptCount <= 20
    && (!row.status.Terminal() ==> row.attemptCount <= 19)
    && (row.deliveredAt.Some? <==> row.status.Delivered?)
    && (row.deadLetteredAt.Some? <==> row.status.DeadLettered?)
    && (row.status.Delivering? ==> row.lastAttemptedAt.Some? && row.nextRetryAt <= row.lastAttemptedAt.value)
    && (row.lastAttemptedAt.Some? ==> row.lastAttemptedAt.value <= now)
    && (row.deadLetteredAt.Some? ==> row.deadLetteredAt.value <= now)
    && Storable(row.lastHttpStatus)
    && (row.status.Delivered? ==> row.lastHttpStatus.Some? && 200 <= row.lastHttpStatus.value <= 299)
  }

  predicate EndpointOk(cfg: Config, ep: Endpoint, now: Time) {
    && Consistent(ep, cfg.circuitThreshold)
    && ValidLimits(ep.topics, ep.maxAttempts, ep.timeoutMs)
    && (ep.cooldownUntil.Some? ==> ep.cooldownUntil.value <= now + cfg.circuitCooldown)
  }

  /** The worker's copy of a claimed row is still what the table holds. */
  predicate Owned(s: State, job: Job) {
    && job.id in s.rows
    && s.rows[job.id] == job.row
    && job.row.status.Delivering?
    && job.row.lastAttemptedAt.Some?
    && job.row.lastAttemptedAt.value <= s.since
  }

  predicate HoldOk(s: State) {
    var held := Held(s.phase);
    && (forall i | 0 <= i < |held| :: Owned(s, held[i]))
    && (forall i, j | 0 <= i < j < |held| :: held[i].id != held[j].id)
    && (s.phase.Working? ==> s.phase.todo != [])
  }

  /** While a delivery is processed nobody else changes its endpoint's breaker. */
  predicate StageOk(cfg: Config, s: State) {
    s.phase.Busy? ==>
      var e, ep, stage := s.phase.job.row.endpointId, s.phase.ep, s.phase.stage;
      && e in s.eps
      && Consistent(ep, cfg.circuitThreshold)
      && 1 <= ep.maxAttempts <= 20
      && (!stage.Fetched? ==> ep.active)
      && (stage.Fetched? ==> SameBreaker(ep, s.eps[e]))
      && (stage.Cleared? ==> s.eps[e].circuit.HalfOpen?)
      && (stage.Sending? || stage.Answered? ==> !s.eps[e].circuit.Open?)
      && (stage.Answered? || stage.Noted? ==> PossibleResponse(stage.resp))
      && (stage.Noted? && s.eps[e].circuit.Open? ==>
            s.eps[e].cooldownUntil.Some? && s.eps[e].cooldownUntil.value > s.phase.job.row.nextRetryAt)
  }

  ghost predicate Inv(cfg: Config, s: State) {
    && s.since <= s.now
    && (forall e | e in s.eps :: EndpointOk(cfg, s.eps[e], s.now))
    && (forall d | d in s.rows :: s.rows[d].endpointId in s.eps && RowOk(s.rows[d], s.now))
    && HoldOk(s)
    && StageOk(cfg, s)
  }

  /** The row a delivery has after the step, spelled out per delivery. */
  function RowAfter(cfg: Config, s: State, l: Label, d: Id): Delivery
    requires Enabled(cfg, s, l) && d in s.rows
  {
    match l
    case Reset(o) =>
      if o.Applied() && Stale(s.rows[d], s.now, StaleWindow(cfg)) then ResetRow(s.rows[d], s.now) else s.rows[d]
    case Claim(ids, o) => if o.Applied() && d in ids then ClaimRow(s.rows[d], s.now) else s.rows[d]
    case Reschedule(_, o) =>
      if o.Applied() && d == s.phase.job.id
      then RescheduleRow(s.rows[d], s.phase.ep.cooldownUntil.value, CircuitOpen) else s.rows[d]
    case Attempt(read, delay, o) =>
      if o.Applied() && d == s.phase.job.id
      then AttemptRow(s.rows[d], WriteOf(cfg, s.phase, read, delay), s.now) else s.rows[d]
    case _ => s.rows[d]
  }

  lemma {:induction false} NextRow(cfg: Config, s: State, l: Label, d: Id)
    requires Enabled(cfg, s, l) && d in s.rows
    ensures d in Next(cfg, s, l).rows && Next(cfg, s, l).rows[d] == RowAfter(cfg, s, l, d)
  {
  }

  /** A row that the step does not insert was there before. */
  lemma {:induction false} NextRowOrigin(cfg: Config, s: State, l: Label, d: Id)
    requires Enabled(cfg, s, l) && d in Next(cfg, s, l).rows && d !in s.rows
    ensures l.Insert? && d in l.refs && l.stamp <= s.now
    ensures Next(cfg, s, l).rows[d] == NewDelivery(l.refs[d].eventId, l.refs[d].endpointId, l.stamp)
  {
  }

  /** The endpoint row an endpoint has after the step. */
  function EndpointAfter(cfg: Config, s: State, l: Label, e: Id): Endpoint
    requires Enabled(cfg, s, l) && e in s.eps
  {
    match l
    case EditEndpoint(x, topics, active, maxAttempts, timeoutMs) =>
      if x == e then EditRow(s.eps[e], topics, active, maxAttempts, timeoutMs) else s.eps[e]
    case ToHalfOpen(_, o) =>
      if o.Applied() && e == s.phase.job.row.endpointId then HalfOpenRow(s.eps[e], s.now) else s.eps[e]
    case NoteSuccess(o) =>
      if o.Applied() && e == s.phase.job.row.endpointId then SuccessRow(s.eps[e]) else s.eps[e]
    case NoteFailure(read, o) =>
      if o.Applied() && e == s.phase.job.row.endpointId
      then FailureRow(s.eps[e], cfg.circuitThreshold, s.now, read + cfg.circuitCooldown) else s.eps[e]
    case _ => s.eps[e]
  }

  lemma {:induction false} NextEndpoint(cfg: Config, s: State, l: Label, e: Id)
    requires Enabled(cfg, s, l) && e in s.eps && l != DropEndpoint(e)
    ensures e in Next(cfg, s, l).eps && Next(cfg, s, l).eps[e] == EndpointAfter(cfg, s, l, e)
  {
  }

  lemma {:induction false} NextClock(cfg: Config, s: State, l: Label)
    requires Enabled(cfg, s, l) && s.since <= s.now
    ensures var t := Next(cfg, s, l);
            && s.now <= t.now && s.since <= t.since
            && (FromWorker(l) ==> t.now == s.now == t.since)
  {
  }

  /** A delivery in progress after the step was just fetched, or was in progress before with the same snapshots. */
  lemma {:induction false} NextBusy(cfg: Config, s: State, l: Label)
    requires Enabled(cfg, s, l) && Next(cfg, s, l).phase.Busy?
    ensures var p, q := s.phase, Next(cfg, s, l).phase;
            if l.Fetch? then
              && p.Working? && p.todo != [] && q.job == p.todo[0] && q.stage.Fetched?
              && q.job.row.endpointId in s.eps && q.ep == s.eps[q.job.row.endpointId]
            else
              && p.Busy? && q.job == p.job && q.ep == p.ep && q.todo == p.todo
              && (q.stage.Answered? || q.stage.Noted? ==>
                    l == Respond(q.stage.resp)
                    || ((p.stage.Answered? || p.stage.Noted?) && p.stage.resp == q.stage.resp))
  {
  }

  // ---------------------------------------------------------------------------------------------------- preservation

  lemma {:induction false} RowStaysOk(cfg: Config, s: State, l: Label, d: Id)
    requires Normal(cfg) && Inv(cfg, s) && Enabled(cfg, s, l) && d in s.rows
    ensures RowOk(RowAfter(cfg, s, l, d), Next(cfg, s, l).now)
  {
    if s.phase.Busy? {
      assert Owned(s, Held(s.phase)[0]);
    }
    if l.Claim? && d in l.ids {
      var i :| 0 <= i < |l.ids| && l.ids[i] == d;
    }
  }

  lemma {:induction false} EndpointStaysOk(cfg: Config, s: State, l: Label, e: Id)
    requires Normal(cfg) && Inv(cfg, s) && Enabled(cfg, s, l) && e in s.eps && l != DropEndpoint(e)
    ensures EndpointOk(cfg, EndpointAfter(cfg, s, l, e), Next(cfg, s, l).now)
  {
  }

  lemma {:induction false} EndpointsStayOk(cfg: Config, s: State, l: Label)
    requires Normal(cfg) && Inv(cfg, s) && Enabled(cfg, s, l)
    ensures var t := Next(cfg, s, l); forall e | e in t.eps :: EndpointOk(cfg, t.eps[e], t.now)
  {
    var t := Next(cfg, s, l);
    forall e | e in t.eps
      ensures EndpointOk(cfg, t.eps[e], t.now)
    {
      if e in s.eps {
        NextEndpoint(cfg, s, l, e);
        EndpointStaysOk(cfg, s, l, e);
      }
    }
  }

  lemma {:induction false} RowsStayOk(cfg: Config, s: State, l: Label)
    requires Normal(cfg) && Inv(cfg, s) && Enabled(cfg, s, l)
    ensures var t := Next(cfg, s, l); forall d | d in t.rows :: t.rows[d].endpointId in t.eps && RowOk(t.rows[d], t.now)
  {
    var t := Next(cfg, s, l);
    forall d | d in t.rows
      ensures t.rows[d].endpointId in t.eps && RowOk(t.rows[d], t.now)
    {
      if d in s.rows {
        NextRow(cfg, s, l, d);
        RowStaysOk(cfg, s, l, d);
        NextEndpoint(cfg, s, l, s.rows[d].endpointId);
      } else {
        NextRowOrigin(cfg, s, l, d);
        NextEndpoint(cfg, s, l, t.rows[d].endpointId);
      }
    }
  }

  lemma {:induction false} HandLetGo(cfg: Config, s: State, l: Label)
    requires Enabled(cfg, s, l) && (l.Attempt? || l.Reschedule?)
    ensures Held(Next(cfg, s, l).phase) == s.phase.todo
  {
  }

  /** A claimed delivery that the step leaves in the batch keeps its row. */
  lemma {:induction false} HeldRowUntouched(cfg: Config, s: State, l: Label, job: Job)
    requires Normal(cfg) && Inv(cfg, s) && Enabled(cfg, s, l)
    requires job in Held(s.phase) && job in Held(Next(cfg, s, l).phase)
    ensures Owned(Next(cfg, s, l), job)
  {
    hide Next, WriteOf, Judge, EndpointOk, RowOk, StageOk, IsClaim, Jobs;
    var i :| 0 <= i < |Held(s.phase)| && Held(s.phase)[i] == job;
    assert Owned(s, job);
    NextRow(cfg, s, l, job.id);
    NextClock(cfg, s, l);
    if l.Attempt? || l.Reschedule? {
      HandLetGo(cfg, s, l);
      var j :| 0 <= j < |s.phase.todo| && s.phase.todo[j] == job;
      assert Held(s.phase)[0] == s.phase.job;
      assert Held(s.phase)[j + 1] == job;
    }
  }

  lemma {:induction false} ClaimedBatchOk(cfg: Config, s: State, l: Label)
    requires Normal(cfg) && Inv(cfg, s) && Enabled(cfg, s, l) && l.Claim?
    ensures HoldOk(Next(cfg, s, l))
  {
    var t := Next(cfg, s, l);
    if l.outcome.Ok? {
      var held := Held(t.phase);
      assert held == Jobs(s.rows, l.ids, s.now);
      forall i | 0 <= i < |held|
        ensures Owned(t, held[i])
      {
        assert l.ids[i] in s.rows;
      }
    }
  }

  /** No step but a claim puts anything into the batch. */
  lemma {:induction false} BatchOnlyShrinks(cfg: Config, s: State, l: Label)
    requires HoldOk(s) && Enabled(cfg, s, l) && !l.Claim?
    ensures var before, p := Held(s.phase), Next(cfg, s, l).phase;
            && (Held(p) == [] || Held(p) == before || (before != [] && Held(p) == before[1..]))
            && (p.Working? ==> p.todo != [])
  {
  }

  lemma {:induction false} HoldStaysOk(cfg: Config, s: State, l: Label)
    requires Normal(cfg) && Inv(cfg, s) && Enabled(cfg, s, l)
    ensures HoldOk(Next(cfg, s, l))
  {
    hide Next;
    if l.Claim? {
      ClaimedBatchOk(cfg, s, l);
    } else {
      BatchOnlyShrinks(cfg, s, l);
      var held := Held(Next(cfg, s, l).phase);
      forall i | 0 <= i < |held|
        ensures Owned(Next(cfg, s, l), held[i])
      {
        HeldRowUntouched(cfg, s, l, held[i]);
      }
    }
  }

  lemma {:induction false} StageStaysOk(cfg: Config, s: State, l: Label)
    requires Normal(cfg) && Inv(cfg, s) && Enabled(cfg, s, l)
    ensures StageOk(cfg, Next(cfg, s, l))
  {
    var t := Next(cfg, s, l);
    if t.phase.Busy? {
      var e := t.phase.job.row.endpointId;
      if l.Fetch? {
        assert EndpointOk(cfg, s.eps[e], s.now);
      } else {
        assert Owned(s, Held(s.phase)[0]);
        assert EndpointOk(cfg, s.eps[e], s.now);
        NextEndpoint(cfg, s, l, e);
      }
    }
  }

  lemma {:induction false} StepKeepsInv(cfg: Config, s: State, l: Label)
    requires Normal(cfg) && Inv(cfg, s) && Enabled(cfg, s, l)
    ensures Inv(cfg, Next(cfg, s, l))
  {
    EndpointsStayOk(cfg, s, l);
    RowsStayOk(cfg, s, l);
    HoldStaysOk(cfg, s, l);
    StageStaysOk(cfg, s, l);
  }

  /** Every reachable state satisfies the invariant. */
  lemma {:induction false} RunKeepsInv(cfg: Config, t: Trace)
    requires Normal(cfg) && Run(cfg, t)
    ensures Inv(cfg, At(cfg, t))
  {
    if t.Start? {
    } else {
      RunKeepsInv(cfg, t.prev);
      StepKeepsInv(cfg, At(cfg, t.prev), t.step);
    }
  }
}
