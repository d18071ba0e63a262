/** The protocol's steps in the columns of the tables, with every status, comparison and value written out: the meaning
    that the functions behind the protocol have to have. */
module Verdicts {
  import opened Collections
  import opened Tables
  import opened Settings
  import opened Breaker
  import opened Protocol
  import opened Invariant
  import opened Ledger
  import opened Claims
  import Backoff

  // --------------------------------------------------------------------------------------------------------- replies

  /** What the reply to a request makes of its delivery. The attempt is decided with the clock at `read` and written at
      `now`. */
  ghost predicate Decided(
    cfg: Config, before: Delivery, ep: Endpoint, resp: Response, after: Delivery, read: Time, now: Time)
  {
    && after.eventId == before.eventId && after.endpointId == before.endpointId
    && after.attemptCount == before.attemptCount + 1 && after.lastAttemptedAt == Some(now)
    && after.lastHttpStatus == (if resp.NoResponse? || resp.code == 0 then None else Some(resp.code))
    && if resp.Http? && 200 <= resp.code <= 299 then
         && after.status.Delivered? && after.deliveredAt == Some(read) && after.deadLetteredAt.None?
         && after.nextRetryAt == read && after.lastError.None?
       else if (resp.NoResponse? || resp.code == 0 || resp.code == 408 || resp.code == 429 || resp.code >= 500)
               && before.attemptCount + 1 < ep.maxAttempts then
         && after.status.Pending? && after.deliveredAt.None? && after.deadLetteredAt.None?
         && 1 <= after.attemptCount
         && Backoff.MayReturn(cfg.baseBackoff, cfg.maxBackoff, after.attemptCount, after.nextRetryAt - read)
         && after.lastError == Some(if resp.NoResponse? then TransportError(resp.text) else HttpReturned(resp.code))
       else
         && after.status.DeadLettered? && after.deliveredAt.None? && after.deadLetteredAt == Some(read)
         && after.nextRetryAt == read
         && after.lastError == (if resp.NoResponse? then
                                  (if resp.text == [] then None else Some(TransportError(resp.text)))
                                else Some(HttpReturned(resp.code)))
  }

  /** The row of a delivery whose endpoint is not active, after the attempt that buries it. */
  predicate BuriedInactive(before: Delivery, after: Delivery, read: Time, now: Time) {
    after == Delivery(before.eventId, before.endpointId, DeadLettered, before.attemptCount + 1, read, None,
                      Some(EndpointInactive), Some(now), None, Some(read))
  }

  /** The row of a delivery that waits for the end of its endpoint's cooldown. */
  predicate PutOff(before: Delivery, ep: Endpoint, after: Delivery) {
    && ep.circuit == Open && ep.cooldownUntil.Some?
    && after == Delivery(before.eventId, before.endpointId, Pending, before.attemptCount, ep.cooldownUntil.value,
                         before.lastHttpStatus, Some(CircuitOpen), before.lastAttemptedAt, before.deliveredAt,
                         before.deadLetteredAt)
  }

  /** What processing makes of a delivery, by the endpoint row that was read and the reply to its request, if it was
      sent: `requests` is how many were. */
  ghost predicate Processed(cfg: Config, before: Delivery, ep: Endpoint, requests: int, resp: Response,
                            after: Delivery, read: Time, now: Time)
  {
    if !ep.active then requests == 0 && BuriedInactive(before, after, read, now)
    else if requests == 0 then PutOff(before, ep, after) && read < ep.cooldownUntil.value
    else
      && requests == 1 && Decided(cfg, before, ep, resp, after, read, now)
      && (ep.circuit == Open && ep.cooldownUntil.Some? ==> ep.cooldownUntil.value <= now)
  }

  /** Every attempt that is written after a reply is decided by that reply. */
  lemma {:induction false} AttemptIsDecided(cfg: Config, s: State, l: Label)
    requires Normal(cfg) && Inv(cfg, s) && Enabled(cfg, s, l)
    requires l.Attempt? && l.outcome.Applied() && s.phase.stage.Noted?
    ensures s.phase.job.id in Next(cfg, s, l).rows
    ensures Decided(cfg, s.phase.job.row, s.phase.ep, s.phase.stage.resp, Next(cfg, s, l).rows[s.phase.job.id],
                    l.read, s.now)
  {
    hide IsClaim, Consistent, ResetStale, ClaimRows, Backoff.MayReturn;
    InHand(cfg, s);
    assert RowOk(s.phase.job.row, s.now);
  }

  /** Without a reply an attempt is written only to bury a delivery to an inactive endpoint. */
  lemma {:induction false} UnsentIsBuried(cfg: Config, s: State, l: Label)
    requires Normal(cfg) && Inv(cfg, s) && Enabled(cfg, s, l)
    requires l.Attempt? && l.outcome.Applied() && !s.phase.stage.Noted?
    ensures !s.phase.ep.active && s.phase.job.id in Next(cfg, s, l).rows
    ensures BuriedInactive(s.phase.job.row, Next(cfg, s, l).rows[s.phase.job.id], l.read, s.now)
  {
    InHand(cfg, s);
  }

  lemma {:induction false} DeferralPutsOff(cfg: Config, s: State, l: Label)
    requires Normal(cfg) && Inv(cfg, s) && Enabled(cfg, s, l) && l.Reschedule? && l.outcome.Applied()
    ensures s.phase.ep.active && s.phase.job.id in Next(cfg, s, l).rows
    ensures PutOff(s.phase.job.row, s.phase.ep, Next(cfg, s, l).rows[s.phase.job.id])
    ensures l.read < s.phase.ep.cooldownUntil.value
  {
    InHand(cfg, s);
  }

  // --------------------------------------------------------------------------------------------------------- breaker

  /** What the reply to a request makes of the endpoint's breaker, and that nothing else of the row changes. */
  predicate Told(cfg: Config, before: Endpoint, resp: Response, after: Endpoint, read: Time, now: Time) {
    && after.topics == before.topics && after.active == before.active
    && after.maxAttempts == before.maxAttempts && after.timeoutMs == before.timeoutMs
    && if resp.Http? && 200 <= resp.code <= 299 then
         && after.circuit == Closed && after.failureCount == 0
         && after.lastFailureAt.None? && after.cooldownUntil.None?
       else
         && after.failureCount == before.failureCount + 1 && after.lastFailureAt == Some(now)
         && if before.failureCount + 1 >= cfg.circuitThreshold then
              after.circuit == Open && after.cooldownUntil == Some(read + cfg.circuitCooldown)
            else
              after.circuit == before.circuit && after.cooldownUntil == before.cooldownUntil
  }

  /** The endpoint's breaker is told the reply: a success exactly for 200..299, and otherwise a failure. */
  lemma {:induction false} NoteIsTold(cfg: Config, s: State, l: Label)
    requires Enabled(cfg, s, l) && (l.NoteSuccess? || l.NoteFailure?) && l.outcome.Applied()
    ensures var e, resp := s.phase.job.row.endpointId, s.phase.stage.resp;
            && e in s.eps && e in Next(cfg, s, l).eps
            && (l.NoteSuccess? <==> resp.Http? && 200 <= resp.code <= 299)
            && Told(cfg, s.eps[e], resp, Next(cfg, s, l).eps[e], if l.NoteFailure? then l.read else s.now, s.now)
  {
  }

  /** A probe opens an open circuit half, if its cooldown is over, and changes nothing else. */
  lemma {:induction false} ProbeIs(cfg: Config, s: State, l: Label)
    requires Enabled(cfg, s, l) && l.ToHalfOpen? && l.outcome.Applied()
    ensures var e := s.phase.job.row.endpointId;
            && e in s.eps && s.phase.ep.active && s.phase.ep.circuit == Open
            && (s.phase.ep.cooldownUntil.Some? ==> s.phase.ep.cooldownUntil.value <= s.now)
            && var ep := s.eps[e];
               Next(cfg, s, l).eps == s.eps[e :=
                 if ep.circuit == Open && ep.cooldownUntil.Some? && ep.cooldownUntil.value <= s.now
                 then ep.(circuit := HalfOpen) else ep]
  {
  }

  /** A request goes out exactly to an active endpoint whose circuit was not open, or after the half-open statement. */
  lemma {:induction false} SendIs(cfg: Config, s: State)
    ensures Enabled(cfg, s, Send) <==>
              && s.phase.Busy?
              && (s.phase.stage.Cleared?
                  || (s.phase.stage.Fetched? && s.phase.ep.active && s.phase.ep.circuit != Open))
  {
  }

  // --------------------------------------------------------------------------------------------------- claim and reset

  /** Of two due rows a claim prefers the one due earlier, and of two due at one time the one with the smaller id. */
  lemma {:induction false} ClaimOrder(rows: Deliveries, now: Time, limit: int, ids: seq<Id>, x: Id, y: Id)
    requires IsClaim(rows, now, limit, ids) && x in ids
    requires y in rows && y !in ids && rows[y].status.Pending? && rows[y].nextRetryAt <= now
    ensures x in rows && rows[x].status.Pending? && rows[x].nextRetryAt <= now
    ensures rows[x].nextRetryAt < rows[y].nextRetryAt || (rows[x].nextRetryAt == rows[y].nextRetryAt && x < y)
    ensures |ids| == limit
  {
    assert y in DueIds(rows, now);
    ClaimPrefers(rows, now, limit, ids, x, y);
    ClaimSize(rows, now, limit, ids, y);
  }

  /** A claim passes over a due row only if it is full. */
  lemma {:induction false} ClaimSize(rows: Deliveries, now: Time, limit: int, ids: seq<Id>, y: Id)
    requires IsClaim(rows, now, limit, ids)
    requires y in rows && y !in ids && rows[y].status.Pending? && rows[y].nextRetryAt <= now
    ensures |ids| == limit
  {
    ClaimCounts(rows, now, limit, ids);
    ClaimLeaves(DueIds(rows, now), ids, y);
  }

  lemma {:induction false} ClaimLeaves(due: set<Id>, ids: seq<Id>, y: Id)
    requires Distinct(ids) && (set x | x in ids) <= due && y in due && y !in ids
    ensures |ids| < |due|
  {
    DistinctCount(ids);
    ProperSubsetCount((set x | x in ids), due);
  }

  /** What a claim and a reset do to a row. */
  lemma {:induction false} ClaimAndResetAre(cfg: Config, s: State, l: Label, d: Id)
    requires Enabled(cfg, s, l) && d in s.rows
    ensures d in Next(cfg, s, l).rows
    ensures var row, row' := s.rows[d], Next(cfg, s, l).rows[d];
            && (l.Claim? && l.outcome.Applied() && d in l.ids ==>
                  row.status.Pending? && row' == row.(status := Delivering, lastAttemptedAt := Some(s.now)))
            && (l.Reset? && l.outcome.Applied() ==>
                  row' == if row.status.Delivering? && row.lastAttemptedAt.Some?
                             && row.lastAttemptedAt.value
                                <= s.now - cfg.staleAfter / 1_000_000 * 1_000_000
                          then row.(status := Pending, nextRetryAt := s.now) else row)
  {
    NextRow(cfg, s, l, d);
    if l.Claim? && d in l.ids {
      var i :| 0 <= i < |l.ids| && l.ids[i] == d;
    }
  }

  // ----------------------------------------------------------------------------------------------------- surroundings

  /** When the other services' statements succeed: as the constraints of the tables have it. */
  lemma {:induction false} SurroundingsMay(cfg: Config, s: State, l: Label)
    requires !FromWorker(l)
    ensures match l
            case Advance(time) => Enabled(cfg, s, l) <==> s.now <= time
            case Insert(refs, stamp) =>
              Enabled(cfg, s, l) <==>
                && stamp <= s.now
                && (forall d | d in refs :: d !in s.rows && refs[d].endpointId in s.eps)
                && (forall d, x | d in refs && x in refs && d != x ::
                      refs[d].eventId != refs[x].eventId || refs[d].endpointId != refs[x].endpointId)
                && (forall d, x | d in refs && x in s.rows ::
                      refs[d].eventId != s.rows[x].eventId || refs[d].endpointId != s.rows[x].endpointId)
            case AddEndpoint(e, topics, maxAttempts, timeoutMs) =>
              Enabled(cfg, s, l) <==>
                e !in s.eps && topics != {} && 1 <= maxAttempts <= 20 && 100 <= timeoutMs <= 30000
            case EditEndpoint(e, topics, _, maxAttempts, timeoutMs) =>
              Enabled(cfg, s, l) <==>
                e in s.eps && topics != {} && 1 <= maxAttempts <= 20 && 100 <= timeoutMs <= 30000
            case DropEndpoint(e) => Enabled(cfg, s, l) <==> forall d | d in s.rows :: s.rows[d].endpointId != e
            case Crash => Enabled(cfg, s, l)
  {
  }

  /** What the other services' statements do to the tables. */
  lemma {:induction false} SurroundingsAre(cfg: Config, s: State, l: Label)
    requires Enabled(cfg, s, l) && !FromWorker(l) && !l.Crash?
    ensures var t := Next(cfg, s, l);
            match l
            case Advance(time) => t == s.(now := time) && s.now <= time
            case Insert(refs, stamp) =>
              && t.eps == s.eps && stamp <= s.now
              && (forall d | d in s.rows :: d in t.rows && t.rows[d] == s.rows[d])
              && (forall d | d in t.rows && d !in s.rows ::
                    && d in refs && refs[d].endpointId in s.eps
                    && t.rows[d] == Delivery(refs[d].eventId, refs[d].endpointId, Pending, 0, stamp, None, None, None,
                                             None, None))
            case AddEndpoint(e, topics, maxAttempts, timeoutMs) =>
              && t.rows == s.rows && e !in s.eps && topics != {} && 1 <= maxAttempts <= 20 && 100 <= timeoutMs <= 30000
              && t.eps == s.eps[e := Endpoint(topics, true, maxAttempts, timeoutMs, Closed, 0, None, None)]
            case EditEndpoint(e, topics, active, maxAttempts, timeoutMs) =>
              && t.rows == s.rows && e in s.eps && topics != {} && 1 <= maxAttempts <= 20 && 100 <= timeoutMs <= 30000
              && t.eps == s.eps[e := Endpoint(topics, active, maxAttempts, timeoutMs, s.eps[e].circuit,
                                              s.eps[e].failureCount, s.eps[e].lastFailureAt, s.eps[e].cooldownUntil)]
            case DropEndpoint(e) =>
              t.rows == s.rows && t.eps == s.eps - {e} && forall d | d in s.rows :: s.rows[d].endpointId != e
  {
  }
}
