/** Whole-run properties of one worker: what is never undone, how often a delivery is attempted, and why it ended. */
module Safety {
  import opened Tables
  import opened Settings
  import opened Protocol
  import opened Invariant

  /** What one step can do to one row. */
  lemma {:induction false} RowStep(cfg: Config, s: State, l: Label, d: Id)
    requires Normal(cfg) && Inv(cfg, s) && Enabled(cfg, s, l) && d in s.rows
    ensures var t := Next(cfg, s, l);
            && d in t.rows
            && t.rows[d].eventId == s.rows[d].eventId
            && t.rows[d].endpointId == s.rows[d].endpointId
            && s.rows[d].attemptCount <= t.rows[d].attemptCount <= s.rows[d].attemptCount + 1
            && (s.rows[d].status.Terminal() ==> t.rows[d] == s.rows[d])
  {
    NextRow(cfg, s, l, d);
    if l.Attempt? || l.Reschedule? {
      assert Owned(s, Held(s.phase)[0]);
    }
  }

  /** Rows are never removed, and a delivered or dead-lettered row is never changed again, although the statements
      keyed by id do not look at the status. */
  lemma {:induction false} TerminalIsFinal(cfg: Config, t: Trace, u: Trace, d: Id)
    requires Normal(cfg) && Leads(cfg, t, u) && d in At(cfg, t).rows
    ensures d in At(cfg, u).rows
    ensures At(cfg, u).rows[d].eventId == At(cfg, t).rows[d].eventId
    ensures At(cfg, u).rows[d].endpointId == At(cfg, t).rows[d].endpointId
    ensures At(cfg, t).rows[d].attemptCount <= At(cfg, u).rows[d].attemptCount
    ensures At(cfg, t).rows[d].status.Terminal() ==> At(cfg, u).rows[d] == At(cfg, t).rows[d]
  {
    if t == u {
    } else {
      TerminalIsFinal(cfg, t, u.prev, d);
      RunKeepsInv(cfg, u.prev);
      RowStep(cfg, At(cfg, u.prev), u.step, d);
    }
  }

  // --------------------------------------------------------------------------------------------------- attempt bound

  lemma {:induction false} AttemptsBounded(cfg: Config, t: Trace, d: Id)
    requires Normal(cfg) && Run(cfg, t) && d in At(cfg, t).rows
    ensures var row := At(cfg, t).rows[d];
            0 <= row.attemptCount <= 20 && (!row.status.Terminal() ==> row.attemptCount <= 19)
  {
    RunKeepsInv(cfg, t);
  }

  /** The endpoint's max_attempts has never been above m. */
  ghost predicate LimitAtMost(cfg: Config, t: Trace, e: Id, m: int)
    requires Run(cfg, t)
  {
    && (e in At(cfg, t).eps ==> At(cfg, t).eps[e].maxAttempts <= m)
    && (t.Then? ==> LimitAtMost(cfg, t.prev, e, m))
  }

  /** With a limit that never exceeds m, no delivery to the endpoint has more than m attempts, and an unfinished one
      has fewer. */
  lemma {:induction false} AttemptsWithinLimit(cfg: Config, t: Trace, e: Id, m: int, d: Id)
    requires Normal(cfg) && Run(cfg, t) && 1 <= m && LimitAtMost(cfg, t, e, m)
    requires d in At(cfg, t).rows && At(cfg, t).rows[d].endpointId == e
    ensures At(cfg, t).rows[d].attemptCount <= m
    ensures !At(cfg, t).rows[d].status.Terminal() ==> At(cfg, t).rows[d].attemptCount < m
  {
    var s, l := At(cfg, t.prev), t.step;
    RunKeepsInv(cfg, t.prev);
    if d !in s.rows {
      NextRowOrigin(cfg, s, l, d);
    } else {
      RowStep(cfg, s, l, d);
      AttemptsWithinLimit(cfg, t.prev, e, m, d);
      NextRow(cfg, s, l, d);
      if l.Attempt? {
        assert Owned(s, Held(s.phase)[0]);
        ReadLimitAtMost(cfg, t.prev, e, m);
      }
    }
  }

  /** The limit the worker read is one the endpoint has had. */
  lemma {:induction false} ReadLimitAtMost(cfg: Config, t: Trace, e: Id, m: int)
    requires Normal(cfg) && Run(cfg, t) && LimitAtMost(cfg, t, e, m)
    ensures var p := At(cfg, t).phase; p.Busy? && p.job.row.endpointId == e ==> p.ep.maxAttempts <= m
  {
    if t.Start? {
    } else if At(cfg, t).phase.Busy? {
      ReadLimitAtMost(cfg, t.prev, e, m);
      NextBusy(cfg, At(cfg, t.prev), t.step);
    }
  }

  // ------------------------------------------------------------------------------------------------ why a row ended

  /** The step that gives delivery d its final state. */
  ghost predicate Settles(cfg: Config, s: State, l: Label, d: Id) {
    && Enabled(cfg, s, l)
    && l.Attempt? && l.outcome.Applied() && s.phase.job.id == d
    && d in s.rows && !s.rows[d].status.Terminal()
    && !Conclusion(cfg, s.phase).Retry?
  }

  /** In the run up to t, the worker read endpoint row ep for a delivery d it had claimed, and ep was the row then. */
  ghost predicate WasRead(cfg: Config, t: Trace, d: Id, ep: Endpoint)
    requires Run(cfg, t)
  {
    t.Then? &&
    ( WasRead(cfg, t.prev, d, ep)
      || (var s := At(cfg, t.prev);
          && t.step.Fetch? && s.phase.todo[0].id == d
          && s.eps[s.phase.todo[0].row.endpointId] == ep))
  }

  /** In the run up to t, the endpoint answered a request for delivery d with resp. */
  ghost predicate WasAnswered(cfg: Config, t: Trace, d: Id, resp: Response)
    requires Run(cfg, t)
  {
    t.Then? &&
    (WasAnswered(cfg, t.prev, d, resp) || (t.step == Respond(resp) && At(cfg, t.prev).phase.job.id == d))
  }

  /** What the worker holds about the delivery it is processing comes from the run. */
  lemma {:induction false} BusyIsGrounded(cfg: Config, t: Trace)
    requires Run(cfg, t)
    ensures var p := At(cfg, t).phase;
            p.Busy? ==>
              && WasRead(cfg, t, p.job.id, p.ep)
              && (p.stage.Answered? || p.stage.Noted? ==> WasAnswered(cfg, t, p.job.id, p.stage.resp))
  {
    if t.Start? {
    } else if At(cfg, t).phase.Busy? {
      BusyIsGrounded(cfg, t.prev);
      NextBusy(cfg, At(cfg, t.prev), t.step);
    }
  }

  lemma {:induction false} ReadStays(cfg: Config, t: Trace, u: Trace, d: Id, ep: Endpoint)
    requires Run(cfg, t) && Run(cfg, u) && Extends(t, u) && WasRead(cfg, t, d, ep)
    ensures WasRead(cfg, u, d, ep)
  {
    if t == u {
    } else {
      ReadStays(cfg, t, u.prev, d, ep);
    }
  }

  lemma {:induction false} AnsweredStays(cfg: Config, t: Trace, u: Trace, d: Id, resp: Response)
    requires Leads(cfg, t, u) && WasAnswered(cfg, t, d, resp)
    ensures WasAnswered(cfg, u, d, resp)
  {
    if t == u {
    } else {
      AnsweredStays(cfg, t, u.prev, d, resp);
    }
  }

  /** A finished delivery was finished by exactly the one step found here. */
  lemma {:induction false} FindSettling(cfg: Config, t: Trace, d: Id) returns (u: Trace)
    requires Normal(cfg) && Run(cfg, t) && d in At(cfg, t).rows && At(cfg, t).rows[d].status.Terminal()
    ensures u.Then? && Leads(cfg, u, t) && Settles(cfg, At(cfg, u.prev), u.step, d)
    ensures At(cfg, t).rows[d] == At(cfg, u).rows[d]
  {
    var s, l := At(cfg, t.prev), t.step;
    RunKeepsInv(cfg, t.prev);
    if d in s.rows && s.rows[d].status.Terminal() {
      u := FindSettling(cfg, t.prev, d);
      RowStep(cfg, s, l, d);
    } else {
      u := t;
      if d in s.rows {
        NextRow(cfg, s, l, d);
      } else {
        NextRowOrigin(cfg, s, l, d);
      }
    }
  }

  /** Two settling steps of one delivery in one run are the same step. */
  lemma {:induction false} SettledOnce(cfg: Config, u: Trace, v: Trace, d: Id)
    requires Normal(cfg) && Leads(cfg, u, v) && u.Then? && v.Then?
    requires Settles(cfg, At(cfg, u.prev), u.step, d) && Settles(cfg, At(cfg, v.prev), v.step, d)
    ensures u == v
  {
    if u != v {
      RunKeepsInv(cfg, u.prev);
      NextRow(cfg, At(cfg, u.prev), u.step, d);
      TerminalIsFinal(cfg, u, v.prev, d);
    }
  }

  /** Delivered means that the endpoint answered 2xx to a request for this delivery, and that this is the status
      kept in the row. */
  lemma {:induction false} DeliveredIsJustified(cfg: Config, t: Trace, d: Id)
    requires Normal(cfg) && Run(cfg, t) && d in At(cfg, t).rows && At(cfg, t).rows[d].status.Delivered?
    ensures var row := At(cfg, t).rows[d];
            && row.lastHttpStatus.Some?
            && 200 <= row.lastHttpStatus.value <= 299
            && WasAnswered(cfg, t, d, Http(row.lastHttpStatus.value))
            && row.deliveredAt.Some? && row.deadLetteredAt.None?
  {
    RunKeepsInv(cfg, t);
    var u := FindSettling(cfg, t, d);
    BusyIsGrounded(cfg, u.prev);
    PrefixRuns(cfg, u, t);
    NextRow(cfg, At(cfg, u.prev), u.step, d);
    AnsweredStays(cfg, u, t, d, At(cfg, u.prev).phase.stage.resp);
  }

  /** Why a delivery was dead-lettered, the worker being at p: the endpoint row read for this attempt was inactive, or
      the reply to this attempt cannot be retried, or the attempt was the last one that row allows. */
  predicate BurialReason(row: Delivery, p: Phase) {
    && p.Busy?
    && if !p.ep.active then
         p.stage.Fetched? && row.lastHttpStatus.None? && row.lastError == Some(EndpointInactive)
       else
         && p.stage.Noted?
         && var resp := p.stage.resp;
            && !Successful(resp)
            && row.lastHttpStatus == StatusPtr(StatusOf(resp))
            && row.lastError == NonEmpty(MessageOf(resp))
            && (!Retryable(resp) || row.attemptCount >= p.ep.maxAttempts)
  }

  /** The settling step of a dead-lettered delivery, and what the worker held when it made it: the endpoint row it had
      read for this attempt, and the reply it had got to it. */
  lemma {:induction false} DeadLetteredIsJustified(cfg: Config, t: Trace, d: Id) returns (u: Trace)
    requires Normal(cfg) && Run(cfg, t) && d in At(cfg, t).rows && At(cfg, t).rows[d].status.DeadLettered?
    ensures At(cfg, t).rows[d].deadLetteredAt.Some? && At(cfg, t).rows[d].deliveredAt.None?
    ensures u.Then? && Leads(cfg, u, t) && Settles(cfg, At(cfg, u.prev), u.step, d)
    ensures var p := At(cfg, u.prev).phase;
            && BurialReason(At(cfg, t).rows[d], p)
            && WasRead(cfg, u.prev, d, p.ep)
            && (p.ep.active ==> WasAnswered(cfg, u.prev, d, p.stage.resp))
  {
    RunKeepsInv(cfg, t);
    u := FindSettling(cfg, t, d);
    RunKeepsInv(cfg, u.prev);
    BusyIsGrounded(cfg, u.prev);
    var s := At(cfg, u.prev);
    NextRow(cfg, s, u.step, d);
    assert Owned(s, Held(s.phase)[0]);
  }

  // ------------------------------------------------------------------------------------------------- crash recovery

  /** A claim that no worker is processing any more. */
  predicate Orphan(s: State, d: Id) {
    d in s.rows && s.rows[d].status.Delivering? && forall i | 0 <= i < |Held(s.phase)| :: Held(s.phase)[i].id != d
  }

  /** Nothing is lost, wherever the process stops: an unfinished row is waiting, in the worker's batch exactly as it
      was claimed, or an orphan whose time of claim is known. */
  lemma {:induction false} NothingLost(cfg: Config, t: Trace, d: Id)
    requires Normal(cfg) && Run(cfg, t) && d in At(cfg, t).rows
    ensures var s := At(cfg, t);
            && (s.rows[d].status.Terminal() || s.rows[d].status.Pending? || Orphan(s, d)
                || exists i :: 0 <= i < |Held(s.phase)| && Held(s.phase)[i] == Job(d, s.rows[d]))
            && (Orphan(s, d) ==> s.rows[d].lastAttemptedAt.Some? && s.rows[d].lastAttemptedAt.value <= s.now)
  {
    RunKeepsInv(cfg, t);
    var s := At(cfg, t);
    if s.rows[d].status.Delivering? && !Orphan(s, d) {
      var i :| 0 <= i < |Held(s.phase)| && Held(s.phase)[i].id == d;
      assert Owned(s, Held(s.phase)[i]);
    }
  }

  /** An executed reset makes an orphan claimable exactly if its claim is `StaleWindow` old, and touches nothing
      else of it; before that it leaves the orphan alone. */
  lemma {:induction false} OrphanReturns(cfg: Config, t: Trace, o: Outcome, d: Id)
    requires Normal(cfg) && Run(cfg, Then(t, Reset(o))) && o.Applied() && Orphan(At(cfg, t), d)
    ensures var s, s' := At(cfg, t), At(cfg, Then(t, Reset(o)));
            && s.rows[d].lastAttemptedAt.Some? && d in s'.rows
            && (d in DueIds(s'.rows, s'.now) <==> s.rows[d].lastAttemptedAt.value + StaleWindow(cfg) <= s.now)
            && s'.rows[d] == if d in DueIds(s'.rows, s'.now)
                             then s.rows[d].(status := Pending, nextRetryAt := s.now) else s.rows[d]
  {
    RunKeepsInv(cfg, t);
    NextRow(cfg, At(cfg, t), Reset(o), d);
  }

  /** After a crash at any moment, a restarted worker whose first reset is executed late enough finds every
      unfinished delivery that was due claimable, and has lost no attempt. */
  lemma {:induction false} CrashRecovery(cfg: Config, t: Trace, later: Time, o: Outcome, d: Id) returns (u: Trace)
    requires Normal(cfg) && Run(cfg, t) && d in At(cfg, t).rows && o.Applied()
    requires later >= At(cfg, t).now + StaleWindow(cfg)
    ensures u == Then(Then(Then(t, Crash), Advance(later)), Reset(o)) && Leads(cfg, t, u)
    ensures d in At(cfg, u).rows
    ensures var row, row' := At(cfg, t).rows[d], At(cfg, u).rows[d];
            && row'.attemptCount == row.attemptCount
            && (row.status.Terminal() ==> row' == row)
            && (!row.status.Terminal() ==> row'.status.Pending?)
            && (row.status.Delivering? ==> d in DueIds(At(cfg, u).rows, later))
            && (row.status.Pending? ==> row'.nextRetryAt == row.nextRetryAt)
  {
    RunKeepsInv(cfg, t);
    var c := Then(t, Crash);
    var w := Then(c, Advance(later));
    assert cfg.staleAfter / MILLISECOND >= 0;
    assert Run(cfg, c) && Run(cfg, w);
    u := Then(w, Reset(o));
    assert Extends(t, t);
    assert Extends(t, c);
    assert Extends(t, w);
    assert Extends(t, u);
  }
}
