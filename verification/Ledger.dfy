/** Counts over whole runs: requests sent, attempts written, requests whose attempt was lost, resets and deferrals. */
module Ledger {
  import opened Tables
  import opened Settings
  import opened Protocol
  import opened Invariant
  import opened Safety

  datatype Fact =
    | Sent(d: Id)             // a request for d goes out
    | Written(d: Id)          // the attempt that a request for d made is written
    | BuriedUnsent(d: Id)     // d is dead-lettered without a request, its endpoint being inactive
    | Lapsed(d: Id)           // the worker lets go of d after a request without writing the attempt
    | WasReset(d: Id)         // the stale reset returns d to pending
    | Deferred(d: Id)         // d is rescheduled because the circuit is open
    | Opened(e: Id)           // a recorded failure of e leaves its circuit open
    | Probed(e: Id)           // the circuit of e goes from open to half open
    | JobDone                 // the worker is done with a delivery of its batch
    | BatchClaimed            // a claim is executed

  predicate Requested(p: Phase, d: Id) {
    p.Busy? && p.job.id == d && !p.stage.Fetched? && !p.stage.Cleared?
  }

  predicate Happens(cfg: Config, s: State, l: Label, f: Fact)
    requires Enabled(cfg, s, l)
  {
    match f
    case Sent(d) => l.Send? && s.phase.job.id == d
    case Written(d) => l.Attempt? && l.outcome.Applied() && s.phase.job.id == d && s.phase.stage.Noted?
    case BuriedUnsent(d) => l.Attempt? && l.outcome.Applied() && s.phase.job.id == d && s.phase.stage.Fetched?
    case Lapsed(d) =>
      && Requested(s.phase, d) && !Requested(Next(cfg, s, l).phase, d)
      && !(l.Attempt? && l.outcome.Applied())
    case WasReset(d) => l.Reset? && l.outcome.Applied() && d in s.rows && Stale(s.rows[d], s.now, StaleWindow(cfg))
    case Deferred(d) => l.Reschedule? && l.outcome.Applied() && s.phase.job.id == d
    case Opened(e) =>
      l.NoteFailure? && l.outcome.Applied() && s.phase.job.row.endpointId == e && Next(cfg, s, l).eps[e].circuit.Open?
    case Probed(e) =>
      l.ToHalfOpen? && l.outcome.Applied() && s.phase.job.row.endpointId == e && MayProbe(s.eps[e], s.now)
    case JobDone => s.phase.Busy? && !Next(cfg, s, l).phase.Busy?
    case BatchClaimed => l.Claim? && l.outcome.Applied()
  }

  /** The facts about a delivery as they show in its row. */
  lemma {:induction false} RowFactsShow(cfg: Config, s: State, l: Label, d: Id)
    requires Normal(cfg) && Inv(cfg, s) && Enabled(cfg, s, l) && d in s.rows
    ensures d in Next(cfg, s, l).rows
    ensures var row, row' := s.rows[d], Next(cfg, s, l).rows[d];
            && (Happens(cfg, s, l, Written(d)) || Happens(cfg, s, l, BuriedUnsent(d))
                <==> row'.attemptCount == row.attemptCount + 1)
            && (Happens(cfg, s, l, WasReset(d)) <==> l.Reset? && row.status == Delivering && row'.status == Pending)
            && (Happens(cfg, s, l, Deferred(d)) <==>
                  !l.Reset? && row.status == Delivering && row'.status == Pending
                  && row'.attemptCount == row.attemptCount)
  {
    hide Next, WriteOf, EndpointOk, IsClaim;
    NextRow(cfg, s, l, d);
    if s.phase.Busy? {
      assert Owned(s, Held(s.phase)[0]);
    }
  }

  /** The facts about an endpoint as they show in its row. */
  lemma {:induction false} EndpointFactsShow(cfg: Config, s: State, l: Label, e: Id)
    requires Normal(cfg) && Inv(cfg, s) && Enabled(cfg, s, l) && e in s.eps && l != DropEndpoint(e)
    ensures e in Next(cfg, s, l).eps
    ensures var ep, ep' := s.eps[e], Next(cfg, s, l).eps[e];
            && (Happens(cfg, s, l, Opened(e)) <==> ep'.circuit == Open && ep'.failureCount == ep.failureCount + 1)
            && (Happens(cfg, s, l, Probed(e)) <==> ep.circuit == Open && ep'.circuit == HalfOpen)
  {
    hide Next, WriteOf, RowOk, IsClaim;
    NextEndpoint(cfg, s, l, e);
    assert EndpointOk(cfg, s.eps[e], s.now);
  }

  /** How often f happened in the run. */
  ghost function Count(cfg: Config, t: Trace, f: Fact): nat
    requires Run(cfg, t)
  {
    if t.Start? then 0
    else Count(cfg, t.prev, f) + (if Happens(cfg, At(cfg, t.prev), t.step, f) then 1 else 0)
  }

  function One(b: bool): nat {
    if b then 1 else 0
  }

  /** The books of one delivery balance: what was sent is written, lapsed or under way; what was written or buried
      unsent is the attempt count; a lapse leaves an orphan, and only a reset brings an orphan back. */
  ghost predicate Balanced(cfg: Config, t: Trace, d: Id)
    requires Run(cfg, t)
  {
    var s := At(cfg, t);
    if d in s.rows then
      && Count(cfg, t, Sent(d)) == Count(cfg, t, Written(d)) + Count(cfg, t, Lapsed(d)) + One(Requested(s.phase, d))
      && s.rows[d].attemptCount == Count(cfg, t, Written(d)) + Count(cfg, t, BuriedUnsent(d))
      && Count(cfg, t, Lapsed(d)) <= Count(cfg, t, WasReset(d)) + One(Orphan(s, d))
      && Count(cfg, t, BuriedUnsent(d)) <= One(s.rows[d].status.DeadLettered?)
    else
      && Count(cfg, t, Sent(d)) == Count(cfg, t, Written(d)) == Count(cfg, t, Lapsed(d)) == 0
      && Count(cfg, t, BuriedUnsent(d)) == 0
  }

  /** The delivery a busy worker has in hand is in the table and not an orphan. */
  lemma {:induction false} InHand(cfg: Config, s: State)
    requires Inv(cfg, s) && s.phase.Busy?
    ensures Owned(s, s.phase.job) && !Orphan(s, s.phase.job.id)
  {
    assert Held(s.phase)[0] == s.phase.job;
  }

  /** An orphan stays one until it is reset. */
  lemma {:induction false} OrphanStep(cfg: Config, s: State, l: Label, d: Id)
    requires Normal(cfg) && Inv(cfg, s) && Enabled(cfg, s, l) && Orphan(s, d)
    ensures Orphan(Next(cfg, s, l), d) || Happens(cfg, s, l, WasReset(d))
  {
    NextRow(cfg, s, l, d);
    if s.phase.Busy? {
      InHand(cfg, s);
      assert s.phase.job.id != d;
    }
    if !l.Claim? {
      BatchOnlyShrinks(cfg, s, l);
    }
  }

  lemma {:induction false} LapseLeavesOrphan(cfg: Config, s: State, l: Label, d: Id)
    requires Normal(cfg) && Inv(cfg, s) && Enabled(cfg, s, l) && Happens(cfg, s, l, Lapsed(d))
    ensures !Orphan(s, d) && Orphan(Next(cfg, s, l), d)
  {
    InHand(cfg, s);
    NextRow(cfg, s, l, d);
    var held := Held(Next(cfg, s, l).phase);
    forall i | 0 <= i < |held|
      ensures held[i].id != d
    {
      assert Held(s.phase)[0].id == d;
      assert held[i] == Held(s.phase)[i + 1];
    }
  }

  /** How the facts of one step fit together. */
  lemma {:induction false} BookStep(cfg: Config, s: State, l: Label, d: Id)
    requires Normal(cfg) && Inv(cfg, s) && Enabled(cfg, s, l) && d in s.rows
    ensures var t := Next(cfg, s, l);
            var sent, written, lapsed := Happens(cfg, s, l, Sent(d)), Happens(cfg, s, l, Written(d)),
                                         Happens(cfg, s, l, Lapsed(d));
            && d in t.rows
            && One(sent) + One(Requested(s.phase, d)) == One(written) + One(lapsed) + One(Requested(t.phase, d))
            && t.rows[d].attemptCount
               == s.rows[d].attemptCount + One(written) + One(Happens(cfg, s, l, BuriedUnsent(d)))
            && (Happens(cfg, s, l, BuriedUnsent(d)) ==> !s.rows[d].status.Terminal() && t.rows[d].status.DeadLettered?)
            && (s.rows[d].status.DeadLettered? ==> t.rows[d].status.DeadLettered?)
  {
    if s.phase.Busy? {
      InHand(cfg, s);
    }
    NextRow(cfg, s, l, d);
  }

  lemma {:induction false} OrphanBook(cfg: Config, s: State, l: Label, d: Id)
    requires Normal(cfg) && Inv(cfg, s) && Enabled(cfg, s, l) && d in s.rows
    ensures One(Happens(cfg, s, l, Lapsed(d))) + One(Orphan(s, d))
            <= One(Happens(cfg, s, l, WasReset(d))) + One(Orphan(Next(cfg, s, l), d))
  {
    if Orphan(s, d) {
      OrphanStep(cfg, s, l, d);
    }
    if Happens(cfg, s, l, Lapsed(d)) {
      LapseLeavesOrphan(cfg, s, l, d);
    }
  }

  lemma {:induction false} NoBooksYet(cfg: Config, s: State, l: Label, d: Id)
    requires Normal(cfg) && Inv(cfg, s) && Enabled(cfg, s, l) && d !in s.rows
    ensures !Happens(cfg, s, l, Sent(d)) && !Happens(cfg, s, l, Written(d))
    ensures !Happens(cfg, s, l, Lapsed(d)) && !Happens(cfg, s, l, BuriedUnsent(d))
    ensures !Requested(Next(cfg, s, l).phase, d)
    ensures d in Next(cfg, s, l).rows ==> Next(cfg, s, l).rows[d].attemptCount == 0
  {
    if s.phase.Busy? {
      InHand(cfg, s);
    }
    if d in Next(cfg, s, l).rows {
      NextRowOrigin(cfg, s, l, d);
    }
  }

  lemma {:induction false} BalancedStep(cfg: Config, t: Trace, d: Id)
    requires Normal(cfg) && Run(cfg, t) && t.Then? && Inv(cfg, At(cfg, t.prev)) && Balanced(cfg, t.prev, d)
    ensures Balanced(cfg, t, d)
  {
    hide Next, Happens, Orphan, Requested;
    if d in At(cfg, t.prev).rows {
      BookStep(cfg, At(cfg, t.prev), t.step, d);
      OrphanBook(cfg, At(cfg, t.prev), t.step, d);
    } else {
      NoBooksYet(cfg, At(cfg, t.prev), t.step, d);
    }
  }

  lemma {:induction false} BooksBalance(cfg: Config, t: Trace, d: Id)
    requires Normal(cfg) && Run(cfg, t)
    ensures Balanced(cfg, t, d)
  {
    if t.Start? {
    } else {
      BooksBalance(cfg, t.prev, d);
      RunKeepsInv(cfg, t.prev);
      BalancedStep(cfg, t, d);
    }
  }

  /** The attempt count is the number of requests, less those whose attempt is not written (yet), plus one if the
      delivery was buried without a request; and a request's attempt is lost at most once per stale reset, plus once
      while the delivery is claimed. Deferrals do not enter. */
  lemma {:induction false} SendLedger(cfg: Config, t: Trace, d: Id)
    requires Normal(cfg) && Run(cfg, t) && d in At(cfg, t).rows
    ensures var s := At(cfg, t);
            var lost := Count(cfg, t, Lapsed(d)) + One(Requested(s.phase, d));
            && s.rows[d].attemptCount == Count(cfg, t, Sent(d)) - lost + Count(cfg, t, BuriedUnsent(d))
            && lost <= Count(cfg, t, WasReset(d)) + One(s.rows[d].status.Delivering?)
            && Count(cfg, t, BuriedUnsent(d)) <= One(s.rows[d].status.DeadLettered?)
  {
    BooksBalance(cfg, t, d);
    RunKeepsInv(cfg, t);
    var s := At(cfg, t);
    if s.phase.Busy? {
      InHand(cfg, s);
    }
  }

  /** So a delivery that was never reset gets at most twenty requests. */
  lemma {:induction false} RequestsBounded(cfg: Config, t: Trace, d: Id)
    requires Normal(cfg) && Run(cfg, t) && d in At(cfg, t).rows
    ensures Count(cfg, t, Sent(d)) <= 20 + Count(cfg, t, WasReset(d))
  {
    SendLedger(cfg, t, d);
    AttemptsBounded(cfg, t, d);
  }

  // ------------------------------------------------------------------------------------------------------- deferrals

  /** The delivery could be deferred once more under the cooldown its endpoint has now. */
  predicate Deferrable(s: State, d: Id) {
    && d in s.rows && s.rows[d].endpointId in s.eps
    && !s.rows[d].status.Terminal()
    && s.eps[s.rows[d].endpointId].circuit.Open?
    && s.eps[s.rows[d].endpointId].cooldownUntil.Some?
    && s.rows[d].nextRetryAt < s.eps[s.rows[d].endpointId].cooldownUntil.value
  }

  /** A deferral uses up the current cooldown. */
  lemma {:induction false} DeferralStep(cfg: Config, s: State, l: Label, d: Id)
    requires Normal(cfg) && Inv(cfg, s) && Enabled(cfg, s, l) && d in s.rows && Happens(cfg, s, l, Deferred(d))
    ensures Deferrable(s, d) && !Deferrable(Next(cfg, s, l), d)
    ensures !Happens(cfg, s, l, Opened(s.rows[d].endpointId))
  {
    NextRow(cfg, s, l, d);
    NextEndpoint(cfg, s, l, s.rows[d].endpointId);
    InHand(cfg, s);
  }

  /** Only an opening failure makes a delivery deferrable. */
  lemma {:induction false} DeferrableStep(cfg: Config, s: State, l: Label, d: Id)
    requires Normal(cfg) && Inv(cfg, s) && Enabled(cfg, s, l) && d in s.rows && Deferrable(Next(cfg, s, l), d)
    ensures Deferrable(s, d) || Happens(cfg, s, l, Opened(s.rows[d].endpointId))
  {
    var e := s.rows[d].endpointId;
    NextRow(cfg, s, l, d);
    NextEndpoint(cfg, s, l, e);
    assert EndpointOk(cfg, s.eps[e], s.now);
    if s.phase.Busy? {
      InHand(cfg, s);
    }
  }

  ghost predicate DeferralsCovered(cfg: Config, t: Trace, d: Id)
    requires Run(cfg, t)
  {
    var s := At(cfg, t);
    if d in s.rows then
      Count(cfg, t, Deferred(d)) + One(Deferrable(s, d)) <= Count(cfg, t, Opened(s.rows[d].endpointId))
    else
      Count(cfg, t, Deferred(d)) == 0
  }

  /** An endpoint whose circuit is open has had an opening failure. */
  lemma {:induction false} OpenWasOpened(cfg: Config, t: Trace, e: Id)
    requires Normal(cfg) && Run(cfg, t) && e in At(cfg, t).eps && At(cfg, t).eps[e].circuit.Open?
    ensures Count(cfg, t, Opened(e)) >= 1
  {
    if t.Start? {
    } else {
      var s, l := At(cfg, t.prev), t.step;
      if e in s.eps {
        NextEndpoint(cfg, s, l, e);
        if s.eps[e].circuit.Open? {
          OpenWasOpened(cfg, t.prev, e);
        }
      }
    }
  }

  lemma {:induction false} DeferralsStep(cfg: Config, t: Trace, d: Id)
    requires Normal(cfg) && Run(cfg, t) && t.Then? && Inv(cfg, At(cfg, t.prev)) && DeferralsCovered(cfg, t.prev, d)
    requires d in At(cfg, t.prev).rows
    ensures DeferralsCovered(cfg, t, d)
  {
    hide Next, Happens, Deferrable;
    var s, l := At(cfg, t.prev), t.step;
    RowStep(cfg, s, l, d);
    if Happens(cfg, s, l, Deferred(d)) {
      DeferralStep(cfg, s, l, d);
    } else if Deferrable(Next(cfg, s, l), d) {
      DeferrableStep(cfg, s, l, d);
    }
  }

  /** However a run fails and recovers, a delivery is deferred for an open circuit at most as often as its endpoint's
      circuit was opened by a recorded failure. */
  lemma {:induction false} DeferralsBounded(cfg: Config, t: Trace, d: Id)
    requires Normal(cfg) && Run(cfg, t)
    ensures DeferralsCovered(cfg, t, d)
    ensures d in At(cfg, t).rows ==>
              Count(cfg, t, Deferred(d)) <= Count(cfg, t, Opened(At(cfg, t).rows[d].endpointId))
  {
    if t.Start? {
    } else {
      DeferralsBounded(cfg, t.prev, d);
      RunKeepsInv(cfg, t.prev);
      if d in At(cfg, t.prev).rows {
        DeferralsStep(cfg, t, d);
      } else {
        FirstDeferrals(cfg, t, d);
      }
    }
  }

  lemma {:induction false} FirstDeferrals(cfg: Config, t: Trace, d: Id)
    requires Normal(cfg) && Run(cfg, t) && t.Then? && Inv(cfg, At(cfg, t.prev)) && DeferralsCovered(cfg, t.prev, d)
    requires d !in At(cfg, t.prev).rows
    ensures DeferralsCovered(cfg, t, d)
  {
    var s, l := At(cfg, t.prev), t.step;
    if s.phase.Busy? {
      InHand(cfg, s);
    }
    if d in At(cfg, t).rows {
      NextRowOrigin(cfg, s, l, d);
      if Deferrable(At(cfg, t), d) {
        OpenWasOpened(cfg, t, At(cfg, t).rows[d].endpointId);
      }
    }
  }
}
