/** When max_attempts limits the requests for a delivery: each attempt that the table refuses costs one request more. */
module RequestLimit {
  import opened Tables
  import opened Settings
  import opened Protocol
  import opened Invariant
  import opened Safety
  import opened Ledger
  import opened Progress

  /** The write of an attempt whose status or message the table rejects. */
  predicate IsRefusal(cfg: Config, s: State, l: Label)
    requires Enabled(cfg, s, l)
  {
    l.Attempt? && !Accepted(WriteOf(cfg, s.phase, l.read, l.delay))
  }

  /** Nothing has failed in the run but such writes. */
  ghost predicate OnlyRefusals(cfg: Config, t: Trace)
    requires Run(cfg, t)
  {
    t.Then? ==> OnlyRefusals(cfg, t.prev) && (Faulty(t.step) ==> IsRefusal(cfg, At(cfg, t.prev), t.step))
  }

  /** How many attempts of d were refused. */
  ghost function Refusals(cfg: Config, t: Trace, d: Id): nat
    requires Run(cfg, t)
  {
    if t.Start? then 0
    else
      var s := At(cfg, t.prev);
      Refusals(cfg, t.prev, d) + One(IsRefusal(cfg, s, t.step) && s.phase.job.id == d)
  }

  lemma {:induction false} LapseIsRefusal(cfg: Config, s: State, l: Label, d: Id)
    requires Enabled(cfg, s, l) && (Faulty(l) ==> IsRefusal(cfg, s, l)) && Happens(cfg, s, l, Lapsed(d))
    ensures IsRefusal(cfg, s, l) && s.phase.job.id == d
  {
  }

  lemma {:induction false} LapsesAreRefusals(cfg: Config, t: Trace, d: Id)
    requires Run(cfg, t) && OnlyRefusals(cfg, t)
    ensures Count(cfg, t, Lapsed(d)) <= Refusals(cfg, t, d)
  {
    hide Next, Happens, IsRefusal;
    if t.Start? {
    } else {
      LapsesAreRefusals(cfg, t.prev, d);
      if Happens(cfg, At(cfg, t.prev), t.step, Lapsed(d)) {
        LapseIsRefusal(cfg, At(cfg, t.prev), t.step, d);
      }
    }
  }

  /** If nothing fails but refused writes, a delivery gets at most one request for each attempt that the endpoint's
      limit ever allowed, and one for each refusal. */
  lemma {:induction false} RequestsWithinLimit(cfg: Config, t: Trace, e: Id, m: int, d: Id)
    requires Normal(cfg) && Run(cfg, t) && OnlyRefusals(cfg, t) && 1 <= m && LimitAtMost(cfg, t, e, m)
    requires d in At(cfg, t).rows && At(cfg, t).rows[d].endpointId == e
    ensures Count(cfg, t, Sent(d)) <= m + Refusals(cfg, t, d)
  {
    hide Next, Happens;
    LapsesAreRefusals(cfg, t, d);
    BooksBalance(cfg, t, d);
    AttemptsWithinLimit(cfg, t, e, m, d);
    RunKeepsInv(cfg, t);
    if At(cfg, t).phase.Busy? {
      InHand(cfg, At(cfg, t));
    }
  }

  // ------------------------------------------------------------------------------------------------ no refusals

  /** Every reply is one that the table accepts. */
  predicate StorableReplies(t: Trace) {
    t.Then? ==> StorableReplies(t.prev) && (t.step.Respond? ==> StorableReply(t.step.resp))
  }

  lemma {:induction false} HeldReplyIsStorable(cfg: Config, t: Trace)
    requires Run(cfg, t) && StorableReplies(t)
    ensures var p := At(cfg, t).phase;
            p.Busy? && (p.stage.Answered? || p.stage.Noted?) ==> StorableReply(p.stage.resp)
  {
    if t.Start? {
    } else if At(cfg, t).phase.Busy? {
      HeldReplyIsStorable(cfg, t.prev);
      NextBusy(cfg, At(cfg, t.prev), t.step);
    }
  }

  lemma {:induction false} StorableIsNotRefused(cfg: Config, s: State, l: Label)
    requires Enabled(cfg, s, l)
    requires s.phase.Busy? && s.phase.stage.Noted? ==> StorableReply(s.phase.stage.resp)
    ensures !IsRefusal(cfg, s, l)
  {
  }

  lemma {:induction false} NothingRefused(cfg: Config, t: Trace, d: Id)
    requires Run(cfg, t) && StorableReplies(t)
    ensures Refusals(cfg, t, d) == 0
  {
    hide Next, IsRefusal;
    if t.Start? {
    } else {
      NothingRefused(cfg, t.prev, d);
      HeldReplyIsStorable(cfg, t.prev);
      StorableIsNotRefused(cfg, At(cfg, t.prev), t.step);
    }
  }

  lemma {:induction false} FaultlessRefusesNothing(cfg: Config, t: Trace, d: Id)
    requires Run(cfg, t) && Faultless(t)
    ensures OnlyRefusals(cfg, t) && Refusals(cfg, t, d) == 0
  {
    hide Next;
    if t.Start? {
    } else {
      FaultlessRefusesNothing(cfg, t.prev, d);
    }
  }

  /** So without faults the endpoint's limit bounds the requests, even if it is changed in flight. */
  lemma {:induction false} FaultlessKeepsLimit(cfg: Config, t: Trace, e: Id, m: int, d: Id)
    requires Normal(cfg) && Run(cfg, t) && Faultless(t) && 1 <= m && LimitAtMost(cfg, t, e, m)
    requires d in At(cfg, t).rows && At(cfg, t).rows[d].endpointId == e
    ensures Count(cfg, t, Sent(d)) <= m
  {
    FaultlessRefusesNothing(cfg, t, d);
    RequestsWithinLimit(cfg, t, e, m, d);
  }
}
