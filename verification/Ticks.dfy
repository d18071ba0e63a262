/** What one tick of the worker is as a part of a run, and what becomes of the batch it claims. */
module Ticks {
  import opened Tables
  import opened Settings
  import opened Protocol
  import opened Invariant
  import opened Ledger
  import Progress
  import RequestLimit

  /** `u` continues `t` without a reset, a claim or a crash. */
  ghost predicate SameTick(t: Trace, u: Trace) {
    t == u || (u.Then? && !u.step.Reset? && !u.step.Claim? && !u.step.Crash? && SameTick(t, u.prev))
  }

  /** `t` continues `before` by the head of a tick: a reset and, if that succeeded, some time later a claim. */
  ghost predicate TickHead(before: Trace, t: Trace) {
    t.Then? &&
    if t.step.Reset? then t.prev == before && Progress.Faulty(t.step)
    else t.step.Claim? && SameTick(Then(before, Reset(Ok)), t.prev)
  }

  ghost function Resets(t: Trace): nat {
    if t.Start? then 0 else Resets(t.prev) + One(t.step.Reset?)
  }

  lemma {:induction false} SameTickExtends(t: Trace, u: Trace)
    requires SameTick(t, u)
    ensures Extends(t, u) && Resets(u) == Resets(t)
  {
    if t == u {
    } else {
      SameTickExtends(t, u.prev);
    }
  }

  lemma {:induction false} WholeTickExtends(before: Trace, head: Trace, t: Trace)
    requires TickHead(before, head) && SameTick(head, t)
    ensures Extends(before, head) && Extends(head, t) && Extends(before, t)
    ensures Resets(t) == Resets(before) + 1
  {
    SameTickExtends(head, t);
    if head.step.Claim? {
      var r := Then(before, Reset(Ok));
      SameTickExtends(r, head.prev);
      assert Extends(before, r);
      ExtendsTransitive(before, r, head.prev);
    } else {
      assert Extends(before, head.prev);
    }
    ExtendsTransitive(before, head, t);
  }

  /** From t to u nothing has failed but writes that the table refuses. */
  ghost predicate FaultFree(cfg: Config, t: Trace, u: Trace)
    requires Run(cfg, u)
  {
    t == u || (u.Then? && FaultFree(cfg, t, u.prev)
               && (Progress.Faulty(u.step) ==> RequestLimit.IsRefusal(cfg, At(cfg, u.prev), u.step)))
  }

  lemma {:induction false} FaultFreeTransitive(cfg: Config, t: Trace, u: Trace, v: Trace)
    requires Run(cfg, u) && Run(cfg, v) && FaultFree(cfg, t, u) && FaultFree(cfg, u, v)
    ensures FaultFree(cfg, t, v)
  {
    if u == v {
    } else {
      FaultFreeTransitive(cfg, t, u, v.prev);
    }
  }

  /** What processing without an error makes of a claimed row: one attempt more and a decision, or no attempt and a
      later time because the circuit is open. */
  predicate Concluded(before: Delivery, after: Delivery) {
    if after.attemptCount == before.attemptCount then
      && after == before.(status := Pending, nextRetryAt := after.nextRetryAt, lastError := Some(CircuitOpen))
      && after.nextRetryAt > before.nextRetryAt
    else
      && after.attemptCount == before.attemptCount + 1 && !after.status.Delivering?
      && after.eventId == before.eventId && after.endpointId == before.endpointId
  }

  predicate InBatch(p: Phase, d: Id) {
    exists i | 0 <= i < |Held(p)| :: Held(p)[i].id == d
  }

  /** Within a tick a row changes only by being concluded, which takes it from the batch. */
  lemma {:induction false} FateStep(cfg: Config, s: State, l: Label, d: Id)
    requires Normal(cfg) && Inv(cfg, s) && Enabled(cfg, s, l) && !l.Reset? && !l.Claim? && d in s.rows
    ensures var t := Next(cfg, s, l);
            && d in t.rows
            && (InBatch(t.phase, d) ==> InBatch(s.phase, d))
            && (t.rows[d] != s.rows[d] ==>
                  InBatch(s.phase, d) && !InBatch(t.phase, d) && Concluded(s.rows[d], t.rows[d]))
  {
    hide Next;
    NextRow(cfg, s, l, d);
    BatchOnlyShrinks(cfg, s, l);
    var before, held := Held(s.phase), Held(Next(cfg, s, l).phase);
    if InBatch(Next(cfg, s, l).phase, d) {
      var i :| 0 <= i < |held| && held[i].id == d;
      assert held == before || held[i] == before[i + 1];
    }
    if Next(cfg, s, l).rows[d] != s.rows[d] {
      InHand(cfg, s);
      assert before[0].id == d;
      HandLeaves(cfg, s, l);
    }
  }

  /** The last statement on a delivery takes it from the batch. */
  lemma {:induction false} HandLeaves(cfg: Config, s: State, l: Label)
    requires Normal(cfg) && Inv(cfg, s) && Enabled(cfg, s, l) && (l.Attempt? || l.Reschedule?)
    ensures !InBatch(Next(cfg, s, l).phase, s.phase.job.id)
  {
    var todo := s.phase.todo;
    assert Held(Next(cfg, s, l).phase) == todo;
    forall i | 0 <= i < |todo|
      ensures todo[i].id != s.phase.job.id
    {
      assert Held(s.phase)[0] == s.phase.job && Held(s.phase)[i + 1] == todo[i];
    }
  }

  /** Until the next reset or claim, whatever fails: a claimed row is as the claim left it, or it has left the batch
      and was concluded from exactly that. */
  lemma {:induction false} BatchFate(cfg: Config, c: Trace, u: Trace, d: Id)
    requires Normal(cfg) && Leads(cfg, c, u) && SameTick(c, u) && d in At(cfg, c).rows
    ensures d in At(cfg, u).rows
    ensures var row, row' := At(cfg, c).rows[d], At(cfg, u).rows[d];
            row' == row || (!InBatch(At(cfg, u).phase, d) && Concluded(row, row'))
  {
    hide Next, InBatch, Concluded;
    if c == u {
    } else {
      BatchFate(cfg, c, u.prev, d);
      RunKeepsInv(cfg, u.prev);
      FateStep(cfg, At(cfg, u.prev), u.step, d);
    }
  }

  /** A row that has left the batch stays as it is until the next reset or claim. */
  lemma {:induction false} OutOfBatchStays(cfg: Config, t: Trace, u: Trace, d: Id)
    requires Normal(cfg) && Leads(cfg, t, u) && SameTick(t, u) && d in At(cfg, t).rows
    requires !InBatch(At(cfg, t).phase, d)
    ensures d in At(cfg, u).rows && At(cfg, u).rows[d] == At(cfg, t).rows[d] && !InBatch(At(cfg, u).phase, d)
  {
    hide Next, InBatch, Concluded;
    if t == u {
    } else {
      OutOfBatchStays(cfg, t, u.prev, d);
      RunKeepsInv(cfg, u.prev);
      FateStep(cfg, At(cfg, u.prev), u.step, d);
    }
  }

  lemma {:induction false} SameTickTransitive(t: Trace, u: Trace, v: Trace)
    requires SameTick(t, u) && SameTick(u, v)
    ensures SameTick(t, v)
  {
    if u == v {
    } else {
      SameTickTransitive(t, u, v.prev);
    }
  }
}
