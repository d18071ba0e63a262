/** The claim of the oldest due deliveries: it always exists, and no delivery starves. */
module Claims {
  import opened Collections
  import opened Tables
  import opened Settings
  import opened Protocol
  import opened Invariant
  import opened Ledger
  import opened Timing

  /** The first of some rows in (next_retry_at, id) order. */
  lemma {:induction false} Oldest(rows: Deliveries, due: set<Id>) returns (d: Id)
    requires due != {} && due <= rows.Keys
    ensures d in due
    ensures forall x | x in due && x != d :: Before(rows[d], d, rows[x], x)
  {
    d := Pick(due);
    var others := due - {d};
    assert forall x | x in due && x != d :: x in others;
    if others == {} {
    } else {
      var e := Oldest(rows, others);
      if Before(rows[e], e, rows[d], d) {
        d := e;
      }
    }
  }

  lemma {:induction false} TakeOldest(rows: Deliveries, due: set<Id>, limit: int) returns (ids: seq<Id>)
    requires due <= rows.Keys && 0 <= limit
    ensures Distinct(ids) && |ids| == (if |due| <= limit then |due| else limit)
    ensures forall i | 0 <= i < |ids| :: ids[i] in due
    ensures forall i, x | 0 <= i < |ids| && x in due && x !in ids :: Before(rows[ids[i]], ids[i], rows[x], x)
    decreases limit
  {
    if due == {} || limit == 0 {
      ids := [];
    } else {
      var d := Oldest(rows, due);
      var rest := TakeOldest(rows, due - {d}, limit - 1);
      ids := [d] + rest;
      assert |due - {d}| == |due| - 1;
    }
  }

  /** The claim statement has a result in every state. */
  lemma {:induction false} ClaimExists(rows: Deliveries, now: Time, limit: int) returns (ids: seq<Id>)
    requires 0 <= limit
    ensures IsClaim(rows, now, limit, ids)
  {
    ids := TakeOldest(rows, DueIds(rows, now), limit);
  }

  lemma {:induction false} ClaimIsOfRows(rows: Deliveries, now: Time, limit: int, ids: seq<Id>)
    requires IsClaim(rows, now, limit, ids)
    ensures forall i | 0 <= i < |ids| :: ids[i] in rows
  {
  }

  lemma {:induction false} ClaimCounts(rows: Deliveries, now: Time, limit: int, ids: seq<Id>)
    requires IsClaim(rows, now, limit, ids)
    ensures var due := DueIds(rows, now);
            (set x | x in ids) <= due && |(set x | x in ids)| == (if |due| <= limit then |due| else limit)
  {
    DistinctCount(ids);
  }

  lemma {:induction false} ClaimPrefers(rows: Deliveries, now: Time, limit: int, ids: seq<Id>, x: Id, y: Id)
    requires IsClaim(rows, now, limit, ids) && x in ids && y in DueIds(rows, now) && y !in ids
    ensures x in rows && y in rows && Before(rows[x], x, rows[y], y)
  {
    var i :| 0 <= i < |ids| && ids[i] == x;
  }

  /** The claimed set is determined: whatever order RETURNING gives, two claims in one state take the same rows. */
  lemma {:induction false} ClaimIsUnique(rows: Deliveries, now: Time, limit: int, a: seq<Id>, b: seq<Id>)
    requires IsClaim(rows, now, limit, a) && IsClaim(rows, now, limit, b)
    ensures (set x | x in a) == (set x | x in b)
  {
    hide IsClaim;
    var sa, sb := set x | x in a, set x | x in b;
    ClaimCounts(rows, now, limit, a);
    ClaimCounts(rows, now, limit, b);
    if sa != sb {
      var x := Missing(sa, sb);
      var y := Missing(sb, sa);
      ClaimPrefers(rows, now, limit, a, x, y);
      ClaimPrefers(rows, now, limit, b, y, x);
    }
  }

  // ------------------------------------------------------------------------------------------------------ starvation

  /** The pending rows that a claim prefers to d. */
  function Ahead(s: State, d: Id): set<Id>
    requires d in s.rows
  {
    set x | x in s.rows && s.rows[x].status.Pending? && Before(s.rows[x], x, s.rows[d], d)
  }

  /** d waits, and was due before the worker's last step. */
  predicate Overdue(s: State, d: Id) {
    d in s.rows && s.rows[d].status.Pending? && s.rows[d].nextRetryAt < s.since
  }

  /** A row that the step makes pending gets a key no earlier than the worker's previous step. */
  lemma {:induction false} NewlyPendingIsLate(cfg: Config, s: State, l: Label, x: Id)
    requires Forward(cfg) && Inv(cfg, s) && Enabled(cfg, s, l) && x in s.rows
    requires var t := Next(cfg, s, l); x in t.rows && t.rows[x].status.Pending?
    ensures Next(cfg, s, l).rows[x].nextRetryAt >= s.since || Next(cfg, s, l).rows[x] == s.rows[x]
  {
    NextRow(cfg, s, l, x);
    KeyStep(cfg, s, l, x);
    if s.phase.Busy? {
      InHand(cfg, s);
      if l.Attempt? && Conclusion(cfg, s.phase).Retry? {
        DelayIsForward(cfg, s.phase.job.row.attemptCount + 1, l.delay);
      }
    }
  }

  /** The deliveries that the step inserts ahead of d, because their transaction began before d was due. */
  function Overtaking(l: Label, row: Delivery, d: Id): set<Id> {
    if l.Insert? then
      set x | x in l.refs && Before(NewDelivery(l.refs[x].eventId, l.refs[x].endpointId, l.stamp), x, row, d)
    else {}
  }

  /** Ahead of d are the rows that are due earlier, or at the same time with a smaller id; and the insertions that get
      there are those of such rows. */
  lemma {:induction false} AheadIs(s: State, d: Id, l: Label, x: Id)
    requires d in s.rows
    ensures x in Ahead(s, d) <==>
              && x in s.rows && s.rows[x].status == Pending
              && (|| s.rows[x].nextRetryAt < s.rows[d].nextRetryAt
                  || (s.rows[x].nextRetryAt == s.rows[d].nextRetryAt && x < d))
    ensures x in Overtaking(l, s.rows[d], d) <==>
              && l.Insert? && x in l.refs
              && (l.stamp < s.rows[d].nextRetryAt || (l.stamp == s.rows[d].nextRetryAt && x < d))
  {
  }

  /** How many deliveries were inserted ahead of d between two moments. */
  ghost function Overtakers(cfg: Config, t: Trace, u: Trace, d: Id): nat
    requires Leads(cfg, t, u) && d in At(cfg, t).rows
  {
    if t == u then 0 else Overtakers(cfg, t, u.prev, d) + |Overtaking(u.step, At(cfg, t).rows[d], d)|
  }

  /** While an overdue row waits, nothing gets ahead of it but such insertions. */
  lemma {:induction false} AheadShrinks(cfg: Config, s: State, l: Label, d: Id)
    requires Forward(cfg) && Inv(cfg, s) && Enabled(cfg, s, l) && Overdue(s, d)
    requires d in Next(cfg, s, l).rows && Next(cfg, s, l).rows[d] == s.rows[d]
    ensures Ahead(Next(cfg, s, l), d) <= Ahead(s, d) + Overtaking(l, s.rows[d], d)
  {
    hide Next;
    forall x | x in Ahead(Next(cfg, s, l), d)
      ensures x in Ahead(s, d) + Overtaking(l, s.rows[d], d)
    {
      if x in s.rows {
        NewlyPendingIsLate(cfg, s, l, x);
      } else {
        NextRowOrigin(cfg, s, l, x);
      }
    }
  }

  /** A claim that passes over a due row takes a full batch from the rows ahead of it. */
  lemma {:induction false} ClaimTakesFromAhead(cfg: Config, s: State, l: Label, d: Id)
    requires Forward(cfg) && Inv(cfg, s) && Enabled(cfg, s, l) && Overdue(s, d) && Happens(cfg, s, l, BatchClaimed)
    requires d in Next(cfg, s, l).rows && Next(cfg, s, l).rows[d] == s.rows[d]
    ensures |Ahead(Next(cfg, s, l), d)| + cfg.batchSize <= |Ahead(s, d)|
  {
    var t := Next(cfg, s, l);
    var taken := set x | x in l.ids;
    assert d in DueIds(s.rows, s.now) && d !in l.ids;
    DistinctCount(l.ids);
    assert taken <= DueIds(s.rows, s.now) - {d};
    SubsetCount(taken, DueIds(s.rows, s.now) - {d});
    assert |taken| == cfg.batchSize;
    AheadShrinks(cfg, s, l, d);
    forall x | x in taken
      ensures x in Ahead(s, d) && x !in Ahead(t, d)
    {
      var i :| 0 <= i < |l.ids| && l.ids[i] == x;
      NextRow(cfg, s, l, x);
    }
    SubsetCount(Ahead(t, d) + taken, Ahead(s, d));
    assert |Ahead(t, d) + taken| == |Ahead(t, d)| + |taken|;
  }

  /** A row that is pending with an old key was so all along: leaving `pending` moves the key. */
  lemma {:induction false} StillWaiting(cfg: Config, s: State, l: Label, d: Id)
    requires Forward(cfg) && Inv(cfg, s) && Enabled(cfg, s, l) && d in s.rows
    requires Overdue(Next(cfg, s, l), d) && s.rows[d].nextRetryAt < s.since
    requires Next(cfg, s, l).rows[d].nextRetryAt == s.rows[d].nextRetryAt
    ensures Overdue(s, d) && Next(cfg, s, l).rows[d] == s.rows[d]
  {
    NewlyPendingIsLate(cfg, s, l, d);
  }

  /** As long as an overdue row waits, every executed claim takes a whole batch of the rows that were ahead of it or
      were inserted there by transactions begun before it was due. */
  lemma {:induction false} NoStarvation(cfg: Config, t: Trace, u: Trace, d: Id)
    requires Forward(cfg) && Leads(cfg, t, u) && Overdue(At(cfg, t), d)
    requires Overdue(At(cfg, u), d) && At(cfg, u).rows[d].nextRetryAt == At(cfg, t).rows[d].nextRetryAt
    ensures At(cfg, u).rows[d] == At(cfg, t).rows[d]
    ensures (Count(cfg, u, BatchClaimed) - Count(cfg, t, BatchClaimed)) * cfg.batchSize + |Ahead(At(cfg, u), d)|
            <= |Ahead(At(cfg, t), d)| + Overtakers(cfg, t, u, d)
  {
    hide Next, Happens, Ahead, Overtaking;
    if t == u {
    } else {
      var s, l := At(cfg, u.prev), u.step;
      RunKeepsInv(cfg, u.prev);
      NextRetryMonotone(cfg, t, u.prev, d);
      KeyStep(cfg, s, l, d);
      NextRow(cfg, s, l, d);
      ClockMonotone(cfg, t, u.prev);
      StillWaiting(cfg, s, l, d);
      NoStarvation(cfg, t, u.prev, d);
      StarvationStep(cfg, t, u, d);
    }
  }

  lemma {:induction false} StarvationStep(cfg: Config, t: Trace, u: Trace, d: Id)
    requires Forward(cfg) && Precedes(cfg, t, u) && Inv(cfg, At(cfg, u.prev)) && d in At(cfg, t).rows
    requires Overdue(At(cfg, u.prev), d) && d in At(cfg, u).rows
    requires At(cfg, u).rows[d] == At(cfg, u.prev).rows[d] == At(cfg, t).rows[d]
    requires (Count(cfg, u.prev, BatchClaimed) - Count(cfg, t, BatchClaimed)) * cfg.batchSize
             + |Ahead(At(cfg, u.prev), d)| <= |Ahead(At(cfg, t), d)| + Overtakers(cfg, t, u.prev, d)
    ensures Extends(t, u)
    ensures (Count(cfg, u, BatchClaimed) - Count(cfg, t, BatchClaimed)) * cfg.batchSize + |Ahead(At(cfg, u), d)|
            <= |Ahead(At(cfg, t), d)| + Overtakers(cfg, t, u, d)
  {
    hide Next, Happens, Ahead, Enabled, Overtaking;
    AheadStep(cfg, At(cfg, u.prev), u.step, d);
    if Happens(cfg, At(cfg, u.prev), u.step, BatchClaimed) {
      OneMore(Count(cfg, u, BatchClaimed) - Count(cfg, t, BatchClaimed), cfg.batchSize);
    }
  }

  lemma {:induction false} AheadStep(cfg: Config, s: State, l: Label, d: Id)
    requires Forward(cfg) && Inv(cfg, s) && Enabled(cfg, s, l) && Overdue(s, d)
    requires d in Next(cfg, s, l).rows && Next(cfg, s, l).rows[d] == s.rows[d]
    ensures |Ahead(Next(cfg, s, l), d)| + (if Happens(cfg, s, l, BatchClaimed) then cfg.batchSize else 0)
            <= |Ahead(s, d)| + |Overtaking(l, s.rows[d], d)|
  {
    hide Next, Happens, Ahead, Overtaking;
    if Happens(cfg, s, l, BatchClaimed) {
      ClaimTakesFromAhead(cfg, s, l, d);
    } else {
      AheadShrinks(cfg, s, l, d);
      SubsetCount(Ahead(Next(cfg, s, l), d), Ahead(s, d) + Overtaking(l, s.rows[d], d));
      UnionCount(Ahead(s, d), Overtaking(l, s.rows[d], d));
    }
  }

  // --------------------------------------------------------------------------------------------------- taken in time

  /** From t to u the row of d is as it is at t. */
  ghost predicate Unchanged(cfg: Config, t: Trace, u: Trace, d: Id)
    requires Leads(cfg, t, u) && d in At(cfg, t).rows
  {
    && d in At(cfg, u).rows && At(cfg, u).rows[d] == At(cfg, t).rows[d]
    && (t == u || Unchanged(cfg, t, u.prev, d))
  }

  /** The step claims d. */
  ghost predicate Takes(l: Label, d: Id) {
    l.Claim? && l.outcome.Applied() && d in l.ids
  }

  /** Nothing but a claim changes a pending row. */
  lemma {:induction false} PendingStep(cfg: Config, s: State, l: Label, d: Id)
    requires Normal(cfg) && Inv(cfg, s) && Enabled(cfg, s, l) && d in s.rows && s.rows[d].status.Pending?
    ensures d in Next(cfg, s, l).rows
    ensures Next(cfg, s, l).rows[d] == s.rows[d] || Takes(l, d)
  {
    NextRow(cfg, s, l, d);
    if s.phase.Busy? {
      InHand(cfg, s);
    }
  }

  /** A pending row stays as it is up to the claim that takes it. */
  lemma {:induction false} FindTaking(cfg: Config, t: Trace, u: Trace, d: Id) returns (v: Trace)
    requires Normal(cfg) && Leads(cfg, t, u) && d in At(cfg, t).rows && At(cfg, t).rows[d].status.Pending?
    ensures Unchanged(cfg, t, u, d) ||
            (v.Then? && Leads(cfg, t, v.prev) && Leads(cfg, v, u) && Takes(v.step, d) && Unchanged(cfg, t, v.prev, d))
  {
    hide Next;
    if t == u {
      v := u;
    } else {
      v := FindTaking(cfg, t, u.prev, d);
      if Unchanged(cfg, t, u.prev, d) {
        RunKeepsInv(cfg, u.prev);
        PendingStep(cfg, At(cfg, u.prev), u.step, d);
        if Takes(u.step, d) {
          v := u;
        }
      }
    }
  }

  /** With r rows ahead of an overdue row, those included that were inserted there meanwhile, it is taken once more
      claims were executed than batches fit into r. The claim that takes it is found, with the row unchanged until
      then, and the claims before it took no more than those r rows. */
  lemma {:induction false} TakenInTime(cfg: Config, t: Trace, u: Trace, d: Id) returns (v: Trace)
    requires Forward(cfg) && Leads(cfg, t, u) && Overdue(At(cfg, t), d)
    requires (Count(cfg, u, BatchClaimed) - Count(cfg, t, BatchClaimed)) * cfg.batchSize
             > |Ahead(At(cfg, t), d)| + Overtakers(cfg, t, u, d)
    ensures v.Then? && Leads(cfg, t, v.prev) && Leads(cfg, v, u) && Takes(v.step, d) && Unchanged(cfg, t, v.prev, d)
    ensures (Count(cfg, v.prev, BatchClaimed) - Count(cfg, t, BatchClaimed)) * cfg.batchSize
            <= |Ahead(At(cfg, t), d)| + Overtakers(cfg, t, v.prev, d)
  {
    hide Next, Happens, Ahead, Overtaking;
    v := FindTaking(cfg, t, u, d);
    if Unchanged(cfg, t, u, d) {
      ClockMonotone(cfg, t, u);
      NoStarvation(cfg, t, u, d);
      assert false;
    }
    ClockMonotone(cfg, t, v.prev);
    NoStarvation(cfg, t, v.prev, d);
  }
}
