/** Several workers on one deliveries table: when a claim is exclusive, and what that keeps.

    Nothing but time keeps a second worker from resetting and claiming a delivery that the first one still has in its
    batch. Here workers claim, reset and write in any interleaving. As long as every batch is done within the stale
    window claims are exclusive, final rows stay final and attempts stay bounded; if items take at most `b`, that is so
    in all runs exactly if a full batch of them ends within the window. */
module Lease {
  import opened Collections
  import opened Tables
  import opened Settings
  import opened Protocol

  /** A worker's batch: when it was claimed, when its last item ended, how many have ended, and what is left, with the
      attempt counts that the claim returned. */
  datatype Holding = Holding(claimedAt: Time, lastEnd: Time, ended: int, held: map<Id, int>)

  datatype Fleet = Fleet(now: Time, rows: Deliveries, workers: map<Id, Holding>)

  datatype Move =
    | Wait(time: Time)
    | Add(refs: map<Id, Ref>, stamp: Time)
    | ResetAll
    | Take(w: Id, ids: seq<Id>)             // any due rows: other workers' row locks may make the claim skip some
    | Finish(w: Id, d: Id, write: Write)
    | Postpone(w: Id, d: Id, until: Time)
    | Abandon(w: Id, d: Id)                 // an error: the row stays as it is
    | Stop(w: Id)

  predicate Holds(s: Fleet, w: Id, d: Id) {
    w in s.workers && d in s.workers[w].held
  }

  predicate Can(cfg: Config, s: Fleet, m: Move) {
    match m
    case Wait(time) => s.now <= time
    case Add(refs, stamp) => stamp <= s.now && forall d | d in refs :: d !in s.rows
    case ResetAll => true
    case Take(w, ids) =>
      && (w in s.workers ==> s.workers[w].held == map[])
      && Distinct(ids) && |ids| <= cfg.batchSize
      && forall i | 0 <= i < |ids| :: ids[i] in s.rows && Due(s.rows[ids[i]], s.now)
    case Finish(w, d, write) =>             // a retry is below the limit, which is 20 at most
      && Holds(s, w, d) && d in s.rows && !write.status.Delivering?
      && (write.status.Pending? ==> s.workers[w].held[d] + 1 < 20)
    case Postpone(w, d, _) => Holds(s, w, d) && d in s.rows
    case Abandon(w, d) => Holds(s, w, d)
    case Stop(w) => w in s.workers
  }

  function Without(s: Fleet, w: Id, d: Id): Fleet
    requires w in s.workers
  {
    var h := s.workers[w];
    s.(workers := s.workers[w := Holding(h.claimedAt, s.now, h.ended + 1, h.held - {d})])
  }

  function Make(cfg: Config, s: Fleet, m: Move): Fleet
    requires Can(cfg, s, m)
  {
    match m
    case Wait(time) => s.(now := time)
    case Add(refs, stamp) =>
      s.(rows := s.rows + map d | d in refs :: NewDelivery(refs[d].eventId, refs[d].endpointId, stamp))
    case ResetAll => s.(rows := ResetStale(s.rows, s.now, StaleWindow(cfg)))
    case Take(w, ids) =>
      s.(rows := ClaimRows(s.rows, ids, s.now),
         workers := s.workers[w := Holding(s.now, s.now, 0, map d | d in ids :: s.rows[d].attemptCount)])
    case Finish(w, d, write) => Without(s, w, d).(rows := s.rows[d := AttemptRow(s.rows[d], write, s.now)])
    case Postpone(w, d, until) => Without(s, w, d).(rows := s.rows[d := RescheduleRow(s.rows[d], until, CircuitOpen)])
    case Abandon(w, d) => Without(s, w, d)
    case Stop(w) => s.(workers := s.workers - {w})
  }

  /** Which moves there are, and what they make of the table: written out. */
  lemma {:induction false} MovesAre(cfg: Config, s: Fleet, m: Move)
    ensures match m
            case Wait(time) => Can(cfg, s, m) <==> s.now <= time
            case Add(refs, stamp) => Can(cfg, s, m) <==> stamp <= s.now && forall d | d in refs :: d !in s.rows
            case ResetAll => Can(cfg, s, m)
            case Take(w, ids) =>
              Can(cfg, s, m) <==>
                && (w in s.workers ==> s.workers[w].held.Keys == {}) && |ids| <= cfg.batchSize
                && (forall i, j | 0 <= i < j < |ids| :: ids[i] != ids[j])
                && (forall i | 0 <= i < |ids| ::
                      && ids[i] in s.rows && s.rows[ids[i]].status == Pending && s.rows[ids[i]].nextRetryAt <= s.now)
            case Finish(w, d, write) =>
              Can(cfg, s, m) <==>
                && w in s.workers && d in s.workers[w].held && d in s.rows && write.status != Delivering
                && (write.status == Pending ==> s.workers[w].held[d] + 1 < 20)
            case Postpone(w, d, _) => Can(cfg, s, m) <==> w in s.workers && d in s.workers[w].held && d in s.rows
            case Abandon(w, d) => Can(cfg, s, m) <==> w in s.workers && d in s.workers[w].held
            case Stop(w) => Can(cfg, s, m) <==> w in s.workers
  {
  }

  lemma {:induction false} MovesMake(cfg: Config, s: Fleet, m: Move, x: Id, d: Id)
    requires Can(cfg, s, m) && d in s.rows && x in s.workers
    ensures var t := Make(cfg, s, m);
            && d in t.rows && t.now == (if m.Wait? then m.time else s.now)
            && var row, row' := s.rows[d], t.rows[d];
               match m
               case ResetAll =>
                 t.workers == s.workers
                 && row' == if row.status == Delivering && row.lastAttemptedAt.Some?
                               && row.lastAttemptedAt.value + StaleWindow(cfg) <= s.now
                            then row.(status := Pending, nextRetryAt := s.now) else row
               case Take(w, ids) =>
                 && row' == (if d in ids then row.(status := Delivering, lastAttemptedAt := Some(s.now)) else row)
                 && w in t.workers && t.workers[w].claimedAt == s.now && (d in t.workers[w].held <==> d in ids)
                 && (x != w ==> x in t.workers && t.workers[x] == s.workers[x])
               case Finish(w, e, write) =>
                 && (if d != e then row' == row else
                       && row'.status == write.status && row'.attemptCount == row.attemptCount + 1
                       && row'.nextRetryAt == write.nextRetryAt && row'.lastAttemptedAt == Some(s.now))
                 && x in t.workers && (d in t.workers[x].held <==> d in s.workers[x].held && !(x == w && d == e))
               case Postpone(w, e, until) =>
                 && (if d != e then row' == row else
                       && row'.status == Pending && row'.attemptCount == row.attemptCount
                       && row'.nextRetryAt == until && row'.lastAttemptedAt == row.lastAttemptedAt)
                 && x in t.workers && (d in t.workers[x].held <==> d in s.workers[x].held && !(x == w && d == e))
               case Abandon(w, e) =>
                 && row' == row
                 && x in t.workers && (d in t.workers[x].held <==> d in s.workers[x].held && !(x == w && d == e))
               case Stop(w) => row' == row && (x in t.workers <==> x != w) && (x != w ==> t.workers[x] == s.workers[x])
               case _ => row' == row && t.workers == s.workers
  {
  }

  datatype History = Begin | Later(prev: History, move: Move)

  ghost predicate FleetRun(cfg: Config, t: History)
    decreases t, 0
  {
    t.Later? ==> FleetRun(cfg, t.prev) && Can(cfg, After(cfg, t.prev), t.move)
  }

  ghost function After(cfg: Config, t: History): Fleet
    requires FleetRun(cfg, t)
    decreases t, 1
  {
    if t.Begin? then Fleet(0, map[], map[]) else Make(cfg, After(cfg, t.prev), t.move)
  }

  ghost predicate Exclusive(s: Fleet) {
    forall w, x, d | Holds(s, w, d) && x in s.workers && w != x :: !Holds(s, x, d)
  }

  /** The row is claimed, and by this very claim. */
  predicate Covers(s: Fleet, w: Id, d: Id)
    requires Holds(s, w, d)
  {
    && d in s.rows && s.rows[d].status.Delivering? && s.rows[d].lastAttemptedAt == Some(s.workers[w].claimedAt)
    && s.rows[d].attemptCount == s.workers[w].held[d]
  }

  // ------------------------------------------------------------------------------------------------- fresh batches

  /** Every batch that is not done yet is younger than the stale window. */
  ghost predicate Fresh(cfg: Config, s: Fleet) {
    forall w | w in s.workers && s.workers[w].held != map[] :: s.now < s.workers[w].claimedAt + StaleWindow(cfg)
  }

  ghost predicate AlwaysFresh(cfg: Config, t: History)
    requires FleetRun(cfg, t)
  {
    Fresh(cfg, After(cfg, t)) && (t.Later? ==> AlwaysFresh(cfg, t.prev))
  }

  ghost predicate LeaseInv(s: Fleet) {
    && (forall w, d | Holds(s, w, d) :: Covers(s, w, d))
    && Exclusive(s)
  }

  lemma {:induction false} CoverStep(cfg: Config, s: Fleet, m: Move, w: Id, d: Id)
    requires Normal(cfg) && LeaseInv(s) && Fresh(cfg, s) && Can(cfg, s, m) && Holds(Make(cfg, s, m), w, d)
    ensures Covers(Make(cfg, s, m), w, d)
    ensures !(m.Take? && m.w == w) ==> Holds(s, w, d)
  {
    if !(m.Take? && m.w == w) {
      assert Holds(s, w, d) && Covers(s, w, d);
    }
  }

  lemma {:induction false} LeaseStep(cfg: Config, s: Fleet, m: Move)
    requires Normal(cfg) && LeaseInv(s) && Fresh(cfg, s) && Can(cfg, s, m)
    ensures LeaseInv(Make(cfg, s, m))
  {
    var t := Make(cfg, s, m);
    forall w, d | Holds(t, w, d)
      ensures Covers(t, w, d)
    {
      CoverStep(cfg, s, m, w, d);
    }
    forall w, x, d | Holds(t, w, d) && x in t.workers && w != x
      ensures !Holds(t, x, d)
    {
      CoverStep(cfg, s, m, w, d);
      if Holds(t, x, d) {
        CoverStep(cfg, s, m, x, d);
        NotTwice(cfg, s, m, w, x, d);
      }
    }
  }

  /** A claim takes pending rows, so it takes none from another batch. */
  lemma {:induction false} NotTwice(cfg: Config, s: Fleet, m: Move, w: Id, x: Id, d: Id)
    requires Can(cfg, s, m) && w != x && Exclusive(s)
    requires forall v | Holds(s, v, d) :: Covers(s, v, d)
    requires !(m.Take? && m.w == w) ==> Holds(s, w, d)
    requires !(m.Take? && m.w == x) ==> Holds(s, x, d)
    ensures !(Holds(Make(cfg, s, m), w, d) && Holds(Make(cfg, s, m), x, d))
  {
  }

  /** However long single items take: as long as every batch has always been done within the stale window, no delivery
      is in two batches, and every held row stays as its holder's claim left it. */
  lemma {:induction false} LeaseHolds(cfg: Config, t: History)
    requires Normal(cfg) && FleetRun(cfg, t) && (t.Later? ==> AlwaysFresh(cfg, t.prev))
    ensures Exclusive(After(cfg, t))
    ensures forall w, d | Holds(After(cfg, t), w, d) :: Covers(After(cfg, t), w, d)
  {
    if t.Begin? {
    } else {
      LeaseHolds(cfg, t.prev);
      LeaseStep(cfg, After(cfg, t.prev), t.move);
    }
  }

  /** `u` is `t` or a continuation of it. */
  ghost predicate Continues(t: History, u: History) {
    t == u || (u.Later? && Continues(t, u.prev))
  }

  predicate WithinBounds(row: Delivery) {
    0 <= row.attemptCount <= 20 && (!row.status.Terminal() ==> row.attemptCount <= 19)
  }

  /** The writes are keyed by id alone, but reach only rows that their worker's claim still covers. */
  lemma {:induction false} FleetRowStep(cfg: Config, s: Fleet, m: Move, d: Id)
    requires LeaseInv(s) && Can(cfg, s, m) && d in s.rows
    ensures var s' := Make(cfg, s, m);
            && d in s'.rows
            && (s.rows[d].status.Terminal() ==> s'.rows[d] == s.rows[d])
            && (WithinBounds(s.rows[d]) ==> WithinBounds(s'.rows[d]))
            && s.rows[d].attemptCount <= s'.rows[d].attemptCount
  {
    if m.Finish? || m.Postpone? {
      assert Covers(s, m.w, m.d);
    }
  }

  /** So with any number of workers, as long as batches are done in time, delivered and dead-lettered rows are final,
      and no attempt is taken back. */
  lemma {:induction false} FinalForFleet(cfg: Config, t: History, u: History, d: Id)
    requires Normal(cfg) && FleetRun(cfg, t) && FleetRun(cfg, u) && Continues(t, u)
    requires u.Later? ==> AlwaysFresh(cfg, u.prev)
    requires d in After(cfg, t).rows
    ensures d in After(cfg, u).rows
    ensures After(cfg, t).rows[d].attemptCount <= After(cfg, u).rows[d].attemptCount
    ensures After(cfg, t).rows[d].status.Terminal() ==> After(cfg, u).rows[d] == After(cfg, t).rows[d]
  {
    hide Make, Can;
    if t == u {
    } else {
      FinalForFleet(cfg, t, u.prev, d);
      LeaseHolds(cfg, u.prev);
      FleetRowStep(cfg, After(cfg, u.prev), u.move, d);
    }
  }

  /** And the attempt bounds hold: twenty, and nineteen while unfinished. */
  lemma {:induction false} AttemptsBoundedForFleet(cfg: Config, t: History, d: Id)
    requires Normal(cfg) && FleetRun(cfg, t) && (t.Later? ==> AlwaysFresh(cfg, t.prev)) && d in After(cfg, t).rows
    ensures WithinBounds(After(cfg, t).rows[d])
  {
    if t.Begin? {
    } else if d in After(cfg, t.prev).rows {
      AttemptsBoundedForFleet(cfg, t.prev, d);
      LeaseHolds(cfg, t.prev);
      FleetRowStep(cfg, After(cfg, t.prev), t.move, d);
    }
  }

  /** And this cannot be had for less: as soon as a held delivery's claim is a stale window old, another worker's reset
      and claim put it into a second batch. */
  lemma {:induction false} OverdueBatchIsShared(cfg: Config, t: History, w: Id, x: Id, d: Id) returns (u: History)
    requires Normal(cfg) && FleetRun(cfg, t) && Holds(After(cfg, t), w, d) && Covers(After(cfg, t), w, d)
    requires After(cfg, t).workers[w].claimedAt + StaleWindow(cfg) <= After(cfg, t).now
    requires x != w && x !in After(cfg, t).workers
    ensures u == Later(Later(t, ResetAll), Take(x, [d])) && FleetRun(cfg, u) && !Exclusive(After(cfg, u))
  {
    var reset := Later(t, ResetAll);
    var s := After(cfg, reset);
    assert s.rows[d].status.Pending? && s.rows[d].nextRetryAt == s.now;
    u := Later(reset, Take(x, [d]));
    assert Can(cfg, s, u.move);
    assert Holds(After(cfg, u), w, d) && Holds(After(cfg, u), x, d);
  }

  // ---------------------------------------------------------------------------------------------------- prompt items

  /** No item of any batch has been in the works for longer than b. */
  ghost predicate Prompt(s: Fleet, b: int) {
    forall w | w in s.workers && s.workers[w].held != map[] :: s.now <= s.workers[w].lastEnd + b
  }

  /** A run in which every item takes at most b. */
  ghost predicate PromptRun(cfg: Config, b: int, t: History) {
    FleetRun(cfg, t) && Prompt(After(cfg, t), b) && (t.Later? ==> PromptRun(cfg, b, t.prev))
  }

  /** How far a batch can be behind: each ended item took at most b. */
  predicate OnSchedule(cfg: Config, s: Fleet, w: Id, b: int)
    requires w in s.workers
  {
    var h := s.workers[w];
    && 0 <= h.ended && h.lastEnd <= s.now
    && h.lastEnd <= h.claimedAt + h.ended * b
    && h.ended + |h.held| <= cfg.batchSize
  }

  lemma {:induction false} ScheduleStep(cfg: Config, s: Fleet, m: Move, b: int, w: Id)
    requires Normal(cfg) && 0 <= b && Prompt(s, b) && Can(cfg, s, m) && w in Make(cfg, s, m).workers
    requires forall x | x in s.workers :: OnSchedule(cfg, s, x, b)
    ensures OnSchedule(cfg, Make(cfg, s, m), w, b)
  {
    if m.Take? && m.w == w {
      DistinctCount(m.ids);
      assert Make(cfg, s, m).workers[w].held.Keys == set d | d in m.ids;
    } else if (m.Finish? || m.Postpone? || m.Abandon?) && m.w == w {
      var h := s.workers[w];
      assert (h.ended + 1) * b == h.ended * b + b;
    }
  }

  lemma {:induction false} ScheduleKept(cfg: Config, b: int, t: History)
    requires Normal(cfg) && 0 <= b && PromptRun(cfg, b, t)
    ensures forall w | w in After(cfg, t).workers :: OnSchedule(cfg, After(cfg, t), w, b)
  {
    if t.Begin? {
    } else {
      ScheduleKept(cfg, b, t.prev);
      forall w | w in After(cfg, t).workers
        ensures OnSchedule(cfg, After(cfg, t), w, b)
      {
        ScheduleStep(cfg, After(cfg, t.prev), t.move, b, w);
      }
    }
  }

  lemma {:induction false} Scale(n: int, m: int, b: int)
    requires 0 <= b && n <= m
    ensures n * b <= m * b
  {
    assert m * b - n * b == (m - n) * b;
  }

  /** A batch on schedule that is not done yet is younger than the stale window. */
  lemma {:induction false} StillFresh(cfg: Config, s: Fleet, w: Id, b: int)
    requires 0 <= b && cfg.batchSize * b < StaleWindow(cfg)
    requires Prompt(s, b) && w in s.workers && s.workers[w].held != map[] && OnSchedule(cfg, s, w, b)
    ensures s.now < s.workers[w].claimedAt + StaleWindow(cfg)
  {
    hide StaleWindow;
    var h := s.workers[w];
    assert |h.held| >= 1;
    Scale(h.ended + 1, cfg.batchSize, b);
    assert (h.ended + 1) * b == h.ended * b + b;
  }

  lemma {:induction false} PromptIsFresh(cfg: Config, b: int, t: History)
    requires Normal(cfg) && 0 <= b && cfg.batchSize * b < StaleWindow(cfg) && PromptRun(cfg, b, t)
    ensures AlwaysFresh(cfg, t)
  {
    hide StaleWindow, Make, Can;
    ScheduleKept(cfg, b, t);
    forall w | w in After(cfg, t).workers && After(cfg, t).workers[w].held != map[]
      ensures After(cfg, t).now < After(cfg, t).workers[w].claimedAt + StaleWindow(cfg)
    {
      StillFresh(cfg, After(cfg, t), w, b);
    }
    if t.Begin? {
    } else {
      PromptIsFresh(cfg, b, t.prev);
    }
  }

  // ---------------------------------------------------------------------------------------------- slow batches share

  predicate Slow(s: Fleet, b: int, n: int, i: int) {
    && 1 in s.workers && 2 !in s.workers && s.workers.Keys == {1}
    && s.workers[1].lastEnd == s.now == i * b
    && (forall d | i <= d < n :: d in s.rows && s.rows[d].status.Delivering? && s.rows[d].lastAttemptedAt == Some(0))
    && (forall d | i <= d < n :: d in s.workers[1].held)
    && (forall d | d in s.rows && !(i <= d < n) :: s.rows[d].status.Terminal())
  }

  lemma {:induction false} Numbers(from: nat, n: nat) returns (ids: seq<Id>)
    requires from <= n
    ensures |ids| == n - from && Distinct(ids)
    ensures forall i | 0 <= i < |ids| :: ids[i] == from + i
    ensures forall d | from <= d < n :: d in ids
  {
    ids := seq(n - from, k => from + k);
    forall d | from <= d < n
      ensures d in ids
    {
      assert ids[d - from] == d;
    }
  }

  /** n fresh rows and no worker, at time 0. */
  predicate Filled(s: Fleet, n: int) {
    && s.now == 0 && s.workers == map[]
    && (forall d | 0 <= d < n :: d in s.rows && Due(s.rows[d], 0))
    && (forall d | d in s.rows :: 0 <= d < n)
  }

  lemma {:induction false} FilledTable(cfg: Config, b: int) returns (t: History)
    requires Normal(cfg) && 0 <= b
    ensures PromptRun(cfg, b, t) && Filled(After(cfg, t), cfg.batchSize)
  {
    var n := cfg.batchSize;
    assert After(cfg, Begin) == Fleet(0, map[], map[]);
    t := Later(Begin, Add(map d | 0 <= d < n :: Ref(d, 0), 0));
    assert Can(cfg, After(cfg, Begin), t.move);
    assert PromptRun(cfg, b, Begin);
  }

  lemma {:induction false} TakeAll(cfg: Config, s: Fleet, ids: seq<Id>, b: int)
    requires Normal(cfg) && 0 <= b && Filled(s, cfg.batchSize) && |ids| == cfg.batchSize && Distinct(ids)
    requires forall i | 0 <= i < |ids| :: ids[i] == i
    requires forall d | 0 <= d < cfg.batchSize :: d in ids
    ensures Can(cfg, s, Take(1, ids))
    ensures var t := Make(cfg, s, Take(1, ids)); Slow(t, b, cfg.batchSize, 0) && Prompt(t, b)
  {
    var t := Make(cfg, s, Take(1, ids));
    assert t.workers.Keys == {1};
  }

  lemma {:induction false} FullBatch(cfg: Config, b: int) returns (t: History)
    requires Normal(cfg) && 0 <= b
    ensures PromptRun(cfg, b, t) && Slow(After(cfg, t), b, cfg.batchSize, 0)
  {
    hide Make, Can, Slow, Filled;
    var filled := FilledTable(cfg, b);
    var ids := Numbers(0, cfg.batchSize);
    TakeAll(cfg, After(cfg, filled), ids, b);
    t := Later(filled, Take(1, ids));
  }

  lemma {:induction false} SlowItem(cfg: Config, b: int, before: History, i: nat) returns (t: History)
    requires Normal(cfg) && 0 <= b && i + 1 < cfg.batchSize
    requires PromptRun(cfg, b, before) && Slow(After(cfg, before), b, cfg.batchSize, i)
    ensures PromptRun(cfg, b, t) && Slow(After(cfg, t), b, cfg.batchSize, i + 1)
  {
    var end := (i + 1) * b;
    assert end == i * b + b;
    var waited := Later(before, Wait(end));
    assert PromptRun(cfg, b, waited);
    assert Holds(After(cfg, waited), 1, i);
    t := Later(waited, Finish(1, i, Write(Delivered, Some(200), None, end, Some(end), None)));
    assert PromptRun(cfg, b, t);
  }

  /** Worker 1 claims a full batch and needs the whole b for each of the first i items. */
  lemma {:induction false} SlowBatch(cfg: Config, b: int, i: nat) returns (t: History)
    requires Normal(cfg) && 0 <= b && i < cfg.batchSize
    ensures PromptRun(cfg, b, t) && Slow(After(cfg, t), b, cfg.batchSize, i)
  {
    if i == 0 {
      t := FullBatch(cfg, b);
    } else {
      var before := SlowBatch(cfg, b, i - 1);
      t := SlowItem(cfg, b, before, i - 1);
    }
  }

  /** The item during which the window runs out. */
  lemma {:induction false} ItemAtWindow(b: int, n: int, window: int) returns (i: nat)
    requires 0 <= b && 1 <= n && 0 <= window <= n * b
    ensures i < n && i * b <= window <= i * b + b
    decreases n
  {
    if window <= (n - 1) * b && n > 1 {
      i := ItemAtWindow(b, n - 1, window);
    } else {
      i := n - 1;
      assert n * b == i * b + b;
    }
  }

  /** If a full batch can outlast the window, there is a run in which a second worker's reset and ordinary claim
      take deliveries that the first still holds. */
  lemma {:induction false} SlowBatchIsShared(cfg: Config, b: int) returns (t: History)
    requires Normal(cfg) && 0 <= b && cfg.batchSize * b >= StaleWindow(cfg)
    ensures PromptRun(cfg, b, t) && !Exclusive(After(cfg, t))
    ensures t.Later? && t.prev.Later? && t.prev.move == ResetAll
    ensures t.move.Take? && var s := After(cfg, t.prev); IsClaim(s.rows, s.now, cfg.batchSize, t.move.ids)
  {
    var n, window := cfg.batchSize, StaleWindow(cfg);
    assert cfg.staleAfter / MILLISECOND >= 0;
    var i := ItemAtWindow(b, n, window);
    var slow := SlowBatch(cfg, b, i);
    var reset := WindowPasses(cfg, b, slow, i);
    var ids := Numbers(i, n);
    SecondClaim(After(cfg, reset), n, i, ids, window);
    t := Later(reset, Take(2, ids));
    assert ids[0] == i;
    assert Holds(After(cfg, t), 1, i) && Holds(After(cfg, t), 2, i);
  }

  lemma {:induction false} WindowPasses(cfg: Config, b: int, slow: History, i: nat) returns (t: History)
    requires Normal(cfg) && 0 <= b && i < cfg.batchSize && i * b <= StaleWindow(cfg) <= i * b + b
    requires PromptRun(cfg, b, slow) && Slow(After(cfg, slow), b, cfg.batchSize, i)
    ensures t == Later(Later(slow, Wait(StaleWindow(cfg))), ResetAll) && PromptRun(cfg, b, t)
    ensures var s := After(cfg, t);
            && s.now == StaleWindow(cfg) && s.workers == After(cfg, slow).workers
            && (forall d | i <= d < cfg.batchSize ::
                  d in s.rows && s.rows[d].status.Pending? && s.rows[d].nextRetryAt == s.now)
            && (forall d | d in s.rows && !(i <= d < cfg.batchSize) :: s.rows[d].status.Terminal())
  {
    var waited := Later(slow, Wait(StaleWindow(cfg)));
    assert Prompt(After(cfg, slow).(now := StaleWindow(cfg)), b);
    assert PromptRun(cfg, b, waited);
    t := Later(waited, ResetAll);
    assert PromptRun(cfg, b, t);
  }

  lemma {:induction false} SecondClaim(s: Fleet, n: nat, i: nat, ids: seq<Id>, window: int)
    requires s.now == window && i < n && |ids| == n - i && Distinct(ids)
    requires forall k | 0 <= k < |ids| :: ids[k] == i + k
    requires forall d | i <= d < n ::
               d in ids && d in s.rows && s.rows[d].status.Pending? && s.rows[d].nextRetryAt == window
    requires forall d | d in s.rows && !(i <= d < n) :: s.rows[d].status.Terminal()
    ensures IsClaim(s.rows, window, n, ids)
  {
    assert DueIds(s.rows, window) == set d | d in ids;
    DistinctCount(ids);
  }

  /** Claims are exclusive in every run with items of at most b, exactly if a full batch of them ends within the
      stale window. */
  lemma {:induction false} ExclusiveExactlyWhenBatchFitsWindow(cfg: Config, b: int)
    requires Normal(cfg) && 0 <= b
    ensures (forall t | PromptRun(cfg, b, t) :: Exclusive(After(cfg, t)))
            <==> cfg.batchSize * b < StaleWindow(cfg)
  {
    if cfg.batchSize * b < StaleWindow(cfg) {
      forall t | PromptRun(cfg, b, t)
        ensures Exclusive(After(cfg, t))
      {
        PromptIsFresh(cfg, b, t);
        LeaseHolds(cfg, t);
      }
    } else {
      var t := SlowBatchIsShared(cfg, b);
    }
  }

  /** In such runs a claimed row stays as the claim left it until its only holder is done with it. */
  lemma {:induction false} HeldRowsAreClaimed(cfg: Config, b: int, t: History, w: Id, d: Id)
    requires Normal(cfg) && 0 <= b && cfg.batchSize * b < StaleWindow(cfg)
    requires PromptRun(cfg, b, t) && Holds(After(cfg, t), w, d)
    ensures Covers(After(cfg, t), w, d)
  {
    PromptIsFresh(cfg, b, t);
    LeaseHolds(cfg, t);
  }

  /** The shipped batch of twenty and window of two minutes leave six seconds per item; the shipped timeout for an
      item is thirty. */
  lemma {:induction false} ShippedLease(defaultTimeout: int, defaultMaxAttempts: int, b: int)
    requires defaultTimeout > 0 && defaultMaxAttempts > 0 && 0 <= b
    ensures var cfg := Shipped(defaultTimeout, defaultMaxAttempts);
            (forall t | PromptRun(cfg, b, t) :: Exclusive(After(cfg, t))) <==> b < 6 * SECOND
  {
    ShippedIsSound(defaultTimeout, defaultMaxAttempts);
    ExclusiveExactlyWhenBatchFitsWindow(Shipped(defaultTimeout, defaultMaxAttempts), b);
  }
}
