/** Every run comes to rest: after the last fault and the last new delivery, a worker that keeps ticking finishes every
    delivery within a time that is known beforehand. */
module Quiescence {
  import opened Tables
  import opened Settings
  import opened Protocol
  import opened Invariant
  import opened Safety
  import opened Ledger
  import opened Progress
  import opened Timing
  import Backoff

  // ------------------------------------------------------------------------------------------------------ ripe ticks

  /** An unfinished delivery that a tick beginning now can claim. */
  predicate Ripe(cfg: Config, s: State, d: Id) {
    d in s.rows && (Due(s.rows[d], s.now) || Stale(s.rows[d], s.now, StaleWindow(cfg)))
  }

  predicate SomeRipe(cfg: Config, s: State) {
    exists d | d in s.rows :: Ripe(cfg, s, d)
  }

  predicate SomeDue(s: State) {
    exists d | d in s.rows :: Due(s.rows[d], s.now)
  }

  /** How many ticks between two moments began with something to claim. */
  ghost function RipeTicks(cfg: Config, t: Trace, u: Trace): nat
    requires Leads(cfg, t, u)
  {
    if t == u then 0
    else RipeTicks(cfg, t, u.prev) + One(u.step.Reset? && SomeRipe(cfg, At(cfg, u.prev)))
  }

  /** How far a tick is with its first delivery. */
  function Under(s: State): nat {
    match s.phase
    case Idle => 0
    case Claiming => if SomeDue(s) then 1 else 0
    case Working(_) => 2
    case Busy(_, _, _, _) => 2
  }

  /** What a step does to that. */
  lemma {:induction false} UnderStep(cfg: Config, s: State, l: Label)
    requires Normal(cfg) && Inv(cfg, s) && Enabled(cfg, s, l) && Calm(l)
    ensures var t, done := Next(cfg, s, l), Happens(cfg, s, l, JobDone);
            && (!l.Claim? && !done && !l.Reset? ==> Under(s) <= Under(t))
            && (l.Claim? ==> Under(s) <= 1 && Under(t) == 2 * Under(s))
            && (l.Reset? ==> Under(s) == 0 && Under(t) == if SomeRipe(cfg, s) then 1 else 0)
            && (done ==> Under(s) == 2)
  {
    if l.Claim? {
      ClaimOfDue(cfg, s, l);
    } else if l.Reset? {
      ResetMakesDue(cfg, s, l);
    } else if s.phase.Claiming? && SomeDue(s) {
      var d :| d in s.rows && Due(s.rows[d], s.now);
      NextRow(cfg, s, l, d);
    }
  }

  lemma {:induction false} ClaimOfDue(cfg: Config, s: State, l: Label)
    requires Normal(cfg) && Enabled(cfg, s, l) && l.Claim? && l.outcome.Ok?
    ensures Under(Next(cfg, s, l)) == if SomeDue(s) then 2 else 0
  {
    if SomeDue(s) {
      var d :| d in s.rows && Due(s.rows[d], s.now);
      ClaimIsNotEmpty(cfg, s, l.ids, d);
    } else {
      assert DueIds(s.rows, s.now) == {};
    }
  }

  lemma {:induction false} ResetMakesDue(cfg: Config, s: State, l: Label)
    requires Enabled(cfg, s, l) && l == Reset(Ok)
    ensures SomeDue(Next(cfg, s, l)) <==> SomeRipe(cfg, s)
  {
    var t := Next(cfg, s, l);
    if SomeRipe(cfg, s) {
      var d :| d in s.rows && Ripe(cfg, s, d);
      assert Due(t.rows[d], t.now);
    }
    if SomeDue(t) {
      var d :| d in t.rows && Due(t.rows[d], t.now);
      assert Ripe(cfg, s, d);
    }
  }

  lemma {:induction false} RipeTicksWork(cfg: Config, t: Trace, u: Trace)
    requires Normal(cfg) && Leads(cfg, t, u) && CalmBetween(t, u)
    ensures RipeTicks(cfg, t, u) + One(Under(At(cfg, t)) > 0)
            <= Count(cfg, u, JobDone) - Count(cfg, t, JobDone) + One(Under(At(cfg, u)) > 0)
  {
    hide Next, Happens, Under, SomeRipe;
    if t == u {
    } else {
      RunKeepsInv(cfg, u.prev);
      RipeTicksWork(cfg, t, u.prev);
      UnderStep(cfg, At(cfg, u.prev), u.step);
    }
  }

  /** Every tick that begins with something to claim finishes a delivery. So after the last fault and the last new
      delivery there is at most one such tick more than there is work ahead. */
  lemma {:induction false} RipeTicksBounded(cfg: Config, t: Trace, u: Trace)
    requires Normal(cfg) && Leads(cfg, t, u) && CalmBetween(t, u)
    ensures RipeTicks(cfg, t, u) <= WorkAhead(At(cfg, t)) + 1
  {
    hide Next, Happens, Under, SomeRipe, WorkAhead;
    RipeTicksWork(cfg, t, u);
    WorkIsBounded(cfg, t, u);
    RunKeepsInv(cfg, u);
    WorkAheadBounds(cfg, At(cfg, u));
  }

  // --------------------------------------------------------------------------------------------------------- horizon

  function Max(a: int, b: int): int {
    if a >= b then a else b
  }

  /** The longest that an unfinished delivery can have to wait from now on before a tick can claim it. */
  function Horizon(cfg: Config): int {
    Max(Max(cfg.baseBackoff, cfg.maxBackoff + cfg.maxBackoff / 2), Max(cfg.circuitCooldown, StaleWindow(cfg)))
  }

  /** From when on a tick can claim an unfinished delivery, if its row stays as it is. */
  function RipeFrom(cfg: Config, row: Delivery): Time {
    if row.status.Delivering? && row.lastAttemptedAt.Some? then row.lastAttemptedAt.value + StaleWindow(cfg)
    else row.nextRetryAt
  }

  lemma {:induction false} RipeExactlyFrom(cfg: Config, s: State, d: Id)
    requires Inv(cfg, s) && d in s.rows && !s.rows[d].status.Terminal()
    ensures Ripe(cfg, s, d) <==> RipeFrom(cfg, s.rows[d]) <= s.now
  {
    assert RowOk(s.rows[d], s.now);
  }

  lemma {:induction false} DelayWithinHorizon(cfg: Config, k: int, delay: int)
    requires Normal(cfg) && 1 <= k && Backoff.MayReturn(cfg.baseBackoff, cfg.maxBackoff, k, delay)
    ensures delay <= Horizon(cfg)
  {
    var base := Backoff.Float(cfg.baseBackoff);
    if base * Backoff.Pow2(k - 1) <= Backoff.MAX_INT64 {
      var intended := Backoff.Delay(base, cfg.maxBackoff, k);
      assert intended <= cfg.maxBackoff;
      if delay != intended {
        var jitter :| 0 <= jitter < intended / 2 && delay == Backoff.Jittered(intended, jitter);
      }
    }
  }

  /** A step that changes an unfinished row leaves it ripe within the horizon. */
  lemma {:induction false} ChangeWithinHorizon(cfg: Config, s: State, l: Label, d: Id)
    requires Normal(cfg) && Inv(cfg, s) && Enabled(cfg, s, l) && d in s.rows
    ensures var row, row' := s.rows[d], RowAfter(cfg, s, l, d);
            row' == row || row'.status.Terminal() || RipeFrom(cfg, row') <= s.now + Horizon(cfg)
  {
    hide Horizon;
    HorizonCovers(cfg);
    if l.Attempt? && Conclusion(cfg, s.phase).Retry? {
      DelayWithinHorizon(cfg, Max1(s.phase.job.row.attemptCount + 1), l.delay);
    } else if l.Reschedule? {
      InHand(cfg, s);
      assert EndpointOk(cfg, s.eps[s.phase.job.row.endpointId], s.now);
    }
  }

  lemma {:induction false} HorizonCovers(cfg: Config)
    requires Normal(cfg)
    ensures 0 <= Horizon(cfg) && cfg.circuitCooldown <= Horizon(cfg) && StaleWindow(cfg) <= Horizon(cfg)
  {
  }

  /** In every run, faults included, an unfinished delivery is ripe within the horizon. */
  lemma {:induction false} RipeWithinHorizon(cfg: Config, t: Trace, d: Id)
    requires Normal(cfg) && Run(cfg, t) && d in At(cfg, t).rows && !At(cfg, t).rows[d].status.Terminal()
    ensures RipeFrom(cfg, At(cfg, t).rows[d]) <= At(cfg, t).now + Horizon(cfg)
  {
    hide Horizon, Next;
    HorizonCovers(cfg);
    if t.Start? {
    } else {
      var s, l := At(cfg, t.prev), t.step;
      RunKeepsInv(cfg, t.prev);
      NextClock(cfg, s, l);
      if d in s.rows {
        RowStep(cfg, s, l, d);
        NextRow(cfg, s, l, d);
        ChangeWithinHorizon(cfg, s, l, d);
        if At(cfg, t).rows[d] == s.rows[d] {
          RipeWithinHorizon(cfg, t.prev, d);
        }
      } else {
        NextRowOrigin(cfg, s, l, d);
      }
    }
  }

  // ------------------------------------------------------------------------------------------------------ quiescence

  /** When the last tick between two moments began, or the first moment if none did. */
  ghost function LastTick(cfg: Config, t: Trace, u: Trace): Time
    requires Leads(cfg, t, u)
  {
    if t == u then At(cfg, t).now
    else if u.step.Reset? then At(cfg, u.prev).now
    else LastTick(cfg, t, u.prev)
  }

  /** At no moment between the two has it been longer than w since a tick began: no tick takes longer, with the wait for
      the next one, and the worker is not stopped. */
  ghost predicate Brisk(cfg: Config, t: Trace, u: Trace, w: int)
    requires Leads(cfg, t, u)
  {
    At(cfg, u).now <= LastTick(cfg, t, u) + w && (t == u || Brisk(cfg, t, u.prev, w))
  }

  /** How far the worker has got between two moments: three for every delivery finished, and what it is at. */
  ghost function Level(cfg: Config, t: Trace, u: Trace): int
    requires Leads(cfg, t, u)
  {
    3 * (Count(cfg, u, JobDone) - Count(cfg, t, JobDone)) + Under(At(cfg, u))
  }

  /** What one step has to do with an unfinished delivery: its row changes, or a tick begins that can claim it, only if
      the worker gets on. */
  lemma {:induction false} RestStep(cfg: Config, s: State, l: Label, d: Id)
    requires Normal(cfg) && Inv(cfg, s) && Enabled(cfg, s, l) && Calm(l) && d in s.rows
    requires d in Next(cfg, s, l).rows && !Next(cfg, s, l).rows[d].status.Terminal()
    ensures var row, row' := s.rows[d], Next(cfg, s, l).rows[d];
            var gain := 3 * One(Happens(cfg, s, l, JobDone)) + Under(Next(cfg, s, l)) - Under(s);
            && 0 <= gain
            && (row' != row ==> 1 <= gain && RipeFrom(cfg, row') <= s.now + Horizon(cfg))
            && (l.Reset? ==> 1 <= gain || s.now < RipeFrom(cfg, row))
  {
    hide Next, Happens, Horizon, Under;
    RowStep(cfg, s, l, d);
    UnderStep(cfg, s, l);
    UnderRange(s);
    UnderRange(Next(cfg, s, l));
    NextRow(cfg, s, l, d);
    ChangeWithinHorizon(cfg, s, l, d);
    RipeExactlyFrom(cfg, s, d);
    CalmShape(cfg, s, l);
    if Next(cfg, s, l).rows[d] != s.rows[d] {
      ChangeMeansGain(cfg, s, l, d);
    }
  }

  lemma {:induction false} UnderRange(s: State)
    ensures 0 <= Under(s) <= 2 && (s.phase.Claiming? && SomeDue(s) ==> Under(s) == 1)
  {
  }

  lemma {:induction false} ChangeMeansGain(cfg: Config, s: State, l: Label, d: Id)
    requires Normal(cfg) && Inv(cfg, s) && Enabled(cfg, s, l) && Calm(l) && d in s.rows
    requires RowAfter(cfg, s, l, d) != s.rows[d]
    ensures || (l.Reset? && SomeRipe(cfg, s))
            || (l.Claim? && s.phase.Claiming? && SomeDue(s))
            || l.Attempt? || l.Reschedule?
  {
    if l.Reset? {
      assert Ripe(cfg, s, d);
    } else if l.Claim? {
      var i :| 0 <= i < |l.ids| && l.ids[i] == d;
      assert Due(s.rows[d], s.now);
    }
  }

  /** The levels in time: what is reached is bounded by the level. */
  function Bound(cfg: Config, start: Time, w: int, level: int): Time {
    start + Horizon(cfg) + level * (Horizon(cfg) + w)
  }

  lemma {:induction false} BoundGrows(cfg: Config, start: Time, w: int, level: int, gain: int)
    requires Normal(cfg) && 0 <= w && 0 <= gain
    ensures Bound(cfg, start, w, level) <= Bound(cfg, start, w, level + gain)
    ensures 1 <= gain ==>
              Bound(cfg, start, w, level) + Horizon(cfg) + w <= Bound(cfg, start, w, level + gain)
  {
    hide Horizon;
    HorizonCovers(cfg);
    var k := Horizon(cfg) + w;
    assert (level + gain) * k == level * k + gain * k;
    assert 0 <= gain * k;
    if 1 <= gain {
      assert gain * k == k + (gain - 1) * k;
      assert 0 <= (gain - 1) * k;
    }
  }

  /** As long as d is unfinished, neither the beginning of the last tick nor the ripening of d is beyond the bound. */
  lemma {:induction false} RestBounded(cfg: Config, t: Trace, u: Trace, w: int, d: Id)
    requires Normal(cfg) && Leads(cfg, t, u) && CalmBetween(t, u) && 0 <= w && Brisk(cfg, t, u, w)
    requires d in At(cfg, t).rows && d in At(cfg, u).rows && !At(cfg, u).rows[d].status.Terminal()
    ensures 0 <= Level(cfg, t, u)
    ensures LastTick(cfg, t, u) <= Bound(cfg, At(cfg, t).now, w, Level(cfg, t, u))
    ensures RipeFrom(cfg, At(cfg, u).rows[d]) <= Bound(cfg, At(cfg, t).now, w, Level(cfg, t, u))
  {
    hide Next, Happens, Horizon, Under, Bound, RipeFrom;
    HorizonCovers(cfg);
    if t == u {
      RipeWithinHorizon(cfg, t, d);
      FirstBound(cfg, At(cfg, t), w);
    } else {
      RunKeepsInv(cfg, u.prev);
      TerminalIsFinal(cfg, t, u.prev, d);
      RowStep(cfg, At(cfg, u.prev), u.step, d);
      RestBounded(cfg, t, u.prev, w, d);
      RestStep(cfg, At(cfg, u.prev), u.step, d);
      BoundGrows(cfg, At(cfg, t).now, w, Level(cfg, t, u.prev), Level(cfg, t, u) - Level(cfg, t, u.prev));
    }
  }

  lemma {:induction false} FirstBound(cfg: Config, s: State, w: int)
    requires Normal(cfg) && 0 <= w
    ensures 0 <= Under(s)
    ensures s.now + Horizon(cfg) <= Bound(cfg, s.now, w, Under(s))
  {
    hide Horizon;
    HorizonCovers(cfg);
    assert 0 <= Under(s) * (Horizon(cfg) + w);
  }

  /** The time within which all is done that is unfinished in s, if ticks begin at least every w. */
  ghost function TimeToRest(cfg: Config, s: State, w: int): int {
    (3 * WorkAhead(s) + 3) * (Horizon(cfg) + w)
  }

  /** In figures: with n deliveries and an idle worker, and for the shipped configuration with its horizon of 450 s. */
  lemma {:induction false} TimeToRestIs(cfg: Config, s: State, w: int)
    requires Normal(cfg) && Inv(cfg, s) && s.phase.Idle? && 0 <= w
    ensures var n := |s.rows|;
            TimeToRest(cfg, s, w) <= (60 * n * (n + 1) + 3 * n + 3) * (Horizon(cfg) + w)
  {
    hide WorkAhead, Horizon;
    HorizonCovers(cfg);
    WorkAheadBounds(cfg, s);
    var n := |s.rows|;
    assert 3 * (20 * n * (n + 1) + n) + 3 == 60 * n * (n + 1) + 3 * n + 3;
    Product(3 * WorkAhead(s) + 3, 60 * n * (n + 1) + 3 * n + 3, Horizon(cfg) + w);
  }

  lemma {:induction false} ShippedHorizon(defaultTimeout: int, defaultMaxAttempts: int)
    ensures Horizon(Shipped(defaultTimeout, defaultMaxAttempts)) == 450_000_000_000
  {
  }

  /** Every run comes to rest: if after the last fault and the last new delivery ticks begin at least every w, every
      delivery is delivered or dead-lettered within the time to rest. */
  lemma {:induction false} Quiesces(cfg: Config, t: Trace, u: Trace, w: int)
    requires Normal(cfg) && Leads(cfg, t, u) && CalmBetween(t, u) && 0 <= w && Brisk(cfg, t, u, w)
    requires At(cfg, u).now > At(cfg, t).now + TimeToRest(cfg, At(cfg, t), w)
    ensures At(cfg, u).rows.Keys == At(cfg, t).rows.Keys
    ensures forall d | d in At(cfg, u).rows :: At(cfg, u).rows[d].status.Terminal()
  {
    hide Next, Happens, WorkAhead, Horizon, Under;
    CalmKeepsRows(cfg, t, u);
    forall d | d in At(cfg, u).rows
      ensures At(cfg, u).rows[d].status.Terminal()
    {
      if !At(cfg, u).rows[d].status.Terminal() {
        assert d in At(cfg, t).rows.Keys;
        RestBounded(cfg, t, u, w, d);
        LevelBounded(cfg, t, u);
        var level, last := Level(cfg, t, u), 3 * WorkAhead(At(cfg, t)) + 2;
        BoundGrows(cfg, At(cfg, t).now, w, level, last - level);
        OneMore(last + 1, Horizon(cfg) + w);
      }
    }
  }

  lemma {:induction false} LevelBounded(cfg: Config, t: Trace, u: Trace)
    requires Normal(cfg) && Leads(cfg, t, u) && CalmBetween(t, u)
    ensures Level(cfg, t, u) <= 3 * WorkAhead(At(cfg, t)) + 2
  {
    hide Next, Happens, WorkAhead, Under;
    WorkIsBounded(cfg, t, u);
    RunKeepsInv(cfg, u);
    WorkAheadBounds(cfg, At(cfg, u));
    UnderRange(At(cfg, u));
  }
}
