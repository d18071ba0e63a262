/** Runs without faults: they get stuck only on a reply that cannot be stored, and they do a bounded amount of work. */
module Progress {
  import opened Collections
  import opened Tables
  import opened Settings
  import opened Protocol
  import opened Invariant
  import opened Safety
  import opened Ledger
  import opened Claims
  import opened Timing
  import Backoff

  /** A statement that failed or lost its reply, a failed read, or a crash. */
  predicate Faulty(l: Label) {
    match l
    case Crash => true
    case Skip => true
    case Reset(o) => !o.Ok?
    case Claim(_, o) => !o.Ok?
    case Reschedule(_, o) => !o.Ok?
    case ToHalfOpen(_, o) => !o.Ok?
    case NoteSuccess(o) => !o.Ok?
    case NoteFailure(_, o) => !o.Ok?
    case Attempt(_, _, o) => !o.Ok?
    case _ => false
  }

  ghost predicate Faultless(t: Trace) {
    t.Then? ==> !Faulty(t.step) && Faultless(t.prev)
  }

  // --------------------------------------------------------------------------------------------------- never stuck

  /** The worker holds a reply whose status or message the deliveries table does not accept. */
  predicate HoldsUnstorableReply(s: State) {
    s.phase.Busy? && s.phase.stage.Noted? && !StorableReply(s.phase.stage.resp)
  }

  /** One of the delays that `backoff` can return. */
  function SomeDelay(cfg: Config, k: int): (delay: int)
    requires k >= 1
    ensures Backoff.MayReturn(cfg.baseBackoff, cfg.maxBackoff, k, delay)
  {
    var base := Backoff.Float(cfg.baseBackoff);
    if base * Backoff.Pow2(k - 1) > Backoff.MAX_INT64 then cfg.baseBackoff
    else Backoff.Delay(base, cfg.maxBackoff, k)
  }

  /** A faultless step of the worker from each of its phases. */
  function Proceed(cfg: Config, s: State, ids: seq<Id>): Label {
    var p := s.phase;
    match p
    case Idle => Reset(Ok)
    case Claiming => Claim(ids, Ok)
    case Working(_) => Fetch
    case Busy(job, ep, stage, _) =>
      match stage
      case Fetched =>
        if !ep.active then Attempt(s.now, 0, Ok)
        else if Passes(ep) then Send
        else if Defers(ep, s.now) then Reschedule(s.now, Ok)
        else ToHalfOpen(s.now, Ok)
      case Cleared => Send
      case Sending => Respond(NoResponse([]))
      case Answered(resp) => if Successful(resp) then NoteSuccess(Ok) else NoteFailure(s.now, Ok)
      case Noted(resp) =>
        var retries := Judge(cfg, job, ep, resp).Retry?;
        Attempt(s.now, if retries then SomeDelay(cfg, Max1(job.row.attemptCount + 1)) else 0, Ok)
  }

  /** In every reachable state the worker has a step that succeeds, unless it holds a reply that cannot be
      stored; then every statement it can issue fails. */
  lemma {:induction false} StuckExactlyOnUnstorableReply(cfg: Config, t: Trace)
    requires Normal(cfg) && Run(cfg, t)
    ensures (exists l :: FromWorker(l) && !Faulty(l) && Enabled(cfg, At(cfg, t), l))
            <==> !HoldsUnstorableReply(At(cfg, t))
  {
    hide Next;
    var s := At(cfg, t);
    RunKeepsInv(cfg, t);
    if !HoldsUnstorableReply(s) {
      var ids := ClaimExists(s.rows, s.now, cfg.batchSize);
      if s.phase.Busy? {
        InHand(cfg, s);
      } else if s.phase.Working? {
        assert Owned(s, Held(s.phase)[0]);
      }
      var l := Proceed(cfg, s, ids);
      assert Enabled(cfg, s, l);
      assert FromWorker(l) && !Faulty(l);
    }
  }

  // ------------------------------------------------------------------------------------------------- tidy between jobs

  /** A half-open circuit belongs to the delivery in hand. */
  predicate HalfOpenInHand(s: State, e: Id) {
    e in s.eps && s.eps[e].circuit.HalfOpen? ==>
      && s.phase.Busy? && s.phase.job.row.endpointId == e
      && (s.phase.stage.Cleared? || s.phase.stage.Sending? || s.phase.stage.Answered?)
  }

  lemma {:induction false} HalfOpenStep(cfg: Config, s: State, l: Label, e: Id)
    requires Normal(cfg) && Inv(cfg, s) && Enabled(cfg, s, l) && !Faulty(l) && HalfOpenInHand(s, e)
    ensures HalfOpenInHand(Next(cfg, s, l), e)
  {
    if e in s.eps && l != DropEndpoint(e) {
      NextEndpoint(cfg, s, l, e);
      assert EndpointOk(cfg, s.eps[e], s.now);
    }
    if s.phase.Busy? {
      InHand(cfg, s);
    }
  }

  /** Without faults, half_open is never visible between deliveries: the probe's outcome closes or reopens the
      circuit. */
  lemma {:induction false} HalfOpenOnlyDuringProbe(cfg: Config, t: Trace, e: Id)
    requires Normal(cfg) && Run(cfg, t) && Faultless(t)
    ensures HalfOpenInHand(At(cfg, t), e)
  {
    hide Next;
    if t.Start? {
    } else {
      HalfOpenOnlyDuringProbe(cfg, t.prev, e);
      RunKeepsInv(cfg, t.prev);
      HalfOpenStep(cfg, At(cfg, t.prev), t.step, e);
    }
  }

  // ------------------------------------------------------------------------------------------------ work ahead

  /** As long as a delivery is unfinished, an idle worker can find work: its next tick, at any time from when that
      delivery is due and an orphaned claim of it is stale, claims a batch that is not empty. */
  lemma {:induction false} NextTickClaims(cfg: Config, t: Trace, d: Id, later: Time) returns (u: Trace)
    requires Normal(cfg) && Run(cfg, t) && At(cfg, t).phase.Idle?
    requires d in At(cfg, t).rows && !At(cfg, t).rows[d].status.Terminal()
    requires At(cfg, t).now + StaleWindow(cfg) <= later && At(cfg, t).rows[d].nextRetryAt <= later
    ensures exists ids :: u == Then(Then(Then(t, Advance(later)), Reset(Ok)), Claim(ids, Ok))
    ensures Leads(cfg, t, u) && Held(At(cfg, u).phase) != []
  {
    RunKeepsInv(cfg, t);
    assert cfg.staleAfter / MILLISECOND >= 0;
    var a := Then(t, Advance(later));
    var r := Then(a, Reset(Ok));
    assert Run(cfg, a) && At(cfg, a) == At(cfg, t).(now := later);
    ResetThenClaims(cfg, At(cfg, a), d);
    assert Run(cfg, r);
    var ids := ClaimExists(At(cfg, r).rows, later, cfg.batchSize);
    ClaimIsNotEmpty(cfg, At(cfg, r), ids, d);
    u := Then(r, Claim(ids, Ok));
    assert Run(cfg, u) && Extends(t, a) && Extends(t, r);
  }

  lemma {:induction false} ResetThenClaims(cfg: Config, s: State, d: Id)
    requires s.phase.Idle? && d in s.rows && (Due(s.rows[d], s.now) || Stale(s.rows[d], s.now, StaleWindow(cfg)))
    ensures Enabled(cfg, s, Reset(Ok))
    ensures var r := Next(cfg, s, Reset(Ok));
            r.phase.Claiming? && r.now == s.now && d in r.rows && Due(r.rows[d], r.now)
  {
  }

  lemma {:induction false} ClaimIsNotEmpty(cfg: Config, s: State, ids: seq<Id>, d: Id)
    requires Normal(cfg) && s.phase.Claiming? && IsClaim(s.rows, s.now, cfg.batchSize, ids)
    requires d in s.rows && Due(s.rows[d], s.now)
    ensures Enabled(cfg, s, Claim(ids, Ok))
    ensures Next(cfg, s, Claim(ids, Ok)).now == s.now && Held(Next(cfg, s, Claim(ids, Ok)).phase) != []
  {
    assert d in DueIds(s.rows, s.now);
    assert Held(Next(cfg, s, Claim(ids, Ok)).phase) == Jobs(s.rows, ids, s.now);
  }

  // --------------------------------------------------------------------------------------------------- bounded work

  /** The attempts of some deliveries together. */
  ghost function Attempts(rows: Deliveries, ids: set<Id>): int
    requires ids <= rows.Keys
  {
    if ids == {} then 0 else var d := Any(ids); rows[d].attemptCount + Attempts(rows, ids - {d})
  }

  lemma {:induction false} AttemptsSplit(rows: Deliveries, ids: set<Id>, d: Id)
    requires ids <= rows.Keys && d in ids
    ensures Attempts(rows, ids) == rows[d].attemptCount + Attempts(rows, ids - {d})
  {
    var x := Any(ids);
    if x == d {
    } else {
      AttemptsSplit(rows, ids - {x}, d);
      AttemptsSplit(rows, ids - {d}, x);
      assert ids - {x} - {d} == ids - {d} - {x};
    }
  }

  /** Rows with the same attempts, and new rows without any, leave the sum alone. */
  lemma {:induction false} AttemptsSame(a: Deliveries, b: Deliveries, ids: set<Id>)
    requires ids <= a.Keys && ids <= b.Keys
    requires forall d | d in ids :: a[d].attemptCount == b[d].attemptCount
    ensures Attempts(a, ids) == Attempts(b, ids)
  {
    if ids == {} {
    } else {
      AttemptsSame(a, b, ids - {Any(ids)});
    }
  }

  lemma {:induction false} AttemptsGrown(rows: Deliveries, some: set<Id>, all: set<Id>)
    requires some <= all <= rows.Keys && forall d | d in all && d !in some :: rows[d].attemptCount == 0
    ensures Attempts(rows, all) == Attempts(rows, some)
    decreases all
  {
    if all - some == {} {
      assert forall d | d in all :: d in some || d in all - some;
      assert some == all;
    } else {
      var d := Any(all - some);
      AttemptsSplit(rows, all, d);
      AttemptsGrown(rows, some, all - {d});
    }
  }

  lemma {:induction false} AttemptsAtMost(rows: Deliveries, ids: set<Id>, n: int)
    requires ids <= rows.Keys && forall d | d in ids :: rows[d].attemptCount <= n
    ensures Attempts(rows, ids) <= n * |ids|
  {
    if ids == {} {
    } else {
      AttemptsAtMost(rows, ids - {Any(ids)}, n);
      OneMore(|ids|, n);
    }
  }

  ghost function AllAttempts(s: State): int {
    Attempts(s.rows, s.rows.Keys)
  }

  lemma {:induction false} KeysStay(cfg: Config, s: State, l: Label)
    requires Enabled(cfg, s, l)
    ensures s.rows.Keys <= Next(cfg, s, l).rows.Keys
  {
  }

  /** Only a written attempt changes the sum. */
  lemma {:induction false} AllAttemptsStep(cfg: Config, s: State, l: Label)
    requires Normal(cfg) && Inv(cfg, s) && Enabled(cfg, s, l)
    ensures AllAttempts(Next(cfg, s, l)) == AllAttempts(s) + One(l.Attempt? && l.outcome.Applied())
  {
    hide Next;
    var t := Next(cfg, s, l);
    KeysStay(cfg, s, l);
    forall d | d in s.rows
      ensures d in t.rows && t.rows[d] == RowAfter(cfg, s, l, d)
    {
      NextRow(cfg, s, l, d);
    }
    forall d | d in t.rows && d !in s.rows
      ensures t.rows[d].attemptCount == 0
    {
      NextRowOrigin(cfg, s, l, d);
    }
    AttemptsGrown(t.rows, s.rows.Keys, t.rows.Keys);
    if l.Attempt? && l.outcome.Applied() {
      var d := s.phase.job.id;
      AttemptsSplit(t.rows, s.rows.Keys, d);
      AttemptsSplit(s.rows, s.rows.Keys, d);
      AttemptsSame(s.rows, t.rows, s.rows.Keys - {d});
    } else {
      AttemptsSame(s.rows, t.rows, s.rows.Keys);
    }
  }

  // ------------------------------------------------------------------------------------------------- bounded work

  /** The deliveries that the cooldowns of now can still defer. */
  ghost function Deferrables(s: State): set<Id> {
    set d | d in s.rows && Deferrable(s, d)
  }

  predicate NotedInHand(p: Phase) {
    p.Busy? && p.stage.Noted?
  }

  /** What the worker still has ahead of it: for each attempt left, itself and a deferral of every delivery, and the
      deferrals of now. An attempt counts as made once its outcome is noted on the endpoint. */
  ghost function WorkAhead(s: State): int {
    var n, noted := |s.rows|, One(NotedInHand(s.phase));
    (20 * n - AllAttempts(s) - noted) * (n + 1) + |Deferrables(s)| + noted
  }

  lemma {:induction false} AttemptsLeft(cfg: Config, s: State)
    requires Inv(cfg, s)
    ensures 0 <= AllAttempts(s) + One(NotedInHand(s.phase)) <= 20 * |s.rows|
  {
    assert |s.rows.Keys| == |s.rows|;
    AttemptsNatural(s.rows, s.rows.Keys);
    if NotedInHand(s.phase) {
      InHand(cfg, s);
      var d := s.phase.job.id;
      AttemptsSplit(s.rows, s.rows.Keys, d);
      AttemptsAtMost(s.rows, s.rows.Keys - {d}, 20);
      assert |s.rows.Keys - {d}| == |s.rows| - 1;
    } else {
      AttemptsAtMost(s.rows, s.rows.Keys, 20);
    }
  }

  lemma {:induction false} AttemptsNatural(rows: Deliveries, ids: set<Id>)
    requires ids <= rows.Keys && forall d | d in ids :: 0 <= rows[d].attemptCount
    ensures 0 <= Attempts(rows, ids)
  {
    if ids == {} {
    } else {
      AttemptsNatural(rows, ids - {Any(ids)});
    }
  }

  lemma {:induction false} DeferrablesAtMost(s: State)
    ensures |Deferrables(s)| <= |s.rows|
  {
    SubsetCount(Deferrables(s), s.rows.Keys);
    assert |s.rows.Keys| == |s.rows|;
  }

  /** The work ahead is never negative, and at most twenty attempts and as many deferrals as rows for each. */
  lemma {:induction false} WorkAheadBounds(cfg: Config, s: State)
    requires Inv(cfg, s)
    ensures 0 <= WorkAhead(s)
    ensures !NotedInHand(s.phase) ==> WorkAhead(s) <= 20 * |s.rows| * (|s.rows| + 1) + |s.rows|
  {
    var n, noted := |s.rows|, One(NotedInHand(s.phase));
    AttemptsLeft(cfg, s);
    DeferrablesAtMost(s);
    Product(20 * n - AllAttempts(s) - noted, 20 * n, n + 1);
  }

  lemma {:induction false} Product(a: int, b: int, c: int)
    requires 0 <= a <= b && 0 <= c
    ensures 0 <= a * c <= b * c
  {
    assert b * c - a * c == (b - a) * c;
  }

  /** No fault, no new delivery. */
  predicate Calm(l: Label) {
    !Faulty(l) && !l.Insert?
  }

  lemma {:induction false} SameRowsWhenCalm(cfg: Config, s: State, l: Label)
    requires Enabled(cfg, s, l) && Calm(l)
    ensures Next(cfg, s, l).rows.Keys == s.rows.Keys && |Next(cfg, s, l).rows| == |s.rows|
  {
    var t := Next(cfg, s, l);
    assert t.rows.Keys == s.rows.Keys;
    assert |t.rows| == |t.rows.Keys| && |s.rows| == |s.rows.Keys|;
  }

  /** Which steps note an outcome and which end a job. */
  lemma {:induction false} CalmShape(cfg: Config, s: State, l: Label)
    requires Normal(cfg) && Inv(cfg, s) && Enabled(cfg, s, l) && Calm(l)
    ensures var t := Next(cfg, s, l);
            && (l.NoteSuccess? || l.NoteFailure? <==> NotedInHand(t.phase) && !NotedInHand(s.phase))
            && (l.Attempt? && s.phase.stage.Noted? <==> NotedInHand(s.phase) && !NotedInHand(t.phase))
            && (Happens(cfg, s, l, JobDone) <==> l.Attempt? || l.Reschedule?)
            && (l.Attempt? ==> l.outcome.Applied())
  {
  }

  lemma {:induction false} DeferrablesStep(cfg: Config, s: State, l: Label)
    requires Normal(cfg) && Inv(cfg, s) && Enabled(cfg, s, l) && Calm(l)
    ensures !l.NoteFailure? ==> |Deferrables(Next(cfg, s, l))| + One(l.Reschedule?) <= |Deferrables(s)|
  {
    hide Next, Deferrable;
    var t := Next(cfg, s, l);
    if !l.NoteFailure? {
      SameRowsWhenCalm(cfg, s, l);
      forall d | d in Deferrables(t)
        ensures d in Deferrables(s)
      {
        DeferrableStep(cfg, s, l, d);
      }
      SubsetCount(Deferrables(t), Deferrables(s));
      if l.Reschedule? {
        InHand(cfg, s);
        var d := s.phase.job.id;
        DeferralStep(cfg, s, l, d);
        assert d in Deferrables(s) && d !in Deferrables(t);
        ProperSubsetCount(Deferrables(t), Deferrables(s));
      }
    }
  }

  /** Without faults and new deliveries no step adds to the work ahead, and each finished job takes from it. */
  lemma {:induction false} WorkAheadStep(cfg: Config, s: State, l: Label)
    requires Normal(cfg) && Inv(cfg, s) && Enabled(cfg, s, l) && Calm(l)
    ensures WorkAhead(Next(cfg, s, l)) + One(Happens(cfg, s, l, JobDone)) <= WorkAhead(s)
  {
    hide Next, Happens, Deferrables, AllAttempts, NotedInHand;
    var t, n := Next(cfg, s, l), |s.rows|;
    SameRowsWhenCalm(cfg, s, l);
    CalmShape(cfg, s, l);
    AllAttemptsStep(cfg, s, l);
    DeferrablesStep(cfg, s, l);
    DeferrablesAtMost(t);
    Factor(20 * n - AllAttempts(s) - One(NotedInHand(s.phase)), n + 1);
  }

  lemma {:induction false} Factor(a: int, c: int)
    ensures (a - 1) * c == a * c - c
  {
  }

  /** Only calm steps between two moments. */
  ghost predicate CalmBetween(t: Trace, u: Trace) {
    t == u || (u.Then? && Calm(u.step) && CalmBetween(t, u.prev))
  }

  /** From any reachable state, however it came about: once there are no more faults and no new deliveries, the worker
      processes at most as many deliveries as are ahead. */
  lemma {:induction false} WorkIsBounded(cfg: Config, t: Trace, u: Trace)
    requires Normal(cfg) && Leads(cfg, t, u) && CalmBetween(t, u)
    ensures Count(cfg, u, JobDone) - Count(cfg, t, JobDone) + WorkAhead(At(cfg, u)) <= WorkAhead(At(cfg, t))
  {
    hide Next, Happens, WorkAhead;
    if t == u {
    } else {
      WorkIsBounded(cfg, t, u.prev);
      RunKeepsInv(cfg, u.prev);
      WorkAheadStep(cfg, At(cfg, u.prev), u.step);
    }
  }

  /** In figures: with n deliveries an idle worker has at most 20 n (n + 1) + n jobs left. */
  lemma {:induction false} JobsLeft(cfg: Config, t: Trace, u: Trace)
    requires Normal(cfg) && Leads(cfg, t, u) && CalmBetween(t, u) && At(cfg, t).phase.Idle?
    ensures var n := |At(cfg, t).rows|;
            Count(cfg, u, JobDone) - Count(cfg, t, JobDone) <= 20 * n * (n + 1) + n
  {
    hide Next, Happens, WorkAhead;
    WorkIsBounded(cfg, t, u);
    RunKeepsInv(cfg, t);
    RunKeepsInv(cfg, u);
    WorkAheadBounds(cfg, At(cfg, t));
    WorkAheadBounds(cfg, At(cfg, u));
  }

  lemma {:induction false} CalmKeepsRows(cfg: Config, t: Trace, u: Trace)
    requires Normal(cfg) && Leads(cfg, t, u) && CalmBetween(t, u)
    ensures At(cfg, u).rows.Keys == At(cfg, t).rows.Keys
  {
    hide Next;
    if t == u {
    } else {
      CalmKeepsRows(cfg, t, u.prev);
      SameRowsWhenCalm(cfg, At(cfg, u.prev), u.step);
    }
  }
}
