/** What a reply does that the table cannot store: the attempt is never written, so `max_attempts` bounds nothing.

    The HTTP client accepts 0..999 as status codes, but the CHECK on last_http_status rejects a row with 1..99 or
    600..999. And the text of a transport error can hold bytes that come from the endpoint, but last_error takes neither
    a zero byte nor malformed UTF-8. In both cases the delivery stays claimed, the stale reset returns it with its
    attempt count unchanged, and it is sent again. */
module Unstorable {
  import opened Texts
  import opened Tables
  import opened Settings
  import opened Protocol
  import opened Invariant
  import opened Safety
  import opened Ledger
  import opened Progress
  import opened RequestLimit

  const D: Id := 7
  const E: Id := 1

  /** A reply that `send` can report and the table refuses. */
  predicate Unwritable(resp: Response) {
    PossibleResponse(resp) && !StorableReply(resp)
  }

  /** Every reply in the run is this one. */
  predicate RepliesAre(t: Trace, resp: Response) {
    t.Then? ==> RepliesAre(t.prev, resp) && (t.step.Respond? ==> t.step.resp == resp)
  }

  /** A run in which this is the only reply, nothing fails but refused writes, and endpoint E has
      never allowed more than one attempt. */
  ghost predicate Staged(cfg: Config, t: Trace, resp: Response) {
    Run(cfg, t) && OnlyRefusals(cfg, t) && RepliesAre(t, resp) && LimitAtMost(cfg, t, E, 1)
  }

  /** One delivery without attempts, to one active endpoint that allows one attempt. */
  predicate Scene(s: State) {
    && s.rows.Keys == {D} && s.eps.Keys == {E}
    && s.rows[D].endpointId == E && s.rows[D].attemptCount == 0
    && s.eps[E].active && s.eps[E].maxAttempts == 1
  }

  /** The delivery waits, or its claim is orphaned. */
  predicate Between(s: State) {
    Scene(s) && s.phase.Idle? && !s.rows[D].status.Terminal() && s.rows[D].nextRetryAt <= s.now
  }

  predicate InHandOnly(s: State, stage: Stage) {
    Scene(s) && s.phase.Busy? && s.phase.stage == stage && s.phase.todo == []
    && s.phase.job == Job(D, s.rows[D]) && s.rows[D].status.Delivering? && s.rows[D].nextRetryAt <= s.now
    && s.phase.ep.active && s.phase.ep.maxAttempts == 1
  }

  /** `u` continues `t` on the same stage, with so many requests more. */
  ghost predicate Continues(cfg: Config, t: Trace, u: Trace, resp: Response, sent: nat) {
    Run(cfg, t) && Staged(cfg, u, resp) && Count(cfg, u, Sent(D)) == Count(cfg, t, Sent(D)) + sent
  }

  lemma {:induction false} Step(cfg: Config, t: Trace, l: Label, resp: Response) returns (u: Trace)
    requires Staged(cfg, t, resp) && Enabled(cfg, At(cfg, t), l)
    requires Faulty(l) ==> IsRefusal(cfg, At(cfg, t), l)
    requires l.Respond? ==> l.resp == resp
    requires var eps := Next(cfg, At(cfg, t), l).eps; E in eps ==> eps[E].maxAttempts <= 1
    ensures u == Then(t, l) && Continues(cfg, t, u, resp, One(Happens(cfg, At(cfg, t), l, Sent(D))))
    ensures At(cfg, u) == Next(cfg, At(cfg, t), l)
  {
    u := Then(t, l);
  }

  predicate Ready(s: State) {
    Scene(s) && s.phase.Claiming? && Due(s.rows[D], s.now)
    && (s.eps[E].circuit.Open? ==> s.eps[E].cooldownUntil.Some? && s.eps[E].cooldownUntil.value <= s.now)
  }

  lemma {:induction false} Waited(cfg: Config, t: Trace, resp: Response) returns (u: Trace)
    requires Normal(cfg) && Staged(cfg, t, resp) && Between(At(cfg, t))
    ensures Continues(cfg, t, u, resp, 0) && Ready(At(cfg, u))
  {
    RunKeepsInv(cfg, t);
    var s := At(cfg, t);
    assert cfg.staleAfter / MILLISECOND >= 0;
    assert EndpointOk(cfg, s.eps[E], s.now);
    var waited := Step(cfg, t, Advance(s.now + StaleWindow(cfg) + cfg.circuitCooldown), resp);
    u := Step(cfg, waited, Reset(Ok), resp);
  }

  lemma {:induction false} Claimed(cfg: Config, t: Trace, resp: Response) returns (u: Trace)
    requires Normal(cfg) && Staged(cfg, t, resp) && Ready(At(cfg, t))
    ensures Continues(cfg, t, u, resp, 0) && InHandOnly(At(cfg, u), Fetched)
    ensures var ep := At(cfg, u).phase.ep;
            ep.circuit.Open? ==> ep.cooldownUntil.Some? && ep.cooldownUntil.value <= At(cfg, u).now
  {
    assert DueIds(At(cfg, t).rows, At(cfg, t).now) == {D};
    var working := Step(cfg, t, Claim([D], Ok), resp);
    u := Step(cfg, working, Fetch, resp);
  }

  lemma {:induction false} Dispatched(cfg: Config, t: Trace, resp: Response) returns (u: Trace)
    requires Normal(cfg) && Staged(cfg, t, resp) && InHandOnly(At(cfg, t), Fetched)
    requires var ep := At(cfg, t).phase.ep;
             ep.circuit.Open? ==> ep.cooldownUntil.Some? && ep.cooldownUntil.value <= At(cfg, t).now
    ensures Continues(cfg, t, u, resp, 1) && InHandOnly(At(cfg, u), Sending)
  {
    RunKeepsInv(cfg, t);
    if Passes(At(cfg, t).phase.ep) {
      u := Step(cfg, t, Send, resp);
    } else {
      var cleared := Step(cfg, t, ToHalfOpen(At(cfg, t).now, Ok), resp);
      u := Step(cfg, cleared, Send, resp);
    }
  }

  lemma {:induction false} Answered(cfg: Config, t: Trace, resp: Response) returns (u: Trace)
    requires Normal(cfg) && Unwritable(resp) && Staged(cfg, t, resp) && InHandOnly(At(cfg, t), Sending)
    ensures Continues(cfg, t, u, resp, 0) && InHandOnly(At(cfg, u), Noted(resp))
    ensures At(cfg, u).since == At(cfg, u).now
  {
    var answered := Step(cfg, t, Respond(resp), resp);
    u := Step(cfg, answered, NoteFailure(At(cfg, t).now, Ok), resp);
  }

  lemma {:induction false} Refused(cfg: Config, t: Trace, resp: Response) returns (u: Trace)
    requires Normal(cfg) && Unwritable(resp) && Staged(cfg, t, resp) && InHandOnly(At(cfg, t), Noted(resp))
    requires At(cfg, t).since == At(cfg, t).now
    ensures Continues(cfg, t, u, resp, 0) && Between(At(cfg, u))
  {
    u := Step(cfg, t, Attempt(At(cfg, t).now, 0, Failed), resp);
  }

  lemma {:induction false} Opening(cfg: Config, resp: Response) returns (t: Trace)
    ensures Staged(cfg, t, resp) && Between(At(cfg, t)) && Count(cfg, t, Sent(D)) == 0
  {
    var a := Step(cfg, Start, AddEndpoint(E, {"topic"}, 1, 1000), resp);
    t := Step(cfg, a, Insert(map[D := Ref(0, E)], 0), resp);
    assert At(cfg, t).rows.Keys == {D};
  }

  /** For every such reply and every n there is a run with n requests for one delivery and still no attempt on record,
      although its endpoint has never allowed more than one attempt, that reply is the only one, and nothing has failed
      but the writes that the table refuses. */
  lemma {:induction false} RequestsUnbounded(cfg: Config, resp: Response, n: nat) returns (t: Trace)
    requires Normal(cfg) && Unwritable(resp)
    ensures Run(cfg, t) && OnlyRefusals(cfg, t) && RepliesAre(t, resp) && LimitAtMost(cfg, t, E, 1)
    ensures D in At(cfg, t).rows && At(cfg, t).rows[D].endpointId == E && At(cfg, t).rows[D].attemptCount == 0
    ensures Count(cfg, t, Sent(D)) == n
    ensures Between(At(cfg, t))
  {
    hide Next, Happens;
    if n == 0 {
      t := Opening(cfg, resp);
    } else {
      var before := RequestsUnbounded(cfg, resp, n - 1);
      var ready := Waited(cfg, before, resp);
      var claimed := Claimed(cfg, ready, resp);
      var dispatched := Dispatched(cfg, claimed, resp);
      var answered := Answered(cfg, dispatched, resp);
      t := Refused(cfg, answered, resp);
    }
  }

  // ---------------------------------------------------------------------------------------------- the exact condition

  lemma {:induction false} LowerLimit(cfg: Config, t: Trace, e: Id, m: int, n: int)
    requires Run(cfg, t) && LimitAtMost(cfg, t, e, m) && m <= n
    ensures LimitAtMost(cfg, t, e, n)
  {
    if t.Start? {
    } else {
      LowerLimit(cfg, t.prev, e, m, n);
    }
  }

  /** Every reply in the run is one of these. */
  ghost predicate RepliesIn(t: Trace, replies: iset<Response>) {
    t.Then? ==> RepliesIn(t.prev, replies) && (t.step.Respond? ==> t.step.resp in replies)
  }

  lemma {:induction false} AllStorable(t: Trace, replies: iset<Response>)
    requires RepliesIn(t, replies) && forall resp | resp in replies :: StorableReply(resp)
    ensures StorableReplies(t)
  {
    if t.Start? {
    } else {
      AllStorable(t.prev, replies);
    }
  }

  lemma {:induction false} OneOfThem(t: Trace, resp: Response, replies: iset<Response>)
    requires RepliesAre(t, resp) && resp in replies
    ensures RepliesIn(t, replies)
  {
    if t.Start? {
    } else {
      OneOfThem(t.prev, resp, replies);
    }
  }

  /** In all runs with these replies, in which nothing fails but refused writes, a delivery gets at most m requests if
      its endpoint never allowed more than m attempts. */
  ghost predicate LimitIsKept(cfg: Config, replies: iset<Response>, m: int) {
    forall t, d | Run(cfg, t) && OnlyRefusals(cfg, t) && RepliesIn(t, replies) && d in At(cfg, t).rows
                  && LimitAtMost(cfg, t, At(cfg, t).rows[d].endpointId, m) ::
      Count(cfg, t, Sent(d)) <= m
  }

  /** Whatever replies there may be: the limit is kept exactly if the table takes every one of them. */
  lemma {:induction false} LimitIsKeptExactlyWhenStorable(cfg: Config, replies: iset<Response>, m: int)
    requires Normal(cfg) && 1 <= m && forall resp | resp in replies :: PossibleResponse(resp)
    ensures LimitIsKept(cfg, replies, m) <==> forall resp | resp in replies :: StorableReply(resp)
  {
    if forall resp | resp in replies :: StorableReply(resp) {
      forall t, d | Run(cfg, t) && OnlyRefusals(cfg, t) && RepliesIn(t, replies) && d in At(cfg, t).rows
                    && LimitAtMost(cfg, t, At(cfg, t).rows[d].endpointId, m)
        ensures Count(cfg, t, Sent(d)) <= m
      {
        AllStorable(t, replies);
        NothingRefused(cfg, t, d);
        RequestsWithinLimit(cfg, t, At(cfg, t).rows[d].endpointId, m, d);
      }
    } else {
      var resp :| resp in replies && !StorableReply(resp);
      var t := RequestsUnbounded(cfg, resp, m + 1);
      OneOfThem(t, resp, replies);
      LowerLimit(cfg, t, E, 1, m);
      assert Count(cfg, t, Sent(D)) > m;
    }
  }

  /** The refused replies in figures: of the statuses those outside 100..599 but 0, and for instance a transport error
      that quotes a zero byte, or the byte 0xff. */
  lemma {:induction false} RefusedReplies()
    ensures forall code | 0 <= code <= 999 :: Unwritable(Http(code)) <==> 1 <= code <= 99 || 600 <= code
    ensures forall before: Text, after: Text :: Unwritable(NoResponse(before + [0] + after))
    ensures forall resp :: PossibleResponse(resp) <==> resp.NoResponse? || 0 <= resp.code <= 999
    ensures Unwritable(NoResponse([0xff])) && !Unwritable(NoResponse([0xc3, 0xa9]))
  {
    forall before: Text, after: Text
      ensures Unwritable(NoResponse(before + [0] + after))
    {
      assert (before + [0] + after)[|before|] == 0;
    }
    var e: Text := [0xc3, 0xa9];
    assert e[2..] == [];
    assert Utf8(e);
  }
}
