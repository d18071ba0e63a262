/** When things may happen in a run: the spacing of a delivery's requests and of an endpoint's probes. */
module Timing {
  import opened Tables
  import opened Settings
  import opened Protocol
  import opened Invariant
  import opened Safety
  import opened Ledger

  lemma {:induction false} ClockMonotone(cfg: Config, t: Trace, u: Trace)
    requires Normal(cfg) && Leads(cfg, t, u)
    ensures At(cfg, t).now <= At(cfg, u).now
    ensures At(cfg, t).since <= At(cfg, u).since
  {
    if t == u {
    } else {
      ClockMonotone(cfg, t, u.prev);
      RunKeepsInv(cfg, u.prev);
      NextClock(cfg, At(cfg, u.prev), u.step);
    }
  }

  // --------------------------------------------------------------------------------------------------- retry spacing

  /** The delays owed for the attempts a+1 .. b. */
  function DelaySum(cfg: Config, a: int, b: int): int
    requires 0 <= a
    decreases b
  {
    if b <= a then 0 else DelaySum(cfg, a, b - 1) + RetryDelay(cfg, b)
  }

  /** Below the cap the delays of the first n failures sum up to 2^n - 1 times the base. */
  lemma {:induction false} DelaySumIs(cfg: Config, n: nat)
    requires Normal(cfg) && (n == 0 || cfg.baseBackoff * Backoff.Pow2(n - 1) <= cfg.maxBackoff)
    ensures DelaySum(cfg, 0, n) == cfg.baseBackoff * (Backoff.Pow2(n) - 1)
  {
    if n == 0 {
    } else {
      var base, p := cfg.baseBackoff, Backoff.Pow2(n - 1);
      if n >= 2 {
        Backoff.ScaledMonotone(base, n - 2, n - 1);
      }
      DelaySumIs(cfg, n - 1);
      assert base * (2 * p - 1) == base * (p - 1) + base * p;
    }
  }

  lemma {:induction false} KeyStep(cfg: Config, s: State, l: Label, d: Id)
    requires Forward(cfg) && Inv(cfg, s) && Enabled(cfg, s, l) && d in s.rows
    ensures s.rows[d].nextRetryAt <= RowAfter(cfg, s, l, d).nextRetryAt
  {
    if s.phase.Busy? {
      InHand(cfg, s);
      if l.Attempt? && Conclusion(cfg, s.phase).Retry? {
        DelayIsForward(cfg, s.phase.job.row.attemptCount + 1, l.delay);
      }
    }
  }

  /** next_retry_at never goes back, even if delays are not the intended ones. */
  lemma {:induction false} NextRetryMonotone(cfg: Config, t: Trace, u: Trace, d: Id)
    requires Forward(cfg) && Leads(cfg, t, u) && d in At(cfg, t).rows
    ensures d in At(cfg, u).rows && At(cfg, t).rows[d].nextRetryAt <= At(cfg, u).rows[d].nextRetryAt
  {
    hide Next, RowAfter;
    if t == u {
    } else {
      NextRetryMonotone(cfg, t, u.prev, d);
      RunKeepsInv(cfg, u.prev);
      KeyStep(cfg, At(cfg, u.prev), u.step, d);
      NextRow(cfg, At(cfg, u.prev), u.step, d);
    }
  }

  lemma {:induction false} NextRetryStep(cfg: Config, s: State, l: Label, d: Id)
    requires Sound(cfg) && Inv(cfg, s) && Enabled(cfg, s, l) && d in s.rows
    ensures var row, row' := s.rows[d], RowAfter(cfg, s, l, d);
            && row.nextRetryAt <= row'.nextRetryAt
            && (row'.attemptCount > row.attemptCount && !row'.status.Terminal() ==>
                  && l.Attempt?
                  && row.nextRetryAt <= l.read
                  && row'.nextRetryAt >= l.read + RetryDelay(cfg, row'.attemptCount))
  {
    if s.phase.Busy? {
      InHand(cfg, s);
      if l.Attempt? && Conclusion(cfg, s.phase).Retry? {
        RetryDelayInRange(cfg, s.phase.job.row.attemptCount + 1, l.delay);
      }
    }
  }

  lemma {:induction false} NextRetryTableStep(cfg: Config, s: State, l: Label, d: Id)
    requires Sound(cfg) && Inv(cfg, s) && Enabled(cfg, s, l) && d in s.rows
    ensures d in Next(cfg, s, l).rows
    ensures var row, row' := s.rows[d], Next(cfg, s, l).rows[d];
            && row.nextRetryAt <= row'.nextRetryAt
            && row.attemptCount <= row'.attemptCount <= row.attemptCount + 1
            && (row.status.Terminal() ==> row' == row)
            && (row'.attemptCount > row.attemptCount && !row'.status.Terminal() ==>
                  row'.nextRetryAt >= row.nextRetryAt + RetryDelay(cfg, row'.attemptCount))
  {
    NextRetryStep(cfg, s, l, d);
    NextRow(cfg, s, l, d);
    RowStep(cfg, s, l, d);
  }

  /** next_retry_at never goes back, and it has grown by at least the delays of all the failures recorded meanwhile,
      whatever resets and deferrals came in between. */
  lemma {:induction false} NextRetryGrows(cfg: Config, t: Trace, u: Trace, d: Id)
    requires Sound(cfg) && Leads(cfg, t, u) && d in At(cfg, t).rows
    ensures d in At(cfg, u).rows && 0 <= At(cfg, t).rows[d].attemptCount
    ensures At(cfg, t).rows[d].nextRetryAt <= At(cfg, u).rows[d].nextRetryAt
    ensures !At(cfg, u).rows[d].status.Terminal() ==>
              At(cfg, u).rows[d].nextRetryAt
              >= At(cfg, t).rows[d].nextRetryAt
                 + DelaySum(cfg, At(cfg, t).rows[d].attemptCount, At(cfg, u).rows[d].attemptCount)
  {
    hide Next;
    RunKeepsInv(cfg, t);
    TerminalIsFinal(cfg, t, u, d);
    if t == u {
    } else {
      NextRetryGrows(cfg, t, u.prev, d);
      TerminalIsFinal(cfg, t, u.prev, d);
      RunKeepsInv(cfg, u.prev);
      NextRetryTableStep(cfg, At(cfg, u.prev), u.step, d);
    }
  }

  /** A request for d goes out as the last step of the run. */
  ghost predicate SendsNow(cfg: Config, u: Trace, d: Id)
    requires Run(cfg, u)
  {
    u.Then? && Happens(cfg, At(cfg, u.prev), u.step, Sent(d))
  }

  /** Between any moment and a later request for d lie at least the delays of all the failures of d recorded since
      then, counted from when d was next due. From the insertion of d on, this bounds the start of its n-th request. */
  lemma {:induction false} RequestsAreSpaced(cfg: Config, t: Trace, u: Trace, d: Id)
    requires Sound(cfg) && Precedes(cfg, t, u) && d in At(cfg, t).rows && SendsNow(cfg, u, d)
    ensures d in At(cfg, u).rows && 0 <= At(cfg, t).rows[d].attemptCount
    ensures At(cfg, u).now
            >= At(cfg, t).rows[d].nextRetryAt
               + DelaySum(cfg, At(cfg, t).rows[d].attemptCount, At(cfg, u).rows[d].attemptCount)
  {
    RunKeepsInv(cfg, u.prev);
    InHand(cfg, At(cfg, u.prev));
    NextRetryGrows(cfg, t, u.prev, d);
    NextRow(cfg, At(cfg, u.prev), u.step, d);
  }

  /** After the k-th failure of d is recorded, with the clock read at `read`, no request for d starts before
      `read` plus the k-th delay. */
  lemma {:induction false} RetryWaits(cfg: Config, t: Trace, u: Trace, d: Id)
    requires Sound(cfg) && Precedes(cfg, t, u) && t.Then? && SendsNow(cfg, u, d)
    requires d in At(cfg, t.prev).rows && d in At(cfg, t).rows
    requires At(cfg, t).rows[d].attemptCount > At(cfg, t.prev).rows[d].attemptCount
    ensures t.step.Attempt? && At(cfg, t).rows[d].attemptCount >= 1
    ensures At(cfg, u).now >= t.step.read + RetryDelay(cfg, At(cfg, t).rows[d].attemptCount)
  {
    hide Next;
    RunKeepsInv(cfg, t.prev);
    NextRow(cfg, At(cfg, t.prev), t.step, d);
    RunKeepsInv(cfg, u.prev);
    InHand(cfg, At(cfg, u.prev));
    TerminalIsFinal(cfg, t, u.prev, d);
    NextRetryStep(cfg, At(cfg, t.prev), t.step, d);
    RequestsAreSpaced(cfg, t, u, d);
    AttemptsBounded(cfg, t, d);
    DelaySumPositive(cfg, At(cfg, t).rows[d].attemptCount, At(cfg, u).rows[d].attemptCount);
  }

  lemma {:induction false} DelaySumPositive(cfg: Config, a: int, b: int)
    requires Normal(cfg) && 0 <= a
    ensures DelaySum(cfg, a, b) >= 0
    decreases b
  {
    if b <= a {
    } else {
      DelaySumPositive(cfg, a, b - 1);
      Backoff.ScaledPositive(cfg.baseBackoff, b - 1);
    }
  }

  // ---------------------------------------------------------------------------------------------------------- probes

  ghost predicate ProbesNow(cfg: Config, u: Trace, e: Id)
    requires Run(cfg, u)
  {
    u.Then? && Happens(cfg, At(cfg, u.prev), u.step, Probed(e))
  }

  /** Every cooldown of e's open circuit ends at `until` or later. */
  predicate CooldownFrom(s: State, e: Id, until: Time) {
    e in s.eps && s.eps[e].circuit.Open? ==> s.eps[e].cooldownUntil.Some? && s.eps[e].cooldownUntil.value >= until
  }

  lemma {:induction false} CooldownFromStep(cfg: Config, s: State, l: Label, e: Id, from: Time)
    requires Normal(cfg) && Inv(cfg, s) && Enabled(cfg, s, l)
    requires from <= s.since && CooldownFrom(s, e, from + cfg.circuitCooldown)
    ensures CooldownFrom(Next(cfg, s, l), e, from + cfg.circuitCooldown)
  {
    if e in s.eps && l != DropEndpoint(e) {
      NextEndpoint(cfg, s, l, e);
    }
  }

  lemma {:induction false} ProbeHalfOpens(cfg: Config, s: State, l: Label, e: Id)
    requires Enabled(cfg, s, l) && Happens(cfg, s, l, Probed(e))
    ensures var t := Next(cfg, s, l); t.since == t.now == s.now && e in t.eps && t.eps[e].circuit.HalfOpen?
  {
  }

  /** From a probe on, any cooldown under which the circuit is open again ends a full cooldown after the probe. */
  lemma {:induction false} CooldownAfterProbe(cfg: Config, t: Trace, u: Trace, e: Id)
    requires Normal(cfg) && Leads(cfg, t, u) && ProbesNow(cfg, t, e)
    ensures At(cfg, u).since >= At(cfg, t).now
    ensures CooldownFrom(At(cfg, u), e, At(cfg, t).now + cfg.circuitCooldown)
  {
    if t == u {
      ProbeHalfOpens(cfg, At(cfg, u.prev), u.step, e);
    } else {
      CooldownAfterProbe(cfg, t, u.prev, e);
      RunKeepsInv(cfg, u.prev);
      NextClock(cfg, At(cfg, u.prev), u.step);
      CooldownFromStep(cfg, At(cfg, u.prev), u.step, e, At(cfg, t).now);
    }
  }

  /** Two probes of one endpoint are at least the cooldown apart. */
  lemma {:induction false} ProbesAreSpaced(cfg: Config, t: Trace, u: Trace, e: Id)
    requires Normal(cfg) && Precedes(cfg, t, u) && ProbesNow(cfg, t, e) && ProbesNow(cfg, u, e)
    ensures At(cfg, u).now >= At(cfg, t).now + cfg.circuitCooldown
  {
    CooldownAfterProbe(cfg, t, u.prev, e);
  }

  lemma {:induction false} CountProbed(cfg: Config, u: Trace, e: Id)
    requires Run(cfg, u) && u.Then?
    ensures Count(cfg, u, Probed(e)) == Count(cfg, u.prev, Probed(e)) + One(ProbesNow(cfg, u, e))
  {
  }

  lemma {:induction false} NextProbe(cfg: Config, t: Trace, w: Trace, u: Trace, e: Id, n: int)
    requires Normal(cfg) && Leads(cfg, t, w) && Precedes(cfg, w, u) && ProbesNow(cfg, w, e) && ProbesNow(cfg, u, e)
    requires (n - 1) * cfg.circuitCooldown <= At(cfg, w).now - At(cfg, t).now
    ensures n * cfg.circuitCooldown <= At(cfg, u).now - At(cfg, t).now
  {
    ProbesAreSpaced(cfg, w, u, e);
    OneMore(n, cfg.circuitCooldown);
  }

  lemma {:induction false} OneMore(n: int, c: int)
    ensures n * c == (n - 1) * c + c
  {
  }

  /** The last probe between two moments, and how late it is if there were several. */
  lemma {:induction false} LastProbe(cfg: Config, t: Trace, u: Trace, e: Id) returns (v: Trace)
    requires Normal(cfg) && Leads(cfg, t, u) && Count(cfg, u, Probed(e)) > Count(cfg, t, Probed(e))
    ensures Leads(cfg, t, v) && Leads(cfg, v, u) && ProbesNow(cfg, v, e)
    ensures (Count(cfg, u, Probed(e)) - Count(cfg, t, Probed(e)) - 1) * cfg.circuitCooldown
            <= At(cfg, v).now - At(cfg, t).now
  {
    hide Next, Happens;
    var n := Count(cfg, u, Probed(e)) - Count(cfg, t, Probed(e));
    CountProbed(cfg, u, e);
    if ProbesNow(cfg, u, e) {
      v := u;
      ClockMonotone(cfg, t, u);
      if n > 1 {
        var w := LastProbe(cfg, t, u.prev, e);
        NextProbe(cfg, t, w, u, e, n - 1);
      }
    } else {
      v := LastProbe(cfg, t, u.prev, e);
    }
  }

  /** Between two moments an endpoint is probed at most once more than whole cooldowns fit in between. */
  lemma {:induction false} ProbeRate(cfg: Config, t: Trace, u: Trace, e: Id)
    requires Normal(cfg) && Leads(cfg, t, u)
    ensures (Count(cfg, u, Probed(e)) - Count(cfg, t, Probed(e)) - 1) * cfg.circuitCooldown
            <= At(cfg, u).now - At(cfg, t).now
  {
    ClockMonotone(cfg, t, u);
    var n := Count(cfg, u, Probed(e)) - Count(cfg, t, Probed(e));
    if n > 0 {
      var v := LastProbe(cfg, t, u, e);
      ClockMonotone(cfg, v, u);
    } else {
      assert (n - 1) * cfg.circuitCooldown <= 0;
    }
  }

  // -------------------------------------------------------------------------------------------------------- cooldown

  predicate CircuitHolds(s: State, e: Id, until: Time) {
    && e in s.eps && s.eps[e].circuit.Open? && s.eps[e].cooldownUntil == Some(until)
    && (s.phase.Busy? && s.phase.job.row.endpointId == e ==> s.phase.stage.Fetched? || s.phase.stage.Noted?)
  }

  lemma {:induction false} CircuitHoldsStep(cfg: Config, s: State, l: Label, e: Id, until: Time, d: Id)
    requires Normal(cfg) && Inv(cfg, s) && Enabled(cfg, s, l) && CircuitHolds(s, e, until)
    requires d in s.rows && s.rows[d].endpointId == e
    requires s.now < until
    ensures CircuitHolds(Next(cfg, s, l), e, until)
  {
    if s.phase.Busy? {
      InHand(cfg, s);
    }
    NextEndpoint(cfg, s, l, e);
    if Next(cfg, s, l).phase.Busy? {
      NextBusy(cfg, s, l);
    }
  }

  lemma {:induction false} OpeningHolds(cfg: Config, s: State, l: Label, e: Id) returns (d: Id)
    requires Normal(cfg) && Inv(cfg, s) && Enabled(cfg, s, l) && Happens(cfg, s, l, Opened(e))
    ensures CircuitHolds(Next(cfg, s, l), e, l.read + cfg.circuitCooldown)
    ensures d in Next(cfg, s, l).rows && Next(cfg, s, l).rows[d].endpointId == e
  {
    InHand(cfg, s);
    d := s.phase.job.id;
    NextRow(cfg, s, l, d);
    NextEndpoint(cfg, s, l, e);
    assert EndpointOk(cfg, s.eps[e], s.now);
  }

  /** The circuit that a failure opened stays open until its cooldown is over. */
  lemma {:induction false} CircuitStaysOpen(cfg: Config, t: Trace, u: Trace, e: Id) returns (d: Id)
    requires Normal(cfg) && Leads(cfg, t, u) && t.Then? && Happens(cfg, At(cfg, t.prev), t.step, Opened(e))
    requires At(cfg, u).now < t.step.read + cfg.circuitCooldown
    ensures CircuitHolds(At(cfg, u), e, t.step.read + cfg.circuitCooldown)
    ensures d in At(cfg, u).rows && At(cfg, u).rows[d].endpointId == e
  {
    hide Next;
    RunKeepsInv(cfg, u.prev);
    if t == u {
      d := OpeningHolds(cfg, At(cfg, t.prev), t.step, e);
    } else {
      NextClock(cfg, At(cfg, u.prev), u.step);
      d := CircuitStaysOpen(cfg, t, u.prev, e);
      CircuitHoldsStep(cfg, At(cfg, u.prev), u.step, e, t.step.read + cfg.circuitCooldown, d);
      RowStep(cfg, At(cfg, u.prev), u.step, d);
    }
  }

  /** No request goes to an endpoint between an opening failure and the end of its cooldown. */
  lemma {:induction false} NoRequestDuringCooldown(cfg: Config, t: Trace, u: Trace, e: Id, d: Id)
    requires Normal(cfg) && Precedes(cfg, t, u) && t.Then?
    requires Happens(cfg, At(cfg, t.prev), t.step, Opened(e))
    requires SendsNow(cfg, u, d) && d in At(cfg, u).rows && At(cfg, u).rows[d].endpointId == e
    ensures At(cfg, u).now >= t.step.read + cfg.circuitCooldown
  {
    RunKeepsInv(cfg, u.prev);
    InHand(cfg, At(cfg, u.prev));
    NextRow(cfg, At(cfg, u.prev), u.step, d);
    if At(cfg, u).now < t.step.read + cfg.circuitCooldown {
      var x := CircuitStaysOpen(cfg, t, u, e);
    }
  }
}
