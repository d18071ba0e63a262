/** The breaker columns in a run of the protocol are what the recorded outcomes of the endpoint make them. */
module CircuitHistory {
  import opened Tables
  import opened Settings
  import opened Breaker
  import opened Protocol
  import opened Invariant

  /** The statements that have reached endpoint e since it was created. */
  ghost function Touches(cfg: Config, t: Trace, e: Id): seq<Touch>
    requires Run(cfg, t)
  {
    if t.Start? then []
    else Touched(cfg, At(cfg, t.prev), t.step, e, Touches(cfg, t.prev, e))
  }

  ghost function Touched(cfg: Config, s: State, l: Label, e: Id, before: seq<Touch>): seq<Touch>
    requires Enabled(cfg, s, l)
  {
    if l.AddEndpoint? && l.e == e then []
    else
      var touch := TouchOf(cfg, s, l, e);
      if touch.Some? then before + [touch.value] else before
  }

  /** The statement on e that the step executes, if any. */
  ghost function TouchOf(cfg: Config, s: State, l: Label, e: Id): Option<Touch>
    requires Enabled(cfg, s, l)
  {
    match l
    case EditEndpoint(x, topics, active, maxAttempts, timeoutMs) =>
      if x == e then Some(Edit(topics, active, maxAttempts, timeoutMs)) else None
    case ToHalfOpen(_, o) =>
      if o.Applied() && s.phase.job.row.endpointId == e then Some(Probe(s.now)) else None
    case NoteSuccess(o) =>
      if o.Applied() && s.phase.job.row.endpointId == e then Some(Succeeded) else None
    case NoteFailure(read, o) =>
      if o.Applied() && s.phase.job.row.endpointId == e
      then Some(FailedAt(s.now, read + cfg.circuitCooldown)) else None
    case _ => None
  }

  /** The row that e was created with. */
  ghost function Origin(cfg: Config, t: Trace, e: Id): Endpoint
    requires Run(cfg, t)
  {
    if t.Start? then NewEndpoint({}, 1, 100)
    else if t.step.AddEndpoint? && t.step.e == e then
      NewEndpoint(t.step.topics, t.step.maxAttempts, t.step.timeoutMs)
    else Origin(cfg, t.prev, e)
  }

  lemma {:induction false} ApplyLast(ep: Endpoint, touches: seq<Touch>, last: Touch, threshold: int)
    ensures ApplyAll(ep, touches + [last], threshold) == Apply(ApplyAll(ep, touches, threshold), last, threshold)
  {
    assert (touches + [last])[..|touches|] == touches;
  }

  lemma {:induction false} TouchApplies(cfg: Config, s: State, l: Label, e: Id)
    requires Enabled(cfg, s, l) && e in s.eps && l != DropEndpoint(e)
    ensures var touch := TouchOf(cfg, s, l, e);
            EndpointAfter(cfg, s, l, e)
            == if touch.Some? then Apply(s.eps[e], touch.value, cfg.circuitThreshold) else s.eps[e]
  {
  }

  lemma {:induction false} TouchStep(cfg: Config, s: State, l: Label, e: Id, origin: Endpoint, before: seq<Touch>)
    requires Enabled(cfg, s, l) && e in s.eps && l != DropEndpoint(e)
    requires s.eps[e] == ApplyAll(origin, before, cfg.circuitThreshold)
    ensures EndpointAfter(cfg, s, l, e) == ApplyAll(origin, Touched(cfg, s, l, e, before), cfg.circuitThreshold)
  {
    hide Next, EndpointAfter, TouchOf, Apply;
    TouchApplies(cfg, s, l, e);
    var touch := TouchOf(cfg, s, l, e);
    if touch.Some? {
      ApplyLast(origin, before, touch.value, cfg.circuitThreshold);
    }
  }

  lemma {:induction false} RowIsReplay(cfg: Config, t: Trace, e: Id)
    requires Normal(cfg) && Run(cfg, t) && e in At(cfg, t).eps
    ensures At(cfg, t).eps[e] == ApplyAll(Origin(cfg, t, e), Touches(cfg, t, e), cfg.circuitThreshold)
    ensures var o := Origin(cfg, t, e); o == NewEndpoint(o.topics, o.maxAttempts, o.timeoutMs)
  {
    var s, l := At(cfg, t.prev), t.step;
    if e !in s.eps {
    } else {
      NextEndpoint(cfg, s, l, e);
      RowIsReplay(cfg, t.prev, e);
      TouchStep(cfg, s, l, e, Origin(cfg, t.prev, e), Touches(cfg, t.prev, e));
    }
  }

  /** In every run failure_count is the length of the trailing run of recorded failures, the circuit is closed exactly
      while that is below the threshold, and the time columns belong to the last of those failures. */
  lemma {:induction false} BreakerFollowsRun(cfg: Config, t: Trace, e: Id)
    requires Normal(cfg) && Run(cfg, t) && e in At(cfg, t).eps
    ensures var ep, touches := At(cfg, t).eps[e], Touches(cfg, t, e);
            var last := LastFailure(touches);
            && ep.failureCount == TrailingFailures(touches)
            && (ep.circuit.Closed? <==> TrailingFailures(touches) < cfg.circuitThreshold)
            && (last.Some? <==> TrailingFailures(touches) > 0)
            && (last.Some? ==> last.value.FailedAt?)
            && ep.lastFailureAt == (if last.None? then None else Some(last.value.now))
            && ep.cooldownUntil == (if ep.circuit.Closed? then None else Some(last.value.cooldownUntil))
  {
    hide Next;
    RowIsReplay(cfg, t, e);
    BreakerRefinesHistory(Origin(cfg, t, e), Touches(cfg, t, e), cfg.circuitThreshold);
  }
}
