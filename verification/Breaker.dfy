/** The circuit breaker columns of one endpoint against the history of its deliveries' outcomes.

    The statements are taken in any order and with any arguments, so what is proved here holds for any number of
    workers in any interleaving: each statement is atomic on the endpoint row. */
module Breaker {
  import opened Tables

  /** One statement on an endpoint row. */
  datatype Touch =
    | Succeeded
    | FailedAt(now: Time, cooldownUntil: Time)
    | Probe(now: Time)
    | Edit(topics: set<string>, active: bool, maxAttempts: int, timeoutMs: int)

  function Apply(ep: Endpoint, touch: Touch, threshold: int): Endpoint {
    match touch
    case Succeeded => SuccessRow(ep)
    case FailedAt(now, cooldownUntil) => FailureRow(ep, threshold, now, cooldownUntil)
    case Probe(now) => HalfOpenRow(ep, now)
    case Edit(topics, active, maxAttempts, timeoutMs) => EditRow(ep, topics, active, maxAttempts, timeoutMs)
  }

  function ApplyAll(ep: Endpoint, touches: seq<Touch>, threshold: int): Endpoint {
    if touches == [] then ep
    else Apply(ApplyAll(ep, touches[..|touches| - 1], threshold), touches[|touches| - 1], threshold)
  }

  /** Reference: how many failures were recorded since the last success. */
  function TrailingFailures(touches: seq<Touch>): nat {
    if touches == [] then 0
    else
      var rest := touches[..|touches| - 1];
      match touches[|touches| - 1]
      case Succeeded => 0
      case FailedAt(_, _) => TrailingFailures(rest) + 1
      case Probe(_) => TrailingFailures(rest)
      case Edit(_, _, _, _) => TrailingFailures(rest)
  }

  /** Reference: the last recorded failure, if no success followed it. */
  function LastFailure(touches: seq<Touch>): Option<Touch> {
    if touches == [] then None
    else
      var rest := touches[..|touches| - 1];
      match touches[|touches| - 1]
      case Succeeded => None
      case FailedAt(_, _) => Some(touches[|touches| - 1])
      case Probe(_) => LastFailure(rest)
      case Edit(_, _, _, _) => LastFailure(rest)
  }

  /** What the breaker columns of a row may look like. */
  predicate Consistent(ep: Endpoint, threshold: int) {
    && 0 <= ep.failureCount
    && (ep.circuit.Closed? <==> ep.failureCount < threshold)
    && (ep.cooldownUntil.None? <==> ep.circuit.Closed?)
    && (ep.lastFailureAt.None? <==> ep.failureCount == 0)
  }

  /** From a fresh row on, the breaker columns are exactly determined by the recorded outcomes, except that a
      probe may show `open` as `half_open`. */
  lemma {:induction false} BreakerRefinesHistory(ep: Endpoint, touches: seq<Touch>, threshold: int)
    requires threshold > 0
    requires ep == NewEndpoint(ep.topics, ep.maxAttempts, ep.timeoutMs)
    ensures var r := ApplyAll(ep, touches, threshold);
            var last := LastFailure(touches);
            && Consistent(r, threshold)
            && r.failureCount == TrailingFailures(touches)
            && (r.circuit.Closed? <==> TrailingFailures(touches) < threshold)
            && (last.Some? <==> TrailingFailures(touches) > 0)
            && (last.Some? ==> last.value.FailedAt?)
            && r.lastFailureAt == (if last.None? then None else Some(last.value.now))
            && r.cooldownUntil == (if r.circuit.Closed? then None else Some(last.value.cooldownUntil))
  {
    if touches == [] {
    } else {
      BreakerRefinesHistory(ep, touches[..|touches| - 1], threshold);
    }
  }

  /** A failure recorded while the circuit is half open (or open) always opens it and sets a new cooldown, although
      the statement keeps the old state below the threshold. */
  lemma {:induction false} FailureAfterOpeningReopens(
    ep: Endpoint, touches: seq<Touch>, threshold: int, now: Time, cooldownUntil: Time)
    requires threshold > 0
    requires ep == NewEndpoint(ep.topics, ep.maxAttempts, ep.timeoutMs)
    requires !ApplyAll(ep, touches, threshold).circuit.Closed?
    ensures var r := ApplyAll(ep, touches + [FailedAt(now, cooldownUntil)], threshold);
            r.circuit.Open? && r.cooldownUntil == Some(cooldownUntil)
  {
    BreakerRefinesHistory(ep, touches, threshold);
    var all := touches + [FailedAt(now, cooldownUntil)];
    assert all[..|all| - 1] == touches;
  }
}
