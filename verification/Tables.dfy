/** The rows of the `deliveries` and `endpoints` tables and the SQL statements that change them.

    Every statement is a function from the old row (or table) to the new one, so that the worker's methods can be
    proved against it and the protocol can take it as one atomic step. Times are nanoseconds on one clock; ids are
    the integers that the UUIDs denote, which keeps their order. */
module Tables {
  import opened Texts

  datatype Option<+T> = None | Some(value: T)

  type Time = int
  type Id = int

  datatype Status = Pending | Delivering | Delivered | DeadLettered {
    predicate Terminal() {
      Delivered? || DeadLettered?
    }
  }

  /** What `last_error` says. Only a transport error can be an empty text. */
  datatype Message = EndpointInactive | CircuitOpen | HttpReturned(code: int) | TransportError(text: Text)

  datatype Delivery = Delivery(
    eventId: Id,
    endpointId: Id,
    status: Status,
    attemptCount: int,
    nextRetryAt: Time,
    lastHttpStatus: Option<int>,
    lastError: Option<Message>,
    lastAttemptedAt: Option<Time>,
    deliveredAt: Option<Time>,
    deadLetteredAt: Option<Time>)

  datatype Circuit = Closed | Open | HalfOpen

  datatype Endpoint = Endpoint(
    topics: set<string>,
    active: bool,
    maxAttempts: int,
    timeoutMs: int,
    circuit: Circuit,
    failureCount: int,
    lastFailureAt: Option<Time>,
    cooldownUntil: Option<Time>)

  type Deliveries = map<Id, Delivery>
  type Endpoints = map<Id, Endpoint>

  /** What became of a statement: executed, executed with the reply lost, or not executed.
      The caller sees an error in the last two cases and cannot tell them apart. */
  datatype Outcome = Ok | Lost | Failed {
    predicate Applied() {
      !Failed?
    }
  }

  /** None of these statements fails; `fate` says what becomes of the n-th statement that a program issues. */
  predicate AllWell(fate: nat -> Outcome, from: nat, to: nat) {
    forall n: nat | from <= n < to :: fate(n).Ok?
  }

  // ---------------------------------------------------------------------------------------------------- deliveries

  /** CHECK chk_last_http_status. */
  predicate Storable(http: Option<int>) {
    http.Some? ==> 100 <= http.value <= 599
  }

  /** What a TEXT column takes: well-formed UTF-8 without a zero byte. The fixed messages are. */
  predicate StorableText(message: Option<Message>) {
    message.Some? && message.value.TransportError? ==> Utf8(message.value.text) && 0 !in message.value.text
  }

  function NewDelivery(eventId: Id, endpointId: Id, now: Time): Delivery {
    Delivery(eventId, endpointId, Pending, 0, now, None, None, None, None, None)
  }

  predicate Due(row: Delivery, now: Time) {
    row.status.Pending? && row.nextRetryAt <= now
  }

  function ClaimRow(row: Delivery, now: Time): Delivery {
    row.(status := Delivering, lastAttemptedAt := Some(now))
  }

  /** ClaimPendingDeliveriesForWorker, once the claimed ids are fixed. */
  function ClaimRows(rows: Deliveries, ids: seq<Id>, now: Time): Deliveries {
    map d | d in rows :: if d in ids then ClaimRow(rows[d], now) else rows[d]
  }

  predicate Stale(row: Delivery, now: Time, window: int) {
    row.status.Delivering? && row.lastAttemptedAt.Some? && row.lastAttemptedAt.value <= now - window
  }

  function ResetRow(row: Delivery, now: Time): Delivery {
    row.(status := Pending, nextRetryAt := now)
  }

  /** ResetStaleDelivering. */
  function ResetStale(rows: Deliveries, now: Time, window: int): Deliveries {
    map d | d in rows :: if Stale(rows[d], now, window) then ResetRow(rows[d], now) else rows[d]
  }

  /** The arguments of UpdateDeliveryAttempt. */
  datatype Write = Write(
    status: Status,
    lastHttpStatus: Option<int>,
    lastError: Option<Message>,
    nextRetryAt: Time,
    deliveredAt: Option<Time>,
    deadLetteredAt: Option<Time>)

  /** The table takes the write. */
  predicate Accepted(w: Write) {
    Storable(w.lastHttpStatus) && StorableText(w.lastError)
  }

  /** UpdateDeliveryAttempt on the row it is keyed to. It does not look at the old status. */
  function AttemptRow(row: Delivery, w: Write, now: Time): Delivery {
    Delivery(row.eventId, row.endpointId, w.status, row.attemptCount + 1, w.nextRetryAt, w.lastHttpStatus,
             w.lastError, Some(now), w.deliveredAt, w.deadLetteredAt)
  }

  /** RescheduleDelivery on the row it is keyed to. It does not look at the old status either. */
  function RescheduleRow(row: Delivery, nextRetryAt: Time, message: Message): Delivery {
    row.(status := Pending, nextRetryAt := nextRetryAt, lastError := Some(message))
  }

  // ----------------------------------------------------------------------------------------------------- endpoints

  /** CHECK chk_endpoint_topics_not_empty, chk_max_attempts and chk_timeout. */
  predicate ValidLimits(topics: set<string>, maxAttempts: int, timeoutMs: int) {
    topics != {} && 1 <= maxAttempts <= 20 && 100 <= timeoutMs <= 30000
  }

  function NewEndpoint(topics: set<string>, maxAttempts: int, timeoutMs: int): Endpoint {
    Endpoint(topics, true, maxAttempts, timeoutMs, Closed, 0, None, None)
  }

  /** UpdateEndpoint: the breaker columns are not among those it sets. */
  function EditRow(ep: Endpoint, topics: set<string>, active: bool, maxAttempts: int, timeoutMs: int): Endpoint {
    ep.(topics := topics, active := active, maxAttempts := maxAttempts, timeoutMs := timeoutMs)
  }

  /** MarkEndpointDeliverySuccess. */
  function SuccessRow(ep: Endpoint): Endpoint {
    ep.(circuit := Closed, failureCount := 0, lastFailureAt := None, cooldownUntil := None)
  }

  /** MarkEndpointDeliveryFailure. */
  function FailureRow(ep: Endpoint, threshold: int, now: Time, cooldownUntil: Time): Endpoint {
    var opens := ep.failureCount + 1 >= threshold;
    ep.(failureCount := ep.failureCount + 1,
        lastFailureAt := Some(now),
        circuit := if opens then Open else ep.circuit,
        cooldownUntil := if opens then Some(cooldownUntil) else ep.cooldownUntil)
  }

  /** The WHERE clause of MoveEndpointCircuitToHalfOpen. */
  predicate MayProbe(ep: Endpoint, now: Time) {
    ep.circuit.Open? && ep.cooldownUntil.Some? && ep.cooldownUntil.value <= now
  }

  /** MoveEndpointCircuitToHalfOpen; no row is returned when the WHERE clause fails. */
  function HalfOpenRow(ep: Endpoint, now: Time): Endpoint {
    if MayProbe(ep, now) then ep.(circuit := HalfOpen) else ep
  }

  predicate SameBreaker(a: Endpoint, b: Endpoint) {
    && a.circuit == b.circuit
    && a.failureCount == b.failureCount
    && a.lastFailureAt == b.lastFailureAt
    && a.cooldownUntil == b.cooldownUntil
  }
}
