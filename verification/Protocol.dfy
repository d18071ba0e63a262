/** The delivery worker over its tables as a state machine with one step per SQL statement.

    One worker runs; around it, and between any two of its steps, the clock moves, deliveries and endpoints are
    created, endpoints are edited or deleted, statements fail or lose their reply, and the process stops. A label
    carries everything a step leaves open, so a trace of labels determines the state it leads to. */
module Protocol {
  import opened Texts
  import opened Tables
  import opened Settings
  import Backoff

  // -------------------------------------------------------------------------------------------------------- replies

  /** What `send` reports. The HTTP client accepts any three-digit status code. */
  datatype Response = NoResponse(text: Text) | Http(code: int)

  predicate PossibleResponse(resp: Response) {
    resp.Http? ==> 0 <= resp.code <= 999
  }

  function StatusOf(resp: Response): int {
    if resp.Http? then resp.code else 0
  }

  /** httpStatusPtr. */
  function StatusPtr(status: int): Option<int> {
    if status == 0 then None else Some(status)
  }

  predicate Successful(resp: Response) {
    resp.Http? && 200 <= resp.code <= 299
  }

  /** isRetryableStatus. */
  predicate RetryableStatus(status: int) {
    status == 0 || status == 429 || status == 408 || status >= 500
  }

  predicate Retryable(resp: Response) {
    resp.NoResponse? || RetryableStatus(resp.code)
  }

  /** deliveryErrorMessage. */
  function MessageOf(resp: Response): Message {
    match resp
    case NoResponse(text) => TransportError(text)
    case Http(code) => HttpReturned(code)
  }

  /** The text column `deadLetter` writes: NULL for an empty message. */
  function NonEmpty(m: Message): Option<Message> {
    if m == TransportError([]) then None else Some(m)
  }

  /** The table takes the reply's status and message. */
  predicate StorableReply(resp: Response) {
    Storable(StatusPtr(StatusOf(resp))) && StorableText(Some(MessageOf(resp)))
  }

  // ---------------------------------------------------------------------------------------------------------- state

  /** A claimed row, as the claim returned it. */
  datatype Job = Job(id: Id, row: Delivery)

  /** How far `processDelivery` is with its delivery. */
  datatype Stage =
    | Fetched                    // event and endpoint read
    | Cleared                    // half-open statement done, may send
    | Sending                    // request under way
    | Answered(resp: Response)   // send returned
    | Noted(resp: Response)      // outcome recorded on the endpoint

  /** Where the worker is. `ep` is the endpoint row it read; `todo` is the rest of the batch. */
  datatype Phase =
    | Idle
    | Claiming
    | Working(todo: seq<Job>)
    | Busy(job: Job, ep: Endpoint, stage: Stage, todo: seq<Job>)

  /** `since` is the time of the worker's last step: the Go code reads its clock no earlier than that. */
  datatype State = State(now: Time, since: Time, rows: Deliveries, eps: Endpoints, phase: Phase)

  function Init(): State {
    State(0, 0, map[], map[], Idle)
  }

  /** The claimed deliveries not processed yet. */
  function Held(p: Phase): seq<Job> {
    match p
    case Idle => []
    case Claiming => []
    case Working(todo) => todo
    case Busy(job, _, _, todo) => [job] + todo
  }

  function Rest(todo: seq<Job>): Phase {
    if todo == [] then Idle else Working(todo)
  }

  // --------------------------------------------------------------------------------------------------------- claims

  /** ORDER BY next_retry_at, id. */
  predicate Before(a: Delivery, i: Id, b: Delivery, j: Id) {
    a.nextRetryAt < b.nextRetryAt || (a.nextRetryAt == b.nextRetryAt && i < j)
  }

  function DueIds(rows: Deliveries, now: Time): set<Id> {
    set d | d in rows && Due(rows[d], now)
  }

  predicate Distinct(ids: seq<Id>) {
    forall i, j | 0 <= i < j < |ids| :: ids[i] != ids[j]
  }

  /** The claimed ids: the `limit` due rows that come first, in whatever order RETURNING gives them. */
  predicate IsClaim(rows: Deliveries, now: Time, limit: int, ids: seq<Id>) {
    && Distinct(ids)
    && (forall i | 0 <= i < |ids| :: ids[i] in rows && Due(rows[ids[i]], now))
    && |ids| == (if |DueIds(rows, now)| <= limit then |DueIds(rows, now)| else limit)
    && (forall i, x | 0 <= i < |ids| && x in rows && Due(rows[x], now) && x !in ids ::
          Before(rows[ids[i]], ids[i], rows[x], x))
  }

  function Jobs(rows: Deliveries, ids: seq<Id>, now: Time): (jobs: seq<Job>)
    requires forall i | 0 <= i < |ids| :: ids[i] in rows
    ensures |jobs| == |ids|
    ensures forall i | 0 <= i < |ids| :: jobs[i] == Job(ids[i], ClaimRow(rows[ids[i]], now))
  {
    if ids == [] then [] else [Job(ids[0], ClaimRow(rows[ids[0]], now))] + Jobs(rows, ids[1..], now)
  }

  // --------------------------------------------------------------------------------------------------------- labels

  /** The references of a new delivery. */
  datatype Ref = Ref(eventId: Id, endpointId: Id)

  datatype Label =
    // the surroundings
    | Advance(time: Time)
    | Insert(refs: map<Id, Ref>, stamp: Time)        // CreateDelivery and the fan-outs: any number of rows at once,
                                                     // stamped when their transaction began
    | AddEndpoint(e: Id, topics: set<string>, maxAttempts: int, timeoutMs: int)
    | EditEndpoint(e: Id, topics: set<string>, active: bool, maxAttempts: int, timeoutMs: int)
    | DropEndpoint(e: Id)
    | Crash
    // the worker
    | Reset(outcome: Outcome)
    | Claim(ids: seq<Id>, outcome: Outcome)
    | Skip                                           // reading the event or the endpoint failed
    | Fetch
    | Reschedule(read: Time, outcome: Outcome)
    | ToHalfOpen(read: Time, outcome: Outcome)
    | Send
    | Respond(resp: Response)
    | NoteSuccess(outcome: Outcome)
    | NoteFailure(read: Time, outcome: Outcome)
    | Attempt(read: Time, delay: int, outcome: Outcome)

  predicate FromWorker(l: Label) {
    !(l.Advance? || l.Insert? || l.AddEndpoint? || l.EditEndpoint? || l.DropEndpoint? || l.Crash?)
  }

  // ----------------------------------------------------------------------------------------- the attempt's decision

  datatype Verdict = Deliver | Bury | Retry

  function Limit(cfg: Config, ep: Endpoint): int {
    if ep.maxAttempts <= 0 then cfg.defaultMaxAttempts else ep.maxAttempts
  }

  function Judge(cfg: Config, job: Job, ep: Endpoint, resp: Response): Verdict {
    if Successful(resp) then Deliver
    else if !Retryable(resp) || job.row.attemptCount + 1 >= Limit(cfg, ep) then Bury
    else Retry
  }

  /** The last statement of `processDelivery` writes an attempt: for an inactive endpoint, or for a noted reply. */
  predicate Concludes(p: Phase) {
    p.Busy? && ((p.stage.Fetched? && !p.ep.active) || p.stage.Noted?)
  }

  function Conclusion(cfg: Config, p: Phase): Verdict
    requires Concludes(p)
  {
    if p.stage.Fetched? then Bury else Judge(cfg, p.job, p.ep, p.stage.resp)
  }

  /** The arguments of UpdateDeliveryAttempt in markDelivered, deadLetter and the retry branch. */
  function WriteOf(cfg: Config, p: Phase, read: Time, delay: int): Write
    requires Concludes(p)
  {
    if p.stage.Fetched? then Write(DeadLettered, None, Some(EndpointInactive), read, None, Some(read))
    else
      var resp := p.stage.resp;
      match Judge(cfg, p.job, p.ep, resp)
      case Deliver => Write(Delivered, Some(StatusOf(resp)), None, read, Some(read), None)
      case Bury => Write(DeadLettered, StatusPtr(StatusOf(resp)), NonEmpty(MessageOf(resp)), read, None, Some(read))
      case Retry => Write(Pending, StatusPtr(StatusOf(resp)), Some(MessageOf(resp)), read + delay, None, None)
  }

  // ---------------------------------------------------------------------------------------------------------- steps

  /** checkCircuit lets the delivery through without touching the row. */
  predicate Passes(ep: Endpoint) {
    ep.active && !ep.circuit.Open?
  }

  /** checkCircuit, at the clock reading `read`, defers the delivery to the cooldown. */
  predicate Defers(ep: Endpoint, read: Time) {
    ep.active && ep.circuit.Open? && ep.cooldownUntil.Some? && read < ep.cooldownUntil.value
  }

  /** checkCircuit, at the clock reading `read`, goes for a probe. */
  predicate Probes(ep: Endpoint, read: Time) {
    ep.active && ep.circuit.Open? && !(ep.cooldownUntil.Some? && read < ep.cooldownUntil.value)
  }

  predicate Enabled(cfg: Config, s: State, l: Label) {
    var p := s.phase;
    match l
    case Advance(time) => s.now <= time
    case Insert(refs, stamp) =>
      && stamp <= s.now
      && (forall d | d in refs :: d !in s.rows && refs[d].endpointId in s.eps)
      && (forall d, x | d in refs && x in refs && d != x :: refs[d] != refs[x])
      && (forall d, x | d in refs && x in s.rows :: refs[d] != Ref(s.rows[x].eventId, s.rows[x].endpointId))
    case AddEndpoint(e, topics, maxAttempts, timeoutMs) =>
      e !in s.eps && ValidLimits(topics, maxAttempts, timeoutMs)
    case EditEndpoint(e, topics, _, maxAttempts, timeoutMs) =>
      e in s.eps && ValidLimits(topics, maxAttempts, timeoutMs)
    case DropEndpoint(e) => forall d | d in s.rows :: s.rows[d].endpointId != e
    case Crash => true
    case Reset(_) => p.Idle?
    case Claim(ids, _) => p.Claiming? && IsClaim(s.rows, s.now, cfg.batchSize, ids)
    case Skip => p.Working? && p.todo != []
    case Fetch => p.Working? && p.todo != [] && p.todo[0].row.endpointId in s.eps
    case Reschedule(read, _) =>
      p.Busy? && p.stage.Fetched? && s.since <= read <= s.now && Defers(p.ep, read) && p.job.id in s.rows
    case ToHalfOpen(read, _) =>
      && p.Busy? && p.stage.Fetched? && s.since <= read <= s.now && Probes(p.ep, read)
      && p.job.row.endpointId in s.eps
    case Send => p.Busy? && ((p.stage.Fetched? && Passes(p.ep)) || p.stage.Cleared?)
    case Respond(resp) => p.Busy? && p.stage.Sending? && PossibleResponse(resp)
    case NoteSuccess(_) =>
      p.Busy? && p.stage.Answered? && Successful(p.stage.resp) && p.job.row.endpointId in s.eps
    case NoteFailure(read, _) =>
      && p.Busy? && p.stage.Answered? && !Successful(p.stage.resp) && p.job.row.endpointId in s.eps
      && s.since <= read <= s.now
    case Attempt(read, delay, o) =>
      && Concludes(p) && s.since <= read <= s.now && p.job.id in s.rows
      && (if Conclusion(cfg, p).Retry?
          then Backoff.MayReturn(cfg.baseBackoff, cfg.maxBackoff, Max1(p.job.row.attemptCount + 1), delay)
          else delay == 0)
      && (!Accepted(WriteOf(cfg, p, read, delay)) ==> o == Failed)
  }

  function Max1(k: int): (r: int)
    ensures r >= 1 && (k >= 1 ==> r == k)
  {
    if k >= 1 then k else 1
  }

  /** The state after a step of the worker that leaves it in the given phase. */
  function Did(s: State, phase: Phase): State {
    s.(phase := phase, since := s.now)
  }

  function WithRow(s: State, d: Id, row: Delivery, o: Outcome): State {
    if o.Applied() then s.(rows := s.rows[d := row]) else s
  }

  function WithEndpoint(s: State, e: Id, ep: Endpoint, o: Outcome): State {
    if o.Applied() then s.(eps := s.eps[e := ep]) else s
  }

  /** An error ends the processing of the delivery; the loop goes on with the next one. */
  function After(p: Phase, stage: Stage, o: Outcome): Phase
    requires p.Busy?
  {
    if o.Ok? then p.(stage := stage) else Rest(p.todo)
  }

  function Next(cfg: Config, s: State, l: Label): State
    requires Enabled(cfg, s, l)
  {
    var p := s.phase;
    match l
    case Advance(time) => s.(now := time)
    case Insert(refs, stamp) =>
      s.(rows := s.rows + map d | d in refs :: NewDelivery(refs[d].eventId, refs[d].endpointId, stamp))
    case AddEndpoint(e, topics, maxAttempts, timeoutMs) =>
      s.(eps := s.eps[e := NewEndpoint(topics, maxAttempts, timeoutMs)])
    case EditEndpoint(e, topics, active, maxAttempts, timeoutMs) =>
      s.(eps := s.eps[e := EditRow(s.eps[e], topics, active, maxAttempts, timeoutMs)])
    case DropEndpoint(e) => s.(eps := s.eps - {e})
    case Crash => Did(s, Idle)
    case Reset(o) =>
      var t := Did(s, if o.Ok? then Claiming else Idle);
      if o.Applied() then t.(rows := ResetStale(s.rows, s.now, StaleWindow(cfg))) else t
    case Claim(ids, o) =>
      var t := Did(s, if o.Ok? then Rest(Jobs(s.rows, ids, s.now)) else Idle);
      if o.Applied() then t.(rows := ClaimRows(s.rows, ids, s.now)) else t
    case Skip => Did(s, Rest(p.todo[1..]))
    case Fetch => Did(s, Busy(p.todo[0], s.eps[p.todo[0].row.endpointId], Fetched, p.todo[1..]))
    case Reschedule(_, o) =>
      var row := RescheduleRow(s.rows[p.job.id], p.ep.cooldownUntil.value, CircuitOpen);
      WithRow(Did(s, Rest(p.todo)), p.job.id, row, o)
    case ToHalfOpen(_, o) =>
      var e := p.job.row.endpointId;
      WithEndpoint(Did(s, After(p, Cleared, o)), e, HalfOpenRow(s.eps[e], s.now), o)
    case Send => Did(s, p.(stage := Sending))
    case Respond(resp) => Did(s, p.(stage := Answered(resp)))
    case NoteSuccess(o) =>
      var e := p.job.row.endpointId;
      WithEndpoint(Did(s, After(p, Noted(p.stage.resp), o)), e, SuccessRow(s.eps[e]), o)
    case NoteFailure(read, o) =>
      var e := p.job.row.endpointId;
      var ep := FailureRow(s.eps[e], cfg.circuitThreshold, s.now, read + cfg.circuitCooldown);
      WithEndpoint(Did(s, After(p, Noted(p.stage.resp), o)), e, ep, o)
    case Attempt(read, delay, o) =>
      var row := AttemptRow(s.rows[p.job.id], WriteOf(cfg, p, read, delay), s.now);
      WithRow(Did(s, Rest(p.todo)), p.job.id, row, o)
  }

  // ----------------------------------------------------------------------------------------------------------- runs

  /** A history of labels from the empty database, oldest first. */
  datatype Trace = Start | Then(prev: Trace, step: Label)

  /** `u` is `t` or a continuation of it. */
  ghost predicate Extends(t: Trace, u: Trace) {
    t == u || (u.Then? && Extends(t, u.prev))
  }

  ghost predicate Run(cfg: Config, t: Trace)
    decreases t, 0
  {
    t.Then? ==> Run(cfg, t.prev) && Enabled(cfg, At(cfg, t.prev), t.step)
  }

  /** The state a run leads to. */
  ghost function At(cfg: Config, t: Trace): State
    requires Run(cfg, t)
    decreases t, 1
  {
    match t
    case Start => Init()
    case Then(prev, step) => Next(cfg, At(cfg, prev), step)
  }

  lemma {:induction false} PrefixRuns(cfg: Config, t: Trace, u: Trace)
    requires Run(cfg, u) && Extends(t, u)
    ensures Run(cfg, t)
  {
    if t == u {
    } else {
      PrefixRuns(cfg, t, u.prev);
    }
  }

  /** `t` and `u` are moments of one run, `t` no later than `u`. */
  ghost predicate Leads(cfg: Config, t: Trace, u: Trace) {
    Run(cfg, t) && Run(cfg, u) && Extends(t, u)
  }

  /** `t` is a moment of the run `u` before its last step. */
  ghost predicate Precedes(cfg: Config, t: Trace, u: Trace) {
    Run(cfg, u) && u.Then? && Leads(cfg, t, u.prev)
  }

  lemma {:induction false} ExtendsTransitive(t: Trace, u: Trace, v: Trace)
    requires Extends(t, u) && Extends(u, v)
    ensures Extends(t, v)
  {
    if u == v {
    } else {
      ExtendsTransitive(t, u, v.prev);
    }
  }
}
