/** Event ingest with its fan-out: one transaction, keyed by the idempotency key.

    `Ingest` says what one CreateEvent request does to the tables, whatever fails in it; a log of such requests, with
    the worker and the other services acting in between, gives the guarantees over whole histories. */
module Ingest {
  import opened Collections
  import opened Tables

  datatype Event = Event(idempotencyKey: string, topic: string, payload: string, receivedAt: Time)

  datatype Db = Db(events: map<Id, Event>, deliveries: Deliveries, endpoints: Endpoints)

  datatype Request = Request(key: string, topic: string, payload: string)

  datatype Reply =
    | Created(id: Id, event: Event, deliveriesCreated: int)
    | AlreadyExists(id: Id, event: Event)
    | InvalidArgument
    | Internal

  /** What is left open in a request: generated ids, the clock, and which statements fail. The flags say that the
      statement fails; `commit` may also succeed with its reply lost. */
  datatype Choice = Choice(
    eventId: Id,
    ids: map<Id, Id>,
    now: Time,
    beginFails: bool,
    insertFails: bool,
    fanOutFails: bool,
    commit: Outcome,
    lookupFails: bool)

  /** How the database reads a payload as JSONB: None if it is not JSON. */
  type Jsonb = string -> Option<string>

  // --------------------------------------------------------------------------------------------------------- fan-out

  /** endpoints.active AND endpoints.topics && topics. */
  function Subscribed(eps: Endpoints, topics: set<string>): set<Id> {
    set x | x in eps && eps[x].active && eps[x].topics * topics != {}
  }

  predicate HasDelivery(rows: Deliveries, e: Id, x: Id) {
    exists d | d in rows :: rows[d].eventId == e && rows[d].endpointId == x
  }

  /** ON CONFLICT (event_id, endpoint_id) DO NOTHING. */
  function Targets(rows: Deliveries, eps: Endpoints, e: Id, topics: set<string>): set<Id> {
    set x | x in Subscribed(eps, topics) && !HasDelivery(rows, e, x)
  }

  predicate Injective(ids: map<Id, Id>) {
    forall x, y | x in ids && y in ids && x != y :: ids[x] != ids[y]
  }

  /** Generated ids for the targets: distinct, and not in use. */
  predicate FreshIds(rows: Deliveries, targets: set<Id>, ids: map<Id, Id>) {
    ids.Keys == targets && Injective(ids) && forall x | x in ids :: ids[x] !in rows
  }

  function NewRows(e: Id, ids: map<Id, Id>, now: Time): Deliveries
    requires Injective(ids)
  {
    map x | x in ids :: ids[x] := NewDelivery(e, x, now)
  }

  lemma {:induction false} NewRowsCount(e: Id, ids: map<Id, Id>, now: Time)
    requires Injective(ids)
    ensures |NewRows(e, ids, now)| == |ids|
    decreases |ids|
  {
    if ids.Keys == {} {
      assert ids == map[];
    } else {
      var x := Pick(ids.Keys);
      var rest := ids - {x};
      assert ids == rest[x := ids[x]];
      NewRowsCount(e, rest, now);
      assert NewRows(e, ids, now) == NewRows(e, rest, now)[ids[x] := NewDelivery(e, x, now)];
    }
  }

  // -------------------------------------------------------------------------------------------------------- requests

  ghost predicate KeyTaken(events: map<Id, Event>, key: string) {
    exists i :: i in events && events[i].idempotencyKey == key
  }

  ghost function Find(events: map<Id, Event>, key: string): (i: Id)
    requires KeyTaken(events, key)
    ensures i in events && events[i].idempotencyKey == key
  {
    var i :| i in events && events[i].idempotencyKey == key; i
  }

  ghost predicate Acceptable(req: Request) {
    req.key != "" && req.topic != "" && req.payload != ""
  }

  ghost predicate Fits(db: Db, req: Request, c: Choice) {
    && c.eventId !in db.events
    && FreshIds(db.deliveries, Targets(db.deliveries, db.endpoints, c.eventId, {req.topic}), c.ids)
  }

  /** The transaction got as far as the commit statement. */
  ghost predicate ReachesCommit(jsonb: Jsonb, db: Db, req: Request, c: Choice) {
    && Acceptable(req) && !c.beginFails && !c.insertFails && jsonb(req.payload).Some?
    && !KeyTaken(db.events, req.key) && !c.fanOutFails
  }

  ghost predicate Commits(jsonb: Jsonb, db: Db, req: Request, c: Choice) {
    ReachesCommit(jsonb, db, req, c) && c.commit.Applied()
  }

  function Stored(jsonb: Jsonb, req: Request, now: Time): Event
    requires jsonb(req.payload).Some?
  {
    Event(req.key, req.topic, jsonb(req.payload).value, now)
  }

  /** CreateEvent: the tables afterwards. */
  ghost function IngestDb(jsonb: Jsonb, db: Db, req: Request, c: Choice): Db
    requires Fits(db, req, c)
  {
    if !Commits(jsonb, db, req, c) then db
    else Db(db.events[c.eventId := Stored(jsonb, req, c.now)],
            db.deliveries + NewRows(c.eventId, c.ids, c.now),
            db.endpoints)
  }

  /** CreateEvent: the answer. */
  ghost function IngestReply(jsonb: Jsonb, db: Db, req: Request, c: Choice): Reply
    requires Fits(db, req, c)
  {
    if !Acceptable(req) then InvalidArgument
    else if ReachesCommit(jsonb, db, req, c) then
      if c.commit.Ok? then Created(c.eventId, Stored(jsonb, req, c.now), |c.ids|) else Internal
    else if !c.beginFails && !c.insertFails && jsonb(req.payload).Some? && KeyTaken(db.events, req.key) then
      if c.lookupFails then Internal
      else AlreadyExists(Find(db.events, req.key), db.events[Find(db.events, req.key)])
    else Internal
  }

  // ------------------------------------------------------------------------------------------------------- histories

  /** Keys are unique, deliveries belong to events, and an event has at most one delivery per endpoint. */
  ghost predicate WellFormed(db: Db) {
    && (forall i, j | i in db.events && j in db.events && i != j ::
          db.events[i].idempotencyKey != db.events[j].idempotencyKey)
    && (forall d | d in db.deliveries :: db.deliveries[d].eventId in db.events)
    && (forall c, d | c in db.deliveries && d in db.deliveries && c != d ::
          db.deliveries[c].eventId != db.deliveries[d].eventId
          || db.deliveries[c].endpointId != db.deliveries[d].endpointId)
  }

  datatype Call =
    | Post(req: Request, choice: Choice)
    | Spread(e: Id, topics: set<string>, ids: map<Id, Id>, now: Time, outcome: Outcome)  // CreateDeliveriesForEvent
    | Single(e: Id, x: Id, id: Id, now: Time, outcome: Outcome)  // CreateDelivery
    | Around(deliveries: Deliveries, endpoints: Endpoints)  // the worker and the endpoint service

  /** The worker changes rows but neither their identity nor their references. */
  ghost predicate SameRefs(a: Deliveries, b: Deliveries) {
    && a.Keys == b.Keys
    && forall d | d in a :: a[d].eventId == b[d].eventId && a[d].endpointId == b[d].endpointId
  }

  ghost predicate Possible(db: Db, call: Call) {
    match call
    case Post(req, c) => Fits(db, req, c)
    case Spread(e, topics, ids, _, o) =>
      FreshIds(db.deliveries, Targets(db.deliveries, db.endpoints, e, topics), ids)
      && (e !in db.events ==> o == Failed)
    case Single(e, x, id, _, o) =>
      && id !in db.deliveries
      && (e !in db.events || x !in db.endpoints || HasDelivery(db.deliveries, e, x) ==> o == Failed)
    case Around(deliveries, _) => SameRefs(db.deliveries, deliveries)
  }

  ghost function Effect(jsonb: Jsonb, db: Db, call: Call): Db
    requires Possible(db, call)
  {
    match call
    case Post(req, c) => IngestDb(jsonb, db, req, c)
    case Spread(e, _, ids, now, o) =>
      if o.Applied() then db.(deliveries := db.deliveries + NewRows(e, ids, now)) else db
    case Single(e, x, id, now, o) =>
      if o.Applied() then db.(deliveries := db.deliveries[id := NewDelivery(e, x, now)]) else db
    case Around(deliveries, endpoints) => Db(db.events, deliveries, endpoints)
  }

  datatype Log = Fresh | Also(prev: Log, call: Call)

  ghost predicate History(jsonb: Jsonb, log: Log)
    decreases log, 0
  {
    log.Also? ==> History(jsonb, log.prev) && Possible(DbAt(jsonb, log.prev), log.call)
  }

  ghost function DbAt(jsonb: Jsonb, log: Log): Db
    requires History(jsonb, log)
    decreases log, 1
  {
    if log.Fresh? then Db(map[], map[], map[]) else Effect(jsonb, DbAt(jsonb, log.prev), log.call)
  }

  ghost predicate Earlier(a: Log, b: Log) {
    a == b || (b.Also? && Earlier(a, b.prev))
  }

  lemma {:induction false} NewRowsShape(rows: Deliveries, e: Id, ids: map<Id, Id>, now: Time, d: Id)
    requires Injective(ids) && (forall x | x in ids :: ids[x] !in rows) && d in rows + NewRows(e, ids, now)
    ensures d in rows ==> (rows + NewRows(e, ids, now))[d] == rows[d]
    ensures d !in rows ==>
              exists x :: x in ids && ids[x] == d && (rows + NewRows(e, ids, now))[d] == NewDelivery(e, x, now)
  {
  }

  lemma {:induction false} FanOutKeepsPairs(
    rows: Deliveries, eps: Endpoints, e: Id, topics: set<string>, ids: map<Id, Id>, now: Time)
    requires FreshIds(rows, Targets(rows, eps, e, topics), ids)
    requires forall c, d | c in rows && d in rows && c != d ::
               rows[c].eventId != rows[d].eventId || rows[c].endpointId != rows[d].endpointId
    ensures var r := rows + NewRows(e, ids, now);
            forall c, d | c in r && d in r && c != d ::
              r[c].eventId != r[d].eventId || r[c].endpointId != r[d].endpointId
  {
    var r := rows + NewRows(e, ids, now);
    forall c, d | c in r && d in r && c != d
      ensures r[c].eventId != r[d].eventId || r[c].endpointId != r[d].endpointId
    {
      NewRowsShape(rows, e, ids, now, c);
      NewRowsShape(rows, e, ids, now, d);
      if c !in rows {
        assert r[c].endpointId in Targets(rows, eps, e, topics);
      }
      if d !in rows {
        assert r[d].endpointId in Targets(rows, eps, e, topics);
      }
    }
  }

  lemma {:induction false} EffectKeepsWellFormed(jsonb: Jsonb, db: Db, call: Call)
    requires WellFormed(db) && Possible(db, call)
    ensures WellFormed(Effect(jsonb, db, call))
  {
    match call
    case Post(req, c) =>
      FanOutKeepsPairs(db.deliveries, db.endpoints, c.eventId, {req.topic}, c.ids, c.now);
    case Spread(e, topics, ids, now, _) =>
      FanOutKeepsPairs(db.deliveries, db.endpoints, e, topics, ids, now);
    case Single(_, _, _, _, _) =>
    case Around(_, _) =>
  }

  /** In every history there is at most one event per key and one delivery per event and endpoint. */
  lemma {:induction false} HistoryIsWellFormed(jsonb: Jsonb, log: Log)
    requires History(jsonb, log)
    ensures WellFormed(DbAt(jsonb, log))
  {
    if log.Fresh? {
    } else {
      HistoryIsWellFormed(jsonb, log.prev);
      EffectKeepsWellFormed(jsonb, DbAt(jsonb, log.prev), log.call);
    }
  }

  lemma {:induction false} CallKeepsRefs(jsonb: Jsonb, db: Db, call: Call)
    requires Possible(db, call)
    ensures var after := Effect(jsonb, db, call);
            && (forall i | i in db.events :: i in after.events && after.events[i] == db.events[i])
            && (forall d | d in db.deliveries ::
                  && d in after.deliveries
                  && after.deliveries[d].eventId == db.deliveries[d].eventId
                  && after.deliveries[d].endpointId == db.deliveries[d].endpointId)
  {
  }

  /** Events are never changed or removed, and deliveries keep their identity. */
  lemma {:induction false} EventsStay(jsonb: Jsonb, a: Log, b: Log)
    requires History(jsonb, a) && History(jsonb, b) && Earlier(a, b)
    ensures var before, after := DbAt(jsonb, a), DbAt(jsonb, b);
            && (forall i | i in before.events :: i in after.events && after.events[i] == before.events[i])
            && (forall d | d in before.deliveries ::
                  && d in after.deliveries
                  && after.deliveries[d].eventId == before.deliveries[d].eventId
                  && after.deliveries[d].endpointId == before.deliveries[d].endpointId)
  {
    hide Effect, Possible;
    if a == b {
    } else {
      EventsStay(jsonb, a, b.prev);
      CallKeepsRefs(jsonb, DbAt(jsonb, b.prev), b.call);
    }
  }

  /** A request that commits is answered for good: at any later time the key's event is the one that this request
      stored, and a request with the same key changes nothing, and learns this event unless a statement fails. */
  lemma {:induction false} FirstRequestWins(jsonb: Jsonb, a: Log, b: Log, req: Request, c: Choice)
    requires History(jsonb, a) && a.Also? && a.call.Post?
    requires Commits(jsonb, DbAt(jsonb, a.prev), a.call.req, a.call.choice)
    requires History(jsonb, b) && Earlier(a, b)
    requires req.key == a.call.req.key && Fits(DbAt(jsonb, b), req, c)
    ensures var id, event := a.call.choice.eventId, Stored(jsonb, a.call.req, a.call.choice.now);
            && id in DbAt(jsonb, b).events && DbAt(jsonb, b).events[id] == event
            && IngestDb(jsonb, DbAt(jsonb, b), req, c) == DbAt(jsonb, b)
            && (Acceptable(req) && jsonb(req.payload).Some? && !c.beginFails && !c.insertFails && !c.lookupFails ==>
                  IngestReply(jsonb, DbAt(jsonb, b), req, c) == AlreadyExists(id, event))
  {
    EventsStay(jsonb, a, b);
    HistoryIsWellFormed(jsonb, b);
  }

  /** All or nothing: either the tables are unchanged, or the event is there together with exactly one fresh delivery
      for every endpoint that is active and subscribed, and nothing else has changed. A success reply means the
      latter, with the right count. Any other reply means the former, unless the reply to the commit was lost. */
  lemma {:induction false} IngestIsAtomic(jsonb: Jsonb, log: Log, req: Request, c: Choice)
    requires History(jsonb, log) && Fits(DbAt(jsonb, log), req, c)
    ensures var db := DbAt(jsonb, log);
            var after, reply := IngestDb(jsonb, db, req, c), IngestReply(jsonb, db, req, c);
            if Commits(jsonb, db, req, c) then
              && after.events == db.events[c.eventId := Stored(jsonb, req, c.now)] && c.eventId !in db.events
              && after.endpoints == db.endpoints
              && (forall d | d in db.deliveries :: d in after.deliveries && after.deliveries[d] == db.deliveries[d])
              && (forall d | d in after.deliveries && d !in db.deliveries ::
                    exists x :: x in Subscribed(db.endpoints, {req.topic})
                                && after.deliveries[d] == NewDelivery(c.eventId, x, c.now))
              && (forall x :: HasDelivery(after.deliveries, c.eventId, x)
                              <==> x in Subscribed(db.endpoints, {req.topic}))
              && WellFormed(after)
              && (reply.Created? <==> c.commit.Ok?)
              && (reply.Created? ==>
                    reply == Created(c.eventId, after.events[c.eventId], |Subscribed(db.endpoints, {req.topic})|))
              && (!reply.Created? ==> reply.Internal? && c.commit.Lost?)
            else
              after == db && !reply.Created?
  {
    var db := DbAt(jsonb, log);
    HistoryIsWellFormed(jsonb, log);
    EffectKeepsWellFormed(jsonb, db, Post(req, c));
    if Commits(jsonb, db, req, c) {
      NewEventFanOut(db, req, c);
    }
  }

  lemma {:induction false} NewEventFanOut(db: Db, req: Request, c: Choice)
    requires WellFormed(db) && Fits(db, req, c)
    ensures c.ids.Keys == Subscribed(db.endpoints, {req.topic}) && |c.ids| == |Subscribed(db.endpoints, {req.topic})|
    ensures var r := db.deliveries + NewRows(c.eventId, c.ids, c.now);
            && (forall d | d in r && d !in db.deliveries ::
                  exists x :: x in Subscribed(db.endpoints, {req.topic}) && r[d] == NewDelivery(c.eventId, x, c.now))
            && (forall x :: HasDelivery(r, c.eventId, x) <==> x in Subscribed(db.endpoints, {req.topic}))
  {
    var subscribed := Subscribed(db.endpoints, {req.topic});
    assert Targets(db.deliveries, db.endpoints, c.eventId, {req.topic}) == subscribed;
    assert |c.ids| == |c.ids.Keys|;
    var r := db.deliveries + NewRows(c.eventId, c.ids, c.now);
    forall d | d in r && d !in db.deliveries
      ensures exists x :: x in subscribed && r[d] == NewDelivery(c.eventId, x, c.now)
    {
      NewRowsShape(db.deliveries, c.eventId, c.ids, c.now, d);
    }
    forall x
      ensures HasDelivery(r, c.eventId, x) <==> x in subscribed
    {
      if x in subscribed {
        assert c.ids[x] in r && r[c.ids[x]] == NewDelivery(c.eventId, x, c.now);
      }
    }
  }

  // -------------------------------------------------------------------------------------- the columns, written out

  /** An endpoint has a delivery of event e after the fan-out exactly if it had one, or is active and shares a topic. */
  ghost predicate Reaches(db: Deliveries, after: Deliveries, eps: Endpoints, e: Id, topics: set<string>, x: Id) {
    (exists d | d in after :: after[d].eventId == e && after[d].endpointId == x)
    <==> (exists d | d in db :: db[d].eventId == e && db[d].endpointId == x)
         || (x in eps && eps[x].active && exists topic | topic in topics :: topic in eps[x].topics)
  }

  /** A new delivery of event e is due now, without attempts, and for an endpoint that had none. */
  ghost predicate IsNew(db: Deliveries, row: Delivery, e: Id, now: Time) {
    && row.eventId == e && row.status.Pending? && row.attemptCount == 0 && row.nextRetryAt == now
    && row.lastHttpStatus.None? && row.lastError.None? && row.lastAttemptedAt.None?
    && row.deliveredAt.None? && row.deadLetteredAt.None?
    && !exists d | d in db :: db[d].eventId == e && db[d].endpointId == row.endpointId
  }

  /** The fan-out of event e: it leaves the rows as they are, and adds a new one for each endpoint to be reached. */
  ghost predicate FannedOut(db: Deliveries, after: Deliveries, eps: Endpoints, e: Id, topics: set<string>, now: Time) {
    && (forall d | d in db :: d in after && after[d] == db[d])
    && (forall d | d in after && d !in db :: IsNew(db, after[d], e, now))
    && (forall x :: Reaches(db, after, eps, e, topics, x))
  }

  lemma {:induction false} SharesTopic(eps: Endpoints, topics: set<string>, x: Id)
    ensures x in Subscribed(eps, topics) <==>
              x in eps && eps[x].active && exists topic | topic in topics :: topic in eps[x].topics
  {
    if x in Subscribed(eps, topics) {
      var topic := Pick(eps[x].topics * topics);
      assert topic in topics && topic in eps[x].topics;
    }
    if x in eps {
      if topic :| topic in topics && topic in eps[x].topics {
        assert topic in eps[x].topics * topics;
      }
    }
  }

  lemma {:induction false} FanOutReaches(
    db: Deliveries, eps: Endpoints, e: Id, topics: set<string>, ids: map<Id, Id>, now: Time, x: Id)
    requires FreshIds(db, Targets(db, eps, e, topics), ids)
    ensures HasDelivery(db + NewRows(e, ids, now), e, x) <==> HasDelivery(db, e, x) || x in Subscribed(eps, topics)
  {
    hide Subscribed;
    var after := db + NewRows(e, ids, now);
    if HasDelivery(db, e, x) {
      var d :| d in db && db[d].eventId == e && db[d].endpointId == x;
      assert after[d] == db[d];
    } else {
      if x in Subscribed(eps, topics) {
        assert x in ids.Keys;
        assert after[ids[x]] == NewDelivery(e, x, now);
      }
      if HasDelivery(after, e, x) {
        var d :| d in after && after[d].eventId == e && after[d].endpointId == x;
        NewRowsShape(db, e, ids, now, d);
        assert x in ids.Keys;
      }
    }
  }

  lemma {:induction false} FanOutNew(
    db: Deliveries, eps: Endpoints, e: Id, topics: set<string>, ids: map<Id, Id>, now: Time, d: Id)
    requires FreshIds(db, Targets(db, eps, e, topics), ids)
    requires d in db + NewRows(e, ids, now) && d !in db
    ensures IsNew(db, (db + NewRows(e, ids, now))[d], e, now)
  {
    NewRowsShape(db, e, ids, now, d);
    var x :| x in ids && ids[x] == d && (db + NewRows(e, ids, now))[d] == NewDelivery(e, x, now);
    assert x in ids.Keys;
  }

  lemma {:induction false} FanOutReachesSpelledOut(
    db: Deliveries, eps: Endpoints, e: Id, topics: set<string>, ids: map<Id, Id>, now: Time, x: Id)
    requires FreshIds(db, Targets(db, eps, e, topics), ids)
    ensures Reaches(db, db + NewRows(e, ids, now), eps, e, topics, x)
  {
    hide NewRows, Targets, Subscribed, FreshIds;
    SharesTopic(eps, topics, x);
    FanOutReaches(db, eps, e, topics, ids, now, x);
  }

  lemma {:induction false} FanOutSpelledOut(
    db: Deliveries, eps: Endpoints, e: Id, topics: set<string>, ids: map<Id, Id>, now: Time)
    requires FreshIds(db, Targets(db, eps, e, topics), ids)
    ensures FannedOut(db, db + NewRows(e, ids, now), eps, e, topics, now)
  {
    var after := db + NewRows(e, ids, now);
    assert forall d | d in db :: d in after && after[d] == db[d];
    hide NewRows, Targets, Subscribed, FreshIds, HasDelivery, Reaches;
    forall d | d in after && d !in db
      ensures IsNew(db, after[d], e, now)
    {
      FanOutNew(db, eps, e, topics, ids, now, d);
    }
    forall x
      ensures Reaches(db, after, eps, e, topics, x)
    {
      FanOutReachesSpelledOut(db, eps, e, topics, ids, now, x);
    }
  }

  lemma {:induction false} SubscribersOf(eps: Endpoints, topic: string)
    ensures Subscribed(eps, {topic}) == set x | x in eps && eps[x].active && topic in eps[x].topics
  {
    forall x
      ensures x in Subscribed(eps, {topic}) <==> x in eps && eps[x].active && topic in eps[x].topics
    {
      SharesTopic(eps, {topic}, x);
    }
  }

  /** What CreateEvent may do and answer, written out: nothing but InvalidArgument for an incomplete request; otherwise
      all of the event and its fan-out, or nothing. Internal is the answer if the payload is not JSON or something
      failed; only then, the commit's reply being lost, can the event be there all the same. */
  ghost predicate Answered(jsonb: Jsonb, db: Db, after: Db, req: Request, now: Time, reply: Reply, allOk: bool) {
    if req.key == "" || req.topic == "" || req.payload == "" then reply.InvalidArgument? && after == db
    else
      match reply
      case InvalidArgument => false
      case Created(id, event, n) =>
        && AddedWith(jsonb, db, after, req, now, id) && event == after.events[id]
        && n == |set x | x in db.endpoints && db.endpoints[x].active && req.topic in db.endpoints[x].topics|
      case AlreadyExists(id, event) =>
        after == db && id in db.events && db.events[id] == event && event.idempotencyKey == req.key
      case Internal =>
        && (after == db || (!allOk && exists id :: AddedWith(jsonb, db, after, req, now, id)))
        && (allOk ==> jsonb(req.payload).None?)
  }

  /** The event of the request is new under a key that no event had, and is fanned out. */
  ghost predicate AddedWith(jsonb: Jsonb, db: Db, after: Db, req: Request, now: Time, id: Id) {
    && (forall i | i in db.events :: db.events[i].idempotencyKey != req.key)
    && jsonb(req.payload).Some? && id !in db.events
    && after.events == db.events[id := Event(req.key, req.topic, jsonb(req.payload).value, now)]
    && after.endpoints == db.endpoints
    && FannedOut(db.deliveries, after.deliveries, db.endpoints, id, {req.topic}, now)
  }

  /** Nothing fails among what the request leaves open. */
  predicate AllOk(c: Choice) {
    !c.beginFails && !c.insertFails && !c.fanOutFails && c.commit.Ok? && !c.lookupFails
  }

  lemma {:induction false} CommitSpelledOut(jsonb: Jsonb, db: Db, req: Request, c: Choice)
    requires WellFormed(db) && Fits(db, req, c) && Commits(jsonb, db, req, c)
    ensures AddedWith(jsonb, db, IngestDb(jsonb, db, req, c), req, c.now, c.eventId)
  {
    hide WellFormed, FannedOut, NewRows, Subscribed, Targets;
    FanOutSpelledOut(db.deliveries, db.endpoints, c.eventId, {req.topic}, c.ids, c.now);
  }

  lemma {:induction false} IngestSpelledOut(jsonb: Jsonb, db: Db, req: Request, c: Choice)
    requires WellFormed(db) && Fits(db, req, c)
    ensures Answered(jsonb, db, IngestDb(jsonb, db, req, c), req, c.now, IngestReply(jsonb, db, req, c), AllOk(c))
  {
    hide WellFormed, AddedWith, NewRows, Subscribed, Targets, FreshIds;
    if Commits(jsonb, db, req, c) {
      CommitSpelledOut(jsonb, db, req, c);
      NewEventFanOut(db, req, c);
      SubscribersOf(db.endpoints, req.topic);
    }
  }

  /** Repeating CreateDeliveriesForEvent leaves every existing row as it is, adds exactly the deliveries that are
      missing, and once executed finds nothing more to do. */
  lemma {:induction false} SpreadIsIdempotent(
    jsonb: Jsonb, log: Log, e: Id, topics: set<string>, ids: map<Id, Id>, now: Time)
    requires History(jsonb, log) && Possible(DbAt(jsonb, log), Spread(e, topics, ids, now, Ok))
    ensures var db := DbAt(jsonb, log);
            var after := Effect(jsonb, db, Spread(e, topics, ids, now, Ok));
            && (forall d | d in db.deliveries :: d in after.deliveries && after.deliveries[d] == db.deliveries[d])
            && (forall x | x in Subscribed(db.endpoints, topics) :: HasDelivery(after.deliveries, e, x))
            && FannedOut(db.deliveries, after.deliveries, db.endpoints, e, topics, now)
            && Targets(after.deliveries, after.endpoints, e, topics) == {}
            && WellFormed(after)
  {
    FanOutSpelledOut(DbAt(jsonb, log).deliveries, DbAt(jsonb, log).endpoints, e, topics, ids, now);
    var db := DbAt(jsonb, log);
    HistoryIsWellFormed(jsonb, log);
    EffectKeepsWellFormed(jsonb, db, Spread(e, topics, ids, now, Ok));
    var after := db.deliveries + NewRows(e, ids, now);
    forall x | x in Subscribed(db.endpoints, topics)
      ensures HasDelivery(after, e, x)
    {
      if HasDelivery(db.deliveries, e, x) {
        var d :| d in db.deliveries && db.deliveries[d].eventId == e && db.deliveries[d].endpointId == x;
        assert after[d] == db.deliveries[d];
      } else {
        assert x in ids.Keys;
        assert after[ids[x]] == NewDelivery(e, x, now);
      }
    }
  }

  // ---------------------------------------------------------------------------------------------------- conservation

  /** The deliveries that the success replies of a history report together. */
  ghost function Reported(jsonb: Jsonb, log: Log): int
    requires History(jsonb, log)
  {
    if log.Fresh? then 0
    else
      Reported(jsonb, log.prev) +
      (if log.call.Post? then
         var reply := IngestReply(jsonb, DbAt(jsonb, log.prev), log.call.req, log.call.choice);
         if reply.Created? then reply.deliveriesCreated else 0
       else 0)
  }

  /** The deliveries of commits whose reply was lost. */
  ghost function Unreported(jsonb: Jsonb, log: Log): int
    requires History(jsonb, log)
  {
    if log.Fresh? then 0
    else
      Unreported(jsonb, log.prev) +
      (if log.call.Post? && Commits(jsonb, DbAt(jsonb, log.prev), log.call.req, log.call.choice)
          && log.call.choice.commit.Lost?
       then |Subscribed(DbAt(jsonb, log.prev).endpoints, {log.call.req.topic})| else 0)
  }

  predicate OnlyPosts(log: Log) {
    log.Also? ==> !log.call.Spread? && !log.call.Single? && OnlyPosts(log.prev)
  }

  lemma {:induction false} DisjointCount(a: Deliveries, b: Deliveries)
    requires a.Keys !! b.Keys
    ensures |a + b| == |a| + |b|
  {
    assert (a + b).Keys == a.Keys + b.Keys;
    assert |a.Keys + b.Keys| == |a.Keys| + |b.Keys|;
  }

  lemma {:induction false} SameCount(a: Deliveries, b: Deliveries)
    requires a.Keys == b.Keys
    ensures |a| == |b|
  {
    assert |a| == |a.Keys| && |b| == |b.Keys|;
  }

  /** What a request adds to the table, and what its reply reports. */
  lemma {:induction false} PostCounts(jsonb: Jsonb, db: Db, req: Request, c: Choice)
    requires WellFormed(db) && Fits(db, req, c)
    ensures var added := if Commits(jsonb, db, req, c) then |Subscribed(db.endpoints, {req.topic})| else 0;
            var reply := IngestReply(jsonb, db, req, c);
            && |IngestDb(jsonb, db, req, c).deliveries| == |db.deliveries| + added
            && (reply.Created? <==> Commits(jsonb, db, req, c) && c.commit.Ok?)
            && (Commits(jsonb, db, req, c) ==> c.commit.Applied())
            && (reply.Created? ==> reply.deliveriesCreated == added)
  {
    hide WellFormed, HasDelivery, Targets, Subscribed, KeyTaken, Injective;
    NewEventFanOut(db, req, c);
    NewRowsCount(c.eventId, c.ids, c.now);
    DisjointCount(db.deliveries, NewRows(c.eventId, c.ids, c.now));
  }

  /** If events are the only source of deliveries, the table holds exactly those that were reported and those whose
      commit reply was lost. */
  lemma {:induction false} DeliveriesConserved(jsonb: Jsonb, log: Log)
    requires History(jsonb, log) && OnlyPosts(log)
    ensures |DbAt(jsonb, log).deliveries| == Reported(jsonb, log) + Unreported(jsonb, log)
  {
    hide WellFormed, IngestDb, IngestReply, Commits, Subscribed, Fits;
    if log.Fresh? {
    } else {
      var db := DbAt(jsonb, log.prev);
      DeliveriesConserved(jsonb, log.prev);
      HistoryIsWellFormed(jsonb, log.prev);
      match log.call
      case Around(deliveries, _) => SameCount(db.deliveries, deliveries);
      case Post(req, c) => PostCounts(jsonb, db, req, c);
    }
  }
}
