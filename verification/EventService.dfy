/** The event service as a program over the tables: CreateEvent with its transaction, and the fan-out statement. */
module EventService {
  import opened Collections
  import opened Tables
  import opened Ingest

  datatype Error = NoError | UniqueViolation | OtherError

  lemma {:induction false} Above(used: set<Id>) returns (id: Id)
    ensures forall x | x in used :: x < id
    decreases used
  {
    if used == {} {
      id := 0;
    } else {
      var y := Pick(used);
      assert forall x | x in used && x != y :: x in used - {y};
      id := Above(used - {y});
      id := if y < id then id else y + 1;
    }
  }

  /** gen_random_uuid: an id that is not in use. */
  method GenerateId(used: set<Id>) returns (id: Id)
    ensures id !in used
  {
    ghost var candidate := Above(used);
    assert candidate !in used;
    id :| id !in used;
  }

  lemma {:induction false} FreshIdsExist(rows: Deliveries, targets: set<Id>) returns (ids: map<Id, Id>)
    ensures FreshIds(rows, targets, ids)
    decreases targets
  {
    if targets == {} {
      ids := map[];
    } else {
      var x := Pick(targets);
      var rest := FreshIdsExist(rows, targets - {x});
      var id := Above(rows.Keys + rest.Values);
      assert forall y | y in rest :: rest[y] in rest.Values;
      ids := rest[x := id];
      assert ids.Keys == targets;
    }
  }

  lemma {:induction false} TakenBy(events: map<Id, Event>, key: string, i: Id)
    requires i in events && events[i].idempotencyKey == key
    ensures KeyTaken(events, key)
  {
  }

  class EventService {
    var events: map<Id, Event>
    var deliveries: Deliveries
    var endpoints: Endpoints
    var clock: Time
    const jsonb: Jsonb

    /** What becomes of the statements that the service issues, and how many it has issued. */
    const fate: nat -> Outcome
    var issued: nat

    constructor (jsonb: Jsonb, fate: nat -> Outcome)
      ensures this.jsonb == jsonb && this.fate == fate && View() == Db(map[], map[], map[])
    {
      this.jsonb, this.fate := jsonb, fate;
      events, deliveries, endpoints, clock, issued := map[], map[], map[], 0, 0;
    }

    /** Issues the next statement. */
    method Issue() returns (o: Outcome)
      modifies this`issued
      ensures issued == old(issued) + 1 && o == fate(old(issued))
    {
      o := fate(issued);
      issued := issued + 1;
    }

    function View(): Db
      reads this
    {
      Db(events, deliveries, endpoints)
    }

    /** CreateDeliveriesForEvent on a transaction's view of the deliveries. */
    method InsertFanOut(rows: Deliveries, e: Id, topics: set<string>)
      returns (after: Deliveries, ghost ids: map<Id, Id>)
      ensures FreshIds(rows, Targets(rows, endpoints, e, topics), ids)
      ensures Injective(ids) && after == rows + NewRows(e, ids, clock) && |after| == |rows| + |ids|
      ensures FannedOut(rows, after, endpoints, e, topics, clock)
    {
      hide FannedOut, NewRows, HasDelivery, FreshIds, Targets, Subscribed, Injective;
      after, ids := rows, map[];
      var left := Subscribed(endpoints, topics);
      NothingInserted(rows, e, topics, clock);
      while left != {}
        invariant left <= Subscribed(endpoints, topics)
        invariant FreshIds(rows, Targets(rows, endpoints, e, topics) - left, ids)
        invariant Injective(ids) && after == rows + NewRows(e, ids, clock) && |after| == |rows| + |ids|
        decreases |left|
      {
        ghost var some := Pick(left);
        var x: Id :| x in left;
        TargetDone(rows, e, topics, left, x);
        after, ids := InsertUnlessConflict(rows, after, e, x, Targets(rows, endpoints, e, topics) - left, ids);
        left := left - {x};
      }
      assert Targets(rows, endpoints, e, topics) - {} == Targets(rows, endpoints, e, topics);
      FanOutSpelledOut(rows, endpoints, e, topics, ids, clock);
    }

    /** One row of the INSERT ... ON CONFLICT (event_id, endpoint_id) DO NOTHING. */
    method InsertUnlessConflict(
      rows: Deliveries, sofar: Deliveries, e: Id, x: Id, ghost done: set<Id>, ghost ids: map<Id, Id>)
      returns (after: Deliveries, ghost more: map<Id, Id>)
      requires FreshIds(rows, done, ids) && x !in done
      requires sofar == rows + NewRows(e, ids, clock) && |sofar| == |rows| + |ids|
      ensures FreshIds(rows, if HasDelivery(rows, e, x) then done else done + {x}, more)
      ensures Injective(more) && after == rows + NewRows(e, more, clock) && |after| == |rows| + |more|
    {
      hide NewRows, Injective;
      after, more := sofar, ids;
      SameConflicts(rows, e, ids, clock, x);
      if !HasDelivery(sofar, e, x) {
        var id := GenerateId(sofar.Keys);
        InsertOne(rows, e, ids, clock, x, id);
        OneMoreKey(ids, x, id);
        after := sofar[id := NewDelivery(e, x, clock)];
        more := ids[x := id];
      }
    }

    lemma {:induction false} NothingInserted(rows: Deliveries, e: Id, topics: set<string>, now: Time)
      ensures FreshIds(rows, Targets(rows, endpoints, e, topics) - Subscribed(endpoints, topics), map[])
      ensures Injective(map[]) && rows + NewRows(e, map[], now) == rows
    {
      assert Targets(rows, endpoints, e, topics) - Subscribed(endpoints, topics) == {};
    }

    lemma {:induction false} TargetDone(rows: Deliveries, e: Id, topics: set<string>, left: set<Id>, x: Id)
      requires left <= Subscribed(endpoints, topics) && x in left
      ensures var targets := Targets(rows, endpoints, e, topics);
              && x !in targets - left
              && targets - (left - {x}) == if HasDelivery(rows, e, x) then targets - left else targets - left + {x}
    {
    }

    lemma {:induction false} OneMoreKey(ids: map<Id, Id>, x: Id, id: Id)
      requires x !in ids
      ensures ids[x := id].Keys == ids.Keys + {x} && |ids[x := id]| == |ids| + 1
    {
      assert ids[x := id].Keys == ids.Keys + {x};
    }

    lemma {:induction false} InsertOne(rows: Deliveries, e: Id, ids: map<Id, Id>, now: Time, x: Id, id: Id)
      requires Injective(ids) && (forall y | y in ids :: ids[y] !in rows) && x !in ids
      requires id !in rows + NewRows(e, ids, now)
      ensures var more, after := ids[x := id], rows + NewRows(e, ids, now);
              && Injective(more) && (forall y | y in more :: more[y] !in rows)
              && rows + NewRows(e, more, now) == after[id := NewDelivery(e, x, now)]
    {
      forall y | y in ids
        ensures ids[y] != id
      {
        assert ids[y] in NewRows(e, ids, now);
      }
      OneMoreRow(e, ids, now, x, id);
    }

    lemma {:induction false} OneMoreRow(e: Id, ids: map<Id, Id>, now: Time, x: Id, id: Id)
      requires Injective(ids) && x !in ids && forall y | y in ids :: ids[y] != id
      ensures Injective(ids[x := id])
      ensures NewRows(e, ids[x := id], now) == NewRows(e, ids, now)[id := NewDelivery(e, x, now)]
    {
    }

    /** The rows inserted so far raise no conflict for an endpoint still to come. */
    lemma {:induction false} SameConflicts(rows: Deliveries, e: Id, ids: map<Id, Id>, now: Time, x: Id)
      requires Injective(ids) && (forall y | y in ids :: ids[y] !in rows) && x !in ids
      ensures HasDelivery(rows + NewRows(e, ids, now), e, x) <==> HasDelivery(rows, e, x)
    {
      var after := rows + NewRows(e, ids, now);
      if HasDelivery(after, e, x) {
        var d :| d in after && after[d].eventId == e && after[d].endpointId == x;
        NewRowsShape(rows, e, ids, now, d);
        assert d in rows && rows[d] == after[d];
      }
      if HasDelivery(rows, e, x) {
        var d :| d in rows && rows[d].eventId == e && rows[d].endpointId == x;
        assert after[d] == rows[d];
      }
    }

    /** GetEventByIdempotencyKey. */
    method FindByKey(key: string) returns (found: Option<Id>)
      ensures found.None? <==> !KeyTaken(events, key)
      ensures found.Some? ==> found.value in events && events[found.value].idempotencyKey == key
    {
      found := None;
      var left := events.Keys;
      while left != {}
        invariant left <= events.Keys
        invariant found.Some? ==> found.value in events && events[found.value].idempotencyKey == key
        invariant found.None? ==> forall i | i in events && i !in left :: events[i].idempotencyKey != key
        decreases |left|
      {
        ghost var some := Pick(left);
        var i: Id :| i in left;
        if events[i].idempotencyKey == key {
          found := Some(i);
        }
        left := left - {i};
      }
      if found.Some? {
        TakenBy(events, key, found.value);
      }
    }

    /** The callback that CreateEvent runs in its transaction, on the transaction's view of the tables. */
    method IngestInTx(req: Request, id: Id)
      returns (err: Error, txEvents: map<Id, Event>, txDeliveries: Deliveries, created: int,
               ghost ids: map<Id, Id>, ghost insertFails: bool, ghost fanOutFails: bool)
      requires id !in events
      modifies this`issued
      ensures old(issued) <= issued && (AllWell(fate, old(issued), issued) ==> !insertFails && !fanOutFails)
      ensures FreshIds(deliveries, Targets(deliveries, endpoints, id, {req.topic}), ids)
      ensures err == if insertFails || jsonb(req.payload).None? then OtherError
                     else if KeyTaken(events, req.key) then UniqueViolation
                     else if fanOutFails then OtherError
                     else NoError
      ensures err.UniqueViolation? ==> issued == old(issued) + 1
      ensures err.NoError? ==>
                && issued == old(issued) + 2
                && txEvents == events[id := Event(req.key, req.topic, jsonb(req.payload).value, clock)]
                && txDeliveries == deliveries + NewRows(id, ids, clock)
                && FannedOut(deliveries, txDeliveries, endpoints, id, {req.topic}, clock)
                && created == |ids|
    {
      hide NewRows, FannedOut;
      txEvents, txDeliveries, created := events, deliveries, 0;
      ids := FreshIdsExist(deliveries, Targets(deliveries, endpoints, id, {req.topic}));
      insertFails, fanOutFails := false, false;
      var insert := Issue();
      insertFails := !insert.Ok?;
      if !insert.Ok? || jsonb(req.payload).None? {
        err := OtherError;
        return;
      }
      var taken := FindByKey(req.key);
      if taken.Some? {
        err := UniqueViolation;
        return;
      }
      txEvents := txEvents[id := Event(req.key, req.topic, jsonb(req.payload).value, clock)];
      var fanOut := Issue();
      fanOutFails := !fanOut.Ok?;
      if !fanOut.Ok? {
        err := OtherError;
        return;
      }
      txDeliveries, ids := InsertFanOut(deliveries, id, {req.topic});
      created := |txDeliveries| - |deliveries|;
      err := NoError;
    }

    /** CreateEvent. The transaction's view replaces the tables at commit and only then; whatever was undecided in the
        request is returned as `c`, and if none of the statements that it issued failed, `c` says so. */
    method CreateEvent(req: Request) returns (reply: Reply, ghost c: Choice)
      requires WellFormed(View())
      modifies this`events, this`deliveries, this`issued
      ensures old(issued) <= issued && (AllWell(fate, old(issued), issued) ==> AllOk(c))
      ensures (reply.Created? ==> issued == old(issued) + 4) && (reply.AlreadyExists? ==> issued == old(issued) + 3)
      ensures Fits(old(View()), req, c) && c.now == clock
      ensures View() == IngestDb(jsonb, old(View()), req, c)
      ensures reply == IngestReply(jsonb, old(View()), req, c)
      ensures Answered(jsonb, old(View()), View(), req, clock, reply, AllWell(fate, old(issued), issued))
      ensures WellFormed(View())
    {
      hide Answered;
      var id := GenerateId(events.Keys);
      ghost var ids := FreshIdsExist(deliveries, Targets(deliveries, endpoints, id, {req.topic}));
      c := Choice(id, ids, clock, false, false, false, Ok, false);
      reply, c := CreateWith(req, id, c);
      EffectKeepsWellFormed(jsonb, old(View()), Post(req, c));
      IngestSpelledOut(jsonb, old(View()), req, c);
      AnsweredUnless(jsonb, old(View()), View(), req, clock, reply, AllOk(c), AllWell(fate, old(issued), issued));
    }

    /** An answer that is right if nothing fails is right if fewer things are known not to fail. */
    lemma {:induction false} AnsweredUnless(
      jsonb: Jsonb, db: Db, after: Db, req: Request, now: Time, reply: Reply, more: bool, fewer: bool)
      requires Answered(jsonb, db, after, req, now, reply, more) && (fewer ==> more)
      ensures Answered(jsonb, db, after, req, now, reply, fewer)
    {
    }

    /** WithTx around the callback: the transaction's view replaces the tables at commit. */
    method RunTx(req: Request, id: Id, ghost start: Choice) returns (err: Error, created: int, ghost c: Choice)
      requires WellFormed(View()) && Fits(View(), req, start) && AllOk(start) && start.eventId == id
      requires start.now == clock && req.key != "" && req.topic != "" && req.payload != ""
      modifies this`events, this`deliveries, this`issued
      ensures old(issued) <= issued && (AllWell(fate, old(issued), issued) ==> AllOk(c))
      ensures err.NoError? ==> issued == old(issued) + 4
      ensures err.UniqueViolation? ==> issued == old(issued) + 2
      ensures Fits(old(View()), req, c) && c.now == clock && c.eventId == id && !c.lookupFails
      ensures View() == IngestDb(jsonb, old(View()), req, c)
      ensures err.NoError? <==> Commits(jsonb, old(View()), req, c) && c.commit.Ok?
      ensures err.NoError? ==> created == |c.ids| && id in events && events[id] == Stored(jsonb, req, clock)
      ensures err.UniqueViolation? <==>
                !c.beginFails && !c.insertFails && jsonb(req.payload).Some? && KeyTaken(old(events), req.key)
    {
      hide FannedOut, NewRows, WellFormed, FreshIds, Targets;
      c := start;
      var begin := Issue();
      c := c.(beginFails := !begin.Ok?);
      if !begin.Ok? {
        return OtherError, 0, c;
      }
      ghost var ids, insertFails, fanOutFails;
      var txEvents, txDeliveries;
      err, txEvents, txDeliveries, created, ids, insertFails, fanOutFails := IngestInTx(req, id);
      c := c.(ids := ids, insertFails := insertFails, fanOutFails := fanOutFails);
      if err.NoError? {
        var commit := Issue();
        c := c.(commit := commit);
        if commit.Applied() {
          events, deliveries := txEvents, txDeliveries;
        }
        if !commit.Ok? {
          err := OtherError;
        }
      }
    }

    /** CreateEvent once the event's id is chosen. */
    method CreateWith(req: Request, id: Id, ghost start: Choice) returns (reply: Reply, ghost c: Choice)
      requires WellFormed(View()) && Fits(View(), req, start) && AllOk(start) && start.eventId == id
      requires start.now == clock
      modifies this`events, this`deliveries, this`issued
      ensures old(issued) <= issued && (AllWell(fate, old(issued), issued) ==> AllOk(c))
      ensures (reply.Created? ==> issued == old(issued) + 4) && (reply.AlreadyExists? ==> issued == old(issued) + 3)
      ensures Fits(old(View()), req, c) && c.now == clock
      ensures View() == IngestDb(jsonb, old(View()), req, c)
      ensures reply == IngestReply(jsonb, old(View()), req, c)
    {
      hide FannedOut, NewRows, FreshIds, Targets;
      c := start;
      if req.key == "" || req.topic == "" || req.payload == "" {
        return InvalidArgument, c;
      }
      var err, created;
      err, created, c := RunTx(req, id, c);
      if err.UniqueViolation? {
        var lookup := Issue();
        c := c.(lookupFails := !lookup.Ok?);
        var existing := FindByKey(req.key);
        if !lookup.Ok? || existing.None? {
          return Internal, c;
        }
        return AlreadyExists(existing.value, events[existing.value]), c;
      }
      if !err.NoError? {
        return Internal, c;
      }
      return Created(id, events[id], created), c;
    }
  }
}
