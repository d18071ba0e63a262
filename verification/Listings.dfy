/** The three paged listings of the services, and dead-letter paging while the worker runs. */
module Listings {
  import opened Collections
  import opened Tables
  import opened Settings
  import opened Protocol
  import opened Invariant
  import opened Safety
  import opened Keyset
  import opened Timing

  function IdKey(id: Id): Key {
    Key(0, id)
  }

  /** A cursor that the client leaves out is NULL in the query and selects everything. */
  function IdCursor(cursor: Option<Id>): Option<Key> {
    if cursor.None? then None else Some(IdKey(cursor.value))
  }

  /** The keys of some listed rows. */
  function IdKeys<T>(items: seq<(Id, T)>): seq<Key> {
    seq(|items|, i requires 0 <= i < |items| => IdKey(items[i].0))
  }

  function Ids<T>(items: seq<(Id, T)>): seq<Id> {
    seq(|items|, i requires 0 <= i < |items| => items[i].0)
  }

  /** What the two listings by id have to show: of the matching ids those after the cursor, in order, as many as asked
      for (fifty by default, a hundred at most); whether there are more, and if so the last id shown as next cursor. */
  ghost predicate Shows(
    matching: set<Id>, after: Option<Id>, requested: int, ids: seq<Id>, hasMore: bool, next: Option<Id>)
  {
    var size := if requested <= 0 then 50 else if requested <= 100 then requested else 100;
    && (forall i, j | 0 <= i < j < |ids| :: ids[i] < ids[j])
    && (forall i | 0 <= i < |ids| :: ids[i] in matching && (after.Some? ==> after.value < ids[i]))
    && |ids| <= size
    && (forall e | e in matching && (after.Some? ==> after.value < e) && e !in ids ::
          |ids| == size && forall i | 0 <= i < |ids| :: ids[i] < e)
    && (hasMore <==> exists e :: e in matching && (after.Some? ==> after.value < e) && e !in ids)
    && next == if hasMore then Some(ids[|ids| - 1]) else None
  }

  lemma {:induction false} PageShows(
    matching: set<Id>, after: Option<Id>, requested: int, ids: seq<Id>, hasMore: bool, next: Option<Id>)
    requires var page := Page(seq(|ids|, i requires 0 <= i < |ids| => IdKey(ids[i])), hasMore, IdCursor(next));
             IsPage(set e | e in matching :: IdKey(e), IdCursor(after), requested, page)
    ensures Shows(matching, after, requested, ids, hasMore, next)
  {
    var keys := set e | e in matching :: IdKey(e);
    var page := Page(seq(|ids|, i requires 0 <= i < |ids| => IdKey(ids[i])), hasMore, IdCursor(next));
    LeftOut(keys, IdCursor(after), requested, page);
    forall i | 0 <= i < |ids|
      ensures ids[i] in matching && (after.Some? ==> after.value < ids[i])
    {
      assert page.items[i] in Above(keys, IdCursor(after));
    }
    forall i, j | 0 <= i < j < |ids|
      ensures ids[i] < ids[j]
    {
      assert Less(page.items[i], page.items[j]);
    }
    forall e
      ensures e in matching && (after.Some? ==> after.value < e) <==> IdKey(e) in Above(keys, IdCursor(after))
      ensures e in ids <==> IdKey(e) in page.items
    {
      if e in ids {
        var i :| 0 <= i < |ids| && ids[i] == e;
        assert page.items[i] == IdKey(e);
      }
      if IdKey(e) in page.items {
        var i :| 0 <= i < |ids| && page.items[i] == IdKey(e);
        assert ids[i] == e;
      }
    }
    forall e | e in matching && (after.Some? ==> after.value < e) && e !in ids
      ensures |ids| == BoundedLimit(requested) && forall i | 0 <= i < |ids| :: ids[i] < e
    {
      assert IdKey(e) !in page.items;
      forall i | 0 <= i < |ids|
        ensures ids[i] < e
      {
        assert page.items[i] in page.items;
      }
    }
    if hasMore {
      var k :| k in Above(keys, IdCursor(after)) && k !in page.items;
      assert k == IdKey(k.minor);
    }
  }

  // ------------------------------------------------------------------------------------------------------- endpoints

  function EndpointKeys(eps: Endpoints, activeOnly: bool, topics: set<string>): set<Key> {
    set e | e in eps && (activeOnly ==> eps[e].active) && (topics == {} || eps[e].topics * topics != {}) :: IdKey(e)
  }

  lemma {:induction false} SharesTopic(eps: Endpoints, topics: set<string>)
    ensures forall e | e in eps ::
              eps[e].topics * topics != {} <==> exists topic | topic in topics :: topic in eps[e].topics
  {
    forall e | e in eps
      ensures eps[e].topics * topics != {} <==> exists topic | topic in topics :: topic in eps[e].topics
    {
      if eps[e].topics * topics != {} {
        var topic := Pick(eps[e].topics * topics);
        assert topic in topics && topic in eps[e].topics;
      }
      if topic :| topic in topics && topic in eps[e].topics {
        assert topic in eps[e].topics * topics;
      }
    }
  }

  /** ListEndpoints. */
  method ListEndpoints(eps: Endpoints, activeOnly: bool, topics: set<string>, cursor: Option<Id>, requested: int)
    returns (items: seq<(Id, Endpoint)>, nextCursor: Option<Id>, hasMore: bool)
    ensures IsPage(EndpointKeys(eps, activeOnly, topics), IdCursor(cursor), requested,
                   Page(IdKeys(items), hasMore, IdCursor(nextCursor)))
    ensures forall i | 0 <= i < |items| :: items[i].0 in eps && items[i].1 == eps[items[i].0]
    ensures var matching := set e | e in eps && (activeOnly ==> eps[e].active)
                                    && (topics == {} || exists topic | topic in topics :: topic in eps[e].topics);
            Shows(matching, cursor, requested, Ids(items), hasMore, nextCursor)
  {
    ghost var matching := set e | e in eps && (activeOnly ==> eps[e].active)
                                  && (topics == {} || exists topic | topic in topics :: topic in eps[e].topics);
    assert (set e | e in matching :: IdKey(e)) == EndpointKeys(eps, activeOnly, topics) by {
      SharesTopic(eps, topics);
    }
    var fetched := FetchPage(EndpointKeys(eps, activeOnly, topics), IdCursor(cursor), requested);
    items := [];
    for i := 0 to |fetched.items|
      invariant |items| == i
      invariant forall j | 0 <= j < i ::
                  items[j].0 in eps && items[j].1 == eps[items[j].0] && fetched.items[j] == IdKey(items[j].0)
    {
      var k := fetched.items[i];
      assert k in Above(EndpointKeys(eps, activeOnly, topics), IdCursor(cursor));
      items := items + [(k.minor, eps[k.minor])];
    }
    nextCursor, hasMore := None, fetched.hasMore;
    if hasMore && |items| > 0 {
      nextCursor := Some(items[|items| - 1].0);
    }
    assert IdKeys(items) == fetched.items;
    assert seq(|items|, i requires 0 <= i < |items| => IdKey(Ids(items)[i])) == IdKeys(items);
    PageShows(matching, cursor, requested, Ids(items), hasMore, nextCursor);
  }

  // ------------------------------------------------------------------------------------------- deliveries by endpoint

  /** deliveryStatusesFromProto: values that name no status are dropped. */
  method StatusesFromProto(values: seq<Option<Status>>) returns (statuses: set<Status>)
    ensures statuses == set v | v in values && v.Some? :: v.value
  {
    statuses := {};
    for i := 0 to |values|
      invariant statuses == set v | v in values[..i] && v.Some? :: v.value
    {
      assert forall v :: v in values[..i + 1] <==> v in values[..i] || v == values[i];
      if values[i].Some? {
        statuses := statuses + {values[i].value};
      }
    }
    assert values[..|values|] == values;
  }

  function DeliveryKeys(rows: Deliveries, endpointId: Id, statuses: set<Status>): set<Key> {
    set d | d in rows && rows[d].endpointId == endpointId && (statuses == {} || rows[d].status in statuses) :: IdKey(d)
  }

  lemma {:induction false} Selects(filter: seq<Option<Status>>, statuses: set<Status>)
    requires statuses == set v | v in filter && v.Some? :: v.value
    ensures statuses == {} <==> forall v | v in filter :: v.None?
    ensures forall status :: status in statuses <==> Some(status) in filter
  {
    if statuses != {} {
      var status := Pick(statuses);
      assert Some(status) in filter;
    }
    forall v | v in filter && v.Some?
      ensures v.value in statuses
    {
    }
  }

  /** ListDeliveriesByEndpoint. A filter of which no value names a status filters nothing. */
  method ListDeliveriesByEndpoint(
    rows: Deliveries, endpointId: Id, filter: seq<Option<Status>>, cursor: Option<Id>, requested: int)
    returns (items: seq<(Id, Delivery)>, nextCursor: Option<Id>, hasMore: bool)
    ensures var statuses := set v | v in filter && v.Some? :: v.value;
            IsPage(DeliveryKeys(rows, endpointId, statuses), IdCursor(cursor), requested,
                   Page(IdKeys(items), hasMore, IdCursor(nextCursor)))
    ensures forall i | 0 <= i < |items| :: items[i].0 in rows && items[i].1 == rows[items[i].0]
    ensures var matching := set d | d in rows && rows[d].endpointId == endpointId
                                    && ((forall v | v in filter :: v.None?) || Some(rows[d].status) in filter);
            Shows(matching, cursor, requested, Ids(items), hasMore, nextCursor)
  {
    ghost var matching := set d | d in rows && rows[d].endpointId == endpointId
                                  && ((forall v | v in filter :: v.None?) || Some(rows[d].status) in filter);
    var statuses := StatusesFromProto(filter);
    var keys := DeliveryKeys(rows, endpointId, statuses);
    assert (set d | d in matching :: IdKey(d)) == keys by {
      Selects(filter, statuses);
    }
    var fetched := FetchPage(keys, IdCursor(cursor), requested);
    items := [];
    for i := 0 to |fetched.items|
      invariant |items| == i
      invariant forall j | 0 <= j < i ::
                  items[j].0 in rows && items[j].1 == rows[items[j].0] && fetched.items[j] == IdKey(items[j].0)
    {
      var k := fetched.items[i];
      assert k in Above(keys, IdCursor(cursor));
      items := items + [(k.minor, rows[k.minor])];
    }
    nextCursor, hasMore := None, fetched.hasMore;
    if hasMore && |items| > 0 {
      nextCursor := Some(items[|items| - 1].0);
    }
    assert IdKeys(items) == fetched.items;
    assert seq(|items|, i requires 0 <= i < |items| => IdKey(Ids(items)[i])) == IdKeys(items);
    PageShows(matching, cursor, requested, Ids(items), hasMore, nextCursor);
  }

  // ---------------------------------------------------------------------------------------------------- dead letters

  /** (dead_lettered_at, id) descending is this key ascending. */
  function DeadKey(at: Time, id: Id): Key {
    Key(-at, -id)
  }

  function DeadKeys(rows: Deliveries): set<Key> {
    set d | d in rows && rows[d].status.DeadLettered? && rows[d].deadLetteredAt.Some? ::
      DeadKey(rows[d].deadLetteredAt.value, d)
  }

  function DeadKeysOf(items: seq<(Id, Delivery)>): seq<Key>
    requires forall i | 0 <= i < |items| :: items[i].1.deadLetteredAt.Some?
  {
    seq(|items|, i requires 0 <= i < |items| => DeadKey(items[i].1.deadLetteredAt.value, items[i].0))
  }

  /** The query ignores a cursor of which either half is missing. */
  function DeadCursor(at: Option<Time>, id: Option<Id>): Option<Key> {
    if at.None? || id.None? then None else Some(DeadKey(at.value, id.value))
  }

  /** d comes after the place (at, id) in the list of dead letters: it is older, or as old with a smaller id. */
  predicate DeadAfter(rows: Deliveries, d: Id, at: Time, id: Id) {
    && d in rows && rows[d].status.DeadLettered? && rows[d].deadLetteredAt.Some?
    && (rows[d].deadLetteredAt.value < at || (rows[d].deadLetteredAt.value == at && d < id))
  }

  /** A dead letter that the request asks for: one after its cursor, or any if half of the cursor is missing. */
  predicate Wanted(rows: Deliveries, at: Option<Time>, id: Option<Id>, d: Id) {
    if at.Some? && id.Some? then DeadAfter(rows, d, at.value, id.value)
    else d in rows && rows[d].status.DeadLettered? && rows[d].deadLetteredAt.Some?
  }

  /** What the listing of dead letters has to show: of the wanted ones the latest, latest first. */
  ghost predicate ShowsDead(
    rows: Deliveries, at: Option<Time>, id: Option<Id>, requested: int,
    items: seq<(Id, Delivery)>, hasMore: bool, nextAt: Option<Time>, nextId: Option<Id>)
  {
    var size := if requested <= 0 then 50 else if requested <= 100 then requested else 100;
    && (forall i | 0 <= i < |items| :: Wanted(rows, at, id, items[i].0) && items[i].1 == rows[items[i].0])
    && (forall i, j | 0 <= i < j < |items| ::
          DeadAfter(rows, items[j].0, rows[items[i].0].deadLetteredAt.value, items[i].0))
    && |items| <= size
    && (forall d | Wanted(rows, at, id, d) && d !in Ids(items) ::
          && |items| == size
          && forall i | 0 <= i < |items| :: DeadAfter(rows, d, rows[items[i].0].deadLetteredAt.value, items[i].0))
    && (hasMore <==> exists d :: Wanted(rows, at, id, d) && d !in Ids(items))
    && nextAt == (if hasMore then items[|items| - 1].1.deadLetteredAt else None)
    && nextId == (if hasMore then Some(items[|items| - 1].0) else None)
  }

  /** The items of a page are rows, each with the time it was dead-lettered at. */
  predicate DeadItems(rows: Deliveries, items: seq<(Id, Delivery)>) {
    forall i | 0 <= i < |items| ::
      items[i].0 in rows && items[i].1 == rows[items[i].0] && items[i].1.deadLetteredAt.Some?
  }

  lemma {:induction false} WantedKeys(rows: Deliveries, at: Option<Time>, id: Option<Id>, d: Id)
    ensures Wanted(rows, at, id, d) <==>
              && d in rows && rows[d].deadLetteredAt.Some?
              && DeadKey(rows[d].deadLetteredAt.value, d) in Above(DeadKeys(rows), DeadCursor(at, id))
  {
    if d in rows && rows[d].deadLetteredAt.Some? && DeadKey(rows[d].deadLetteredAt.value, d) in DeadKeys(rows) {
      var x :| x in rows && rows[x].status.DeadLettered? && rows[x].deadLetteredAt.Some?
               && DeadKey(rows[x].deadLetteredAt.value, x) == DeadKey(rows[d].deadLetteredAt.value, d);
      assert x == d;
    }
  }

  lemma {:induction false} ShownKeys(rows: Deliveries, items: seq<(Id, Delivery)>, d: Id)
    requires DeadItems(rows, items) && d in rows && rows[d].deadLetteredAt.Some?
    ensures d in Ids(items) <==> DeadKey(rows[d].deadLetteredAt.value, d) in DeadKeysOf(items)
  {
    if d in Ids(items) {
      var i :| 0 <= i < |items| && Ids(items)[i] == d;
      assert DeadKeysOf(items)[i] == DeadKey(rows[d].deadLetteredAt.value, d);
    }
    if DeadKey(rows[d].deadLetteredAt.value, d) in DeadKeysOf(items) {
      var i :| 0 <= i < |items| && DeadKeysOf(items)[i] == DeadKey(rows[d].deadLetteredAt.value, d);
      assert Ids(items)[i] == d;
    }
  }

  lemma {:induction false} AfterIsLess(rows: Deliveries, d: Id, at: Time, id: Id)
    requires d in rows && rows[d].status.DeadLettered? && rows[d].deadLetteredAt.Some?
    ensures DeadAfter(rows, d, at, id) <==> Less(DeadKey(at, id), DeadKey(rows[d].deadLetteredAt.value, d))
  {
  }

  lemma {:induction false} DeadItemsWanted(
    rows: Deliveries, at: Option<Time>, id: Option<Id>, requested: int, items: seq<(Id, Delivery)>, page: Page)
    requires DeadItems(rows, items) && page.items == DeadKeysOf(items)
    requires IsPage(DeadKeys(rows), DeadCursor(at, id), requested, page)
    ensures forall i | 0 <= i < |items| :: Wanted(rows, at, id, items[i].0)
    ensures forall i, j | 0 <= i < j < |items| ::
              DeadAfter(rows, items[j].0, rows[items[i].0].deadLetteredAt.value, items[i].0)
  {
    hide Wanted, DeadAfter, DeadKeys, Above;
    LeftOut(DeadKeys(rows), DeadCursor(at, id), requested, page);
    forall i | 0 <= i < |items|
      ensures Wanted(rows, at, id, items[i].0)
    {
      assert page.items[i] in page.items;
      WantedKeys(rows, at, id, items[i].0);
    }
    forall i, j | 0 <= i < j < |items|
      ensures DeadAfter(rows, items[j].0, rows[items[i].0].deadLetteredAt.value, items[i].0)
    {
      assert Less(page.items[i], page.items[j]);
      WantedIsDead(rows, at, id, items[j].0);
      AfterIsLess(rows, items[j].0, rows[items[i].0].deadLetteredAt.value, items[i].0);
    }
  }

  lemma {:induction false} WantedIsDead(rows: Deliveries, at: Option<Time>, id: Option<Id>, d: Id)
    requires Wanted(rows, at, id, d)
    ensures d in rows && rows[d].status.DeadLettered? && rows[d].deadLetteredAt.Some?
  {
  }

  lemma {:induction false} DeadLeftOut(
    rows: Deliveries, at: Option<Time>, id: Option<Id>, requested: int, items: seq<(Id, Delivery)>, page: Page, d: Id)
    requires DeadItems(rows, items) && page.items == DeadKeysOf(items)
    requires IsPage(DeadKeys(rows), DeadCursor(at, id), requested, page)
    requires Wanted(rows, at, id, d) && d !in Ids(items)
    ensures |items| == BoundedLimit(requested) && page.hasMore
    ensures forall i | 0 <= i < |items| :: DeadAfter(rows, d, rows[items[i].0].deadLetteredAt.value, items[i].0)
  {
    hide Wanted, DeadAfter, DeadKeys, Above;
    LeftOut(DeadKeys(rows), DeadCursor(at, id), requested, page);
    WantedKeys(rows, at, id, d);
    WantedIsDead(rows, at, id, d);
    ShownKeys(rows, items, d);
    forall i | 0 <= i < |items|
      ensures DeadAfter(rows, d, rows[items[i].0].deadLetteredAt.value, items[i].0)
    {
      assert page.items[i] in page.items;
      AfterIsLess(rows, d, rows[items[i].0].deadLetteredAt.value, items[i].0);
    }
  }

  lemma {:induction false} DeadMore(
    rows: Deliveries, at: Option<Time>, id: Option<Id>, requested: int, items: seq<(Id, Delivery)>, page: Page)
    returns (d: Id)
    requires DeadItems(rows, items) && page.items == DeadKeysOf(items) && page.hasMore
    requires IsPage(DeadKeys(rows), DeadCursor(at, id), requested, page)
    ensures Wanted(rows, at, id, d) && d !in Ids(items)
  {
    LeftOut(DeadKeys(rows), DeadCursor(at, id), requested, page);
    var k :| k in Above(DeadKeys(rows), DeadCursor(at, id)) && k !in page.items;
    d := -k.minor;
    WantedKeys(rows, at, id, d);
    ShownKeys(rows, items, d);
  }

  lemma {:induction false} PageShowsDead(
    rows: Deliveries, at: Option<Time>, id: Option<Id>, requested: int,
    items: seq<(Id, Delivery)>, hasMore: bool, nextAt: Option<Time>, nextId: Option<Id>)
    requires DeadItems(rows, items)
    requires IsPage(DeadKeys(rows), DeadCursor(at, id), requested,
                    Page(DeadKeysOf(items), hasMore, DeadCursor(nextAt, nextId)))
    requires nextAt == (if hasMore && |items| > 0 then items[|items| - 1].1.deadLetteredAt else None)
    requires nextId == (if hasMore && |items| > 0 then Some(items[|items| - 1].0) else None)
    ensures ShowsDead(rows, at, id, requested, items, hasMore, nextAt, nextId)
  {
    hide Wanted, DeadAfter, DeadKeys, Above;
    var page := Page(DeadKeysOf(items), hasMore, DeadCursor(nextAt, nextId));
    DeadItemsWanted(rows, at, id, requested, items, page);
    forall d | Wanted(rows, at, id, d) && d !in Ids(items)
      ensures |items| == BoundedLimit(requested) && hasMore
      ensures forall i | 0 <= i < |items| :: DeadAfter(rows, d, rows[items[i].0].deadLetteredAt.value, items[i].0)
    {
      DeadLeftOut(rows, at, id, requested, items, page, d);
    }
    if hasMore {
      var d := DeadMore(rows, at, id, requested, items, page);
    }
  }

  /** ListDeadLetteredDeliveries. In every reachable table a dead-lettered row has its time, so none is left out for
      having none. */
  method ListDeadLetteredDeliveries(rows: Deliveries, at: Option<Time>, id: Option<Id>, requested: int)
    returns (items: seq<(Id, Delivery)>, nextAt: Option<Time>, nextId: Option<Id>, hasMore: bool)
    ensures DeadItems(rows, items)
    ensures IsPage(DeadKeys(rows), DeadCursor(at, id), requested,
                   Page(DeadKeysOf(items), hasMore, DeadCursor(nextAt, nextId)))
    ensures ShowsDead(rows, at, id, requested, items, hasMore, nextAt, nextId)
  {
    var fetched := FetchPage(DeadKeys(rows), DeadCursor(at, id), requested);
    items := [];
    for i := 0 to |fetched.items|
      invariant |items| == i
      invariant forall j | 0 <= j < i ::
                  && items[j].0 in rows && items[j].1 == rows[items[j].0] && items[j].1.deadLetteredAt.Some?
                  && fetched.items[j] == DeadKey(items[j].1.deadLetteredAt.value, items[j].0)
    {
      var k := fetched.items[i];
      assert k in Above(DeadKeys(rows), DeadCursor(at, id));
      items := items + [(-k.minor, rows[-k.minor])];
    }
    nextAt, nextId := None, None;
    if fetched.hasMore && |items| > 0 {
      nextAt, nextId := items[|items| - 1].1.deadLetteredAt, Some(items[|items| - 1].0);
    }
    hasMore := fetched.hasMore;
    assert DeadKeysOf(items) == fetched.items;
    PageShowsDead(rows, at, id, requested, items, hasMore, nextAt, nextId);
  }

  /** The requests of a walk are made at these moments of one run. */
  ghost predicate DuringRun(cfg: Config, visits: seq<Visit>, moments: seq<Trace>) {
    && |visits| == |moments|
    && (forall i, j | 0 <= i <= j < |moments| :: Leads(cfg, moments[i], moments[j]))
    && (forall i | 0 <= i < |moments| :: visits[i].keys == DeadKeys(At(cfg, moments[i]).rows))
  }

  lemma {:induction false} DeadKeysStay(cfg: Config, t: Trace, u: Trace, d: Id)
    requires Normal(cfg) && Leads(cfg, t, u) && d in At(cfg, t).rows && At(cfg, t).rows[d].status.DeadLettered?
    ensures At(cfg, t).rows[d].deadLetteredAt.Some?
    ensures DeadKey(At(cfg, t).rows[d].deadLetteredAt.value, d) in DeadKeys(At(cfg, u).rows)
  {
    RunKeepsInv(cfg, t);
    TerminalIsFinal(cfg, t, u, d);
  }

  /** Every delivery that is dead-lettered when the walk begins is listed, whatever the worker does between the
      requests; WalkIsOrdered adds that nothing is listed twice. */
  lemma {:induction false} DeadLetterIsListed(cfg: Config, visits: seq<Visit>, moments: seq<Trace>, d: Id)
    requires Normal(cfg) && Walk(visits, None) && DuringRun(cfg, visits, moments)
    requires d in At(cfg, moments[0]).rows && At(cfg, moments[0]).rows[d].status.DeadLettered?
    ensures At(cfg, moments[0]).rows[d].deadLetteredAt.Some?
    ensures DeadKey(At(cfg, moments[0]).rows[d].deadLetteredAt.value, d) in Listed(visits)
  {
    DeadKeysStay(cfg, moments[0], moments[0], d);
    var k := DeadKey(At(cfg, moments[0]).rows[d].deadLetteredAt.value, d);
    forall i | 0 <= i < |visits|
      ensures k in visits[i].keys
    {
      DeadKeysStay(cfg, moments[0], moments[i], d);
    }
    WalkMissesNothing(visits, None, k);
  }

  lemma {:induction false} DeadKeysGrow(cfg: Config, t: Trace, u: Trace)
    requires Normal(cfg) && Leads(cfg, t, u)
    ensures DeadKeys(At(cfg, t).rows) <= DeadKeys(At(cfg, u).rows)
  {
    forall k | k in DeadKeys(At(cfg, t).rows)
      ensures k in DeadKeys(At(cfg, u).rows)
    {
      DeadKeysStay(cfg, t, u, -k.minor);
    }
  }

  lemma {:induction false} DeadLetterTimeStep(cfg: Config, s: State, l: Label, d: Id)
    requires Normal(cfg) && Inv(cfg, s) && Enabled(cfg, s, l)
    requires d in Next(cfg, s, l).rows && Next(cfg, s, l).rows[d].status.DeadLettered?
    ensures (d in s.rows && s.rows[d].status.DeadLettered? && Next(cfg, s, l).rows[d] == s.rows[d])
            || (Next(cfg, s, l).rows[d].deadLetteredAt.Some?
                && s.since <= Next(cfg, s, l).rows[d].deadLetteredAt.value)
  {
    if d in s.rows {
      NextRow(cfg, s, l, d);
      RowStep(cfg, s, l, d);
    } else {
      NextRowOrigin(cfg, s, l, d);
    }
  }

  /** A row dead-lettered after a moment carries a time from after the worker's last step before that moment. */
  lemma {:induction false} LaterDeadLetters(cfg: Config, t: Trace, u: Trace, d: Id)
    requires Normal(cfg) && Leads(cfg, t, u) && d in At(cfg, u).rows && At(cfg, u).rows[d].status.DeadLettered?
    ensures (d in At(cfg, t).rows && At(cfg, t).rows[d] == At(cfg, u).rows[d])
            || (At(cfg, u).rows[d].deadLetteredAt.Some? && At(cfg, t).since <= At(cfg, u).rows[d].deadLetteredAt.value)
  {
    hide Next;
    if t == u {
    } else {
      var s, l := At(cfg, u.prev), u.step;
      RunKeepsInv(cfg, u.prev);
      DeadLetterTimeStep(cfg, s, l, d);
      ClockMonotone(cfg, t, u.prev);
      if d in s.rows && s.rows[d].status.DeadLettered? && s.rows[d] == At(cfg, u).rows[d] {
        LaterDeadLetters(cfg, t, u.prev, d);
      }
    }
  }

  /** Nothing that is dead-lettered later sorts after a row from before the worker's last step. */
  lemma {:induction false} NothingNewBeyond(cfg: Config, t: Trace, u: Trace, cursor: Key)
    requires Normal(cfg) && Leads(cfg, t, u) && -cursor.major < At(cfg, t).since
    ensures Above(DeadKeys(At(cfg, u).rows), Some(cursor)) == Above(DeadKeys(At(cfg, t).rows), Some(cursor))
  {
    hide Next;
    var before, after := DeadKeys(At(cfg, t).rows), DeadKeys(At(cfg, u).rows);
    forall k | k in Above(before, Some(cursor))
      ensures k in after
    {
      DeadKeysStay(cfg, t, u, -k.minor);
    }
    forall k | k in Above(after, Some(cursor))
      ensures k in before
    {
      LaterDeadLetters(cfg, t, u, -k.minor);
    }
  }

  lemma {:induction false} ListedWhileDead(cfg: Config, visits: seq<Visit>, moments: seq<Trace>, k: Key)
    requires Normal(cfg) && Walk(visits, None) && DuringRun(cfg, visits, moments) && k in Listed(visits)
    ensures k in DeadKeys(At(cfg, moments[|moments| - 1]).rows)
    ensures -k.major < At(cfg, moments[0]).since ==> k in DeadKeys(At(cfg, moments[0]).rows)
  {
    hide Next;
    WalkIsOrdered(visits, None);
    var i :| 0 <= i < |visits| && k in visits[i].keys;
    DeadKeysGrow(cfg, moments[i], moments[|moments| - 1]);
    LaterDeadLetters(cfg, moments[0], moments[i], -k.minor);
  }

  /** Any walk over the dead letters while the worker runs: in order and without repetition it lists every dead letter
      of its first moment, and nothing else with a time before the worker's last step then; all it lists are dead
      letters at its last moment, and it has no more pages than there are of those, or one. */
  lemma {:induction false} DeadLetterWalk(cfg: Config, visits: seq<Visit>, moments: seq<Trace>)
    requires Normal(cfg) && Walk(visits, None) && DuringRun(cfg, visits, moments)
    ensures Ascending(Listed(visits))
    ensures forall k | k in DeadKeys(At(cfg, moments[0]).rows) :: k in Listed(visits)
    ensures forall k | k in Listed(visits) :: k in DeadKeys(At(cfg, moments[|moments| - 1]).rows)
    ensures forall k | k in Listed(visits) && -k.major < At(cfg, moments[0]).since ::
              k in DeadKeys(At(cfg, moments[0]).rows)
    ensures var n := |DeadKeys(At(cfg, moments[|moments| - 1]).rows)|; |visits| <= (if n == 0 then 1 else n)
  {
    hide Next;
    WalkIsOrdered(visits, None);
    forall k | k in DeadKeys(At(cfg, moments[0]).rows)
      ensures k in Listed(visits)
    {
      DeadLetterIsListed(cfg, visits, moments, -k.minor);
    }
    forall k | k in Listed(visits)
      ensures k in DeadKeys(At(cfg, moments[|moments| - 1]).rows)
      ensures -k.major < At(cfg, moments[0]).since ==> k in DeadKeys(At(cfg, moments[0]).rows)
    {
      ListedWhileDead(cfg, visits, moments, k);
    }
    DeadLetterPages(cfg, visits, moments);
  }

  lemma {:induction false} DeadLetterPages(cfg: Config, visits: seq<Visit>, moments: seq<Trace>)
    requires Normal(cfg) && Walk(visits, None) && DuringRun(cfg, visits, moments) && Ascending(Listed(visits))
    requires forall k | k in Listed(visits) :: k in DeadKeys(At(cfg, moments[|moments| - 1]).rows)
    ensures var n := |DeadKeys(At(cfg, moments[|moments| - 1]).rows)|; |visits| <= (if n == 0 then 1 else n)
  {
    hide Next, DeadKeys;
    if Above(visits[0].keys, None) == {} {
      assert !visits[0].page.hasMore;
    } else {
      forall i | 0 <= i < |visits| - 1
        ensures visits[i].keys <= visits[i + 1].keys
      {
        DeadKeysGrow(cfg, moments[i], moments[i + 1]);
      }
      GrowingWalkIsShort(visits, None);
      AscendingDistinct(Listed(visits));
      DistinctCount(Listed(visits));
      SubsetCount((set k | k in Listed(visits)), DeadKeys(At(cfg, moments[|moments| - 1]).rows));
    }
  }

  /** If the first page ends with a row from before the worker's last step, or is the last, the walk lists exactly the
      dead letters of its first moment and ends after at most as many pages, although new ones appear meanwhile. */
  lemma {:induction false} DeadLetterWalkIsSnapshot(cfg: Config, visits: seq<Visit>, moments: seq<Trace>)
    requires Normal(cfg) && Walk(visits, None) && DuringRun(cfg, visits, moments)
    requires visits[0].page.hasMore ==> -visits[0].page.next.value.major < At(cfg, moments[0]).since
    ensures IsSorted(DeadKeys(At(cfg, moments[0]).rows), Listed(visits))
    ensures var n := |DeadKeys(At(cfg, moments[0]).rows)|; |visits| <= (if n == 0 then 1 else n)
  {
    var keys := DeadKeys(At(cfg, moments[0]).rows);
    var v := visits[0];
    assert v.keys == keys && Above(keys, None) == keys;
    if v.page.hasMore {
      PageCovers(keys, None, v.requested, v.page);
      var rest, c := visits[1..], v.page.next;
      forall i | 0 <= i < |rest|
        ensures Above(rest[i].keys, c) == Above(keys, c)
      {
        NothingNewBeyond(cfg, moments[0], moments[i + 1], c.value);
      }
      WalkIsSortedList(rest, c, keys);
      WalkIsShort(rest, c, keys);
      WalkIsOrdered(visits, None);
      SnapshotCounts(keys, v, rest);
    } else {
      LastPageCovers(keys, None, v.requested, v.page);
      assert Listed(visits[1..]) == [];
    }
  }

  lemma {:induction false} SnapshotCounts(keys: set<Key>, v: Visit, rest: seq<Visit>)
    requires IsPage(keys, None, v.requested, v.page) && v.page.hasMore && v.keys == keys
    requires |rest| <= (if Above(keys, v.page.next) == {} then 1 else |Above(keys, v.page.next)|)
    ensures 1 + |rest| <= |keys|
  {
    PageCovers(keys, None, v.requested, v.page);
    assert Above(keys, None) == keys;
    AscendingDistinct(v.page.items);
    DistinctCount(v.page.items);
    var shown := set k | k in v.page.items;
    assert shown <= keys && |keys - shown| == |keys| - |shown|;
  }
}
