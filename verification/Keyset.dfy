/** Keyset pagination: "fetch one row more than asked for, trim, and continue after the last row". */
module Keyset {
  import opened Collections
  import opened Tables

  /** Sort keys, compared lexicographically. */
  datatype Key = Key(major: int, minor: int)

  predicate Less(a: Key, b: Key) {
    a.major < b.major || (a.major == b.major && a.minor < b.minor)
  }

  predicate Ascending(s: seq<Key>) {
    forall i, j | 0 <= i < j < |s| :: Less(s[i], s[j])
  }

  predicate Beyond(k: Key, cursor: Option<Key>) {
    cursor.None? || Less(cursor.value, k)
  }

  /** The keys after the cursor. */
  function Above(keys: set<Key>, cursor: Option<Key>): set<Key> {
    set k | k in keys && Beyond(k, cursor)
  }

  /** ORDER BY key LIMIT limit. */
  ghost predicate IsQuery(keys: set<Key>, limit: int, rows: seq<Key>) {
    && Ascending(rows)
    && (forall k | k in rows :: k in keys)
    && |rows| == (if |keys| <= limit then |keys| else limit)
    && (forall k, x | k in rows && x in keys && x !in rows :: Less(k, x))
  }

  /** Sorted(s): the reference for what a listing should show. */
  ghost predicate IsSorted(keys: set<Key>, rows: seq<Key>) {
    Ascending(rows) && (forall k :: k in rows <==> k in keys)
  }

  datatype Page = Page(items: seq<Key>, hasMore: bool, next: Option<Key>)

  /** boundedLimit. */
  function BoundedLimit(limit: int): (r: int)
    ensures 1 <= r <= 100
    ensures r == limit <==> 1 <= limit <= 100
    ensures limit <= 0 ==> r == 50
    ensures limit > 100 ==> r == 100
  {
    if limit <= 0 then 50 else if limit > 100 then 100 else limit
  }

  lemma {:induction false} Smallest(keys: set<Key>) returns (k: Key)
    requires keys != {}
    ensures k in keys && forall x | x in keys && x != k :: Less(k, x)
    decreases keys
  {
    k := Pick(keys);
    var others := keys - {k};
    assert forall x | x in keys && x != k :: x in others;
    if others == {} {
    } else {
      var m := Smallest(others);
      if Less(m, k) {
        k := m;
      }
    }
  }

  /** The listing query. */
  method Query(keys: set<Key>, limit: int) returns (rows: seq<Key>)
    requires 0 <= limit
    ensures IsQuery(keys, limit, rows)
  {
    rows := [];
    var rest := keys;
    while rest != {} && |rows| < limit
      invariant Ascending(rows) && rest <= keys && |rows| + |rest| == |keys| && |rows| <= limit
      invariant forall k | k in rows :: k in keys && k !in rest
      invariant forall x | x in keys :: x in rows || x in rest
      invariant forall k, x | k in rows && x in rest :: Less(k, x)
      decreases |rest|
    {
      ghost var first := Smallest(rest);
      var k :| k in rest && forall x | x in rest && x != k :: Less(k, x);
      rows := rows + [k];
      rest := rest - {k};
    }
  }

  /** The part that all three listings share: one extra row decides has_more, and the last kept row is the cursor. */
  method FetchPage(keys: set<Key>, cursor: Option<Key>, requested: int) returns (page: Page)
    ensures IsPage(keys, cursor, requested, page)
    ensures var rest := set k | k in keys && (|| cursor.None? || cursor.value.major < k.major
                                                || (cursor.value.major == k.major && cursor.value.minor < k.minor));
            && (1 <= requested <= 100 ==> |page.items| == if |rest| < requested then |rest| else requested)
            && (requested > 100 ==> |page.items| == if |rest| < 100 then |rest| else 100)
            && (requested <= 0 ==> |page.items| == if |rest| < 50 then |rest| else 50)
            && (page.hasMore <==> |page.items| < |rest|)
  {
    var limit := BoundedLimit(requested);
    var rows := Query(Above(keys, cursor), limit + 1);
    var hasMore := |rows| > limit;
    if hasMore {
      AscendingDistinct(rows);
      PrefixOfQuery(Above(keys, cursor), limit, rows);
      rows := rows[..limit];
    }
    var next := None;
    if hasMore && |rows| > 0 {
      next := Some(rows[|rows| - 1]);
    }
    page := Page(rows, hasMore, next);
    ghost var rest := set k | k in keys && (|| cursor.None? || cursor.value.major < k.major
                                            || (cursor.value.major == k.major && cursor.value.minor < k.minor));
    assert Above(keys, cursor) == rest;
  }

  /** What a page leaves out comes after a full page, and there is more exactly if it leaves something out. */
  lemma {:induction false} LeftOut(keys: set<Key>, cursor: Option<Key>, requested: int, page: Page)
    requires IsPage(keys, cursor, requested, page)
    ensures forall k | k in page.items :: k in Above(keys, cursor)
    ensures forall k | k in Above(keys, cursor) && k !in page.items ::
              |page.items| == BoundedLimit(requested) && forall x | x in page.items :: Less(x, k)
    ensures page.hasMore <==> exists k :: k in Above(keys, cursor) && k !in page.items
  {
    var all, shown := Above(keys, cursor), set k | k in page.items;
    AscendingDistinct(page.items);
    DistinctCount(page.items);
    assert forall k :: k in page.items <==> k in shown;
    assert shown <= all;
    if shown != all {
      ProperSubsetCount(shown, all);
      assert !(all <= shown);
    }
  }

  lemma {:induction false} AscendingDistinct(rows: seq<Key>)
    requires Ascending(rows)
    ensures forall i, j | 0 <= i < j < |rows| :: rows[i] != rows[j]
  {
  }

  lemma {:induction false} PrefixOfQuery(keys: set<Key>, limit: int, rows: seq<Key>)
    requires 0 <= limit && IsQuery(keys, limit + 1, rows) && |rows| == limit + 1
    ensures IsQuery(keys, limit, rows[..limit])
  {
    var cut := rows[..limit];
    forall j | 0 <= j < limit
      ensures rows[j] in cut
    {
      assert cut[j] == rows[j];
    }
    forall k, x | k in cut && x in keys && x !in cut
      ensures Less(k, x)
    {
      var i :| 0 <= i < limit && rows[i] == k;
      if x in rows {
        var j :| 0 <= j < |rows| && rows[j] == x;
        assert j == limit;
      }
    }
  }

  /** What a page has to be: the next `limit` rows of the table after the cursor; has_more exactly if rows remain,
      and then the cursor is the last row shown. */
  ghost predicate IsPage(keys: set<Key>, cursor: Option<Key>, requested: int, page: Page) {
    && IsQuery(Above(keys, cursor), BoundedLimit(requested), page.items)
    && (page.hasMore <==> |Above(keys, cursor)| > BoundedLimit(requested))
    && page.next == (if page.hasMore then Some(page.items[|page.items| - 1]) else None)
  }

  /** One request of a walk: the table as it was then, the limit asked for, and the page returned. */
  datatype Visit = Visit(keys: set<Key>, requested: int, page: Page)

  /** A walk from a cursor to the first page without more. The table may differ from request to request. */
  ghost predicate Walk(visits: seq<Visit>, cursor: Option<Key>) {
    && visits != []
    && IsPage(visits[0].keys, cursor, visits[0].requested, visits[0].page)
    && if visits[0].page.hasMore then Walk(visits[1..], visits[0].page.next) else |visits| == 1
  }

  function Listed(visits: seq<Visit>): seq<Key> {
    if visits == [] then [] else visits[0].page.items + Listed(visits[1..])
  }

  /** After a page with more, the cursor is the largest key shown, and every key of the table up to it was shown. */
  lemma {:induction false} PageCovers(keys: set<Key>, cursor: Option<Key>, requested: int, page: Page)
    requires IsPage(keys, cursor, requested, page) && page.hasMore
    ensures page.next.Some? && page.items != []
    ensures forall k | k in page.items :: k == page.next.value || Less(k, page.next.value)
    ensures forall k | k in Above(keys, cursor) :: k in page.items <==> !Less(page.next.value, k)
    ensures forall k | Beyond(k, page.next) :: Beyond(k, cursor)
    ensures Above(keys, page.next) == Above(keys, cursor) - (set k | k in page.items)
  {
    var last := page.items[|page.items| - 1];
    assert last in page.items;
    forall k | k in page.items
      ensures k == last || Less(k, last)
    {
      var i :| 0 <= i < |page.items| && page.items[i] == k;
    }
  }

  /** Nothing that is after the cursor at the last page is left out. */
  lemma {:induction false} LastPageCovers(keys: set<Key>, cursor: Option<Key>, requested: int, page: Page)
    requires IsPage(keys, cursor, requested, page) && !page.hasMore
    ensures IsSorted(Above(keys, cursor), page.items)
  {
    var shown := set k | k in page.items;
    AscendingDistinct(page.items);
    DistinctCount(page.items);
    if shown != Above(keys, cursor) {
      ProperSubsetCount(shown, Above(keys, cursor));
    }
    assert forall k :: k in page.items <==> k in shown;
  }

  /** However the table changes during a walk, keys are listed in order, none twice, and none that was not there. */
  lemma {:induction false} WalkIsOrdered(visits: seq<Visit>, cursor: Option<Key>)
    requires Walk(visits, cursor)
    ensures Ascending(Listed(visits))
    ensures forall k | k in Listed(visits) :: Beyond(k, cursor)
    ensures forall k | k in Listed(visits) :: exists i :: 0 <= i < |visits| && k in visits[i].keys
  {
    var v := visits[0];
    if v.page.hasMore {
      WalkIsOrdered(visits[1..], v.page.next);
      PageCovers(v.keys, cursor, v.requested, v.page);
      var a, b := v.page.items, Listed(visits[1..]);
      forall i, j | 0 <= i < j < |a + b|
        ensures Less((a + b)[i], (a + b)[j])
      {
        if i < |a| && j >= |a| {
          assert a[i] in a && b[j - |a|] in b;
        }
      }
      forall k | k in Listed(visits)
        ensures Beyond(k, cursor) && exists i :: 0 <= i < |visits| && k in visits[i].keys
      {
        if k in a {
          assert k in visits[0].keys;
        } else {
          var i :| 0 <= i < |visits[1..]| && k in visits[1..][i].keys;
          assert k in visits[i + 1].keys;
        }
      }
    } else {
      assert Listed(visits[1..]) == [];
      assert forall k | k in v.page.items :: k in visits[0].keys;
    }
  }

  /** If rows are only added during a walk, every page shows something, except on a table with nothing to show. */
  lemma {:induction false} GrowingWalkIsShort(visits: seq<Visit>, cursor: Option<Key>)
    requires Walk(visits, cursor) && Above(visits[0].keys, cursor) != {}
    requires forall i | 0 <= i < |visits| - 1 :: visits[i].keys <= visits[i + 1].keys
    ensures |visits| <= |Listed(visits)|
  {
    var v := visits[0];
    var all := Above(v.keys, cursor);
    assert |all| >= 1 by {
      var k := Pick(all);
      assert {k} <= all;
      SubsetCount({k}, all);
    }
    assert |v.page.items| >= 1;
    if !v.page.hasMore {
    } else {
      var rest, shown := visits[1..], set k | k in v.page.items;
      PageCovers(v.keys, cursor, v.requested, v.page);
      AscendingDistinct(v.page.items);
      DistinctCount(v.page.items);
      assert shown <= all && |all - shown| == |all| - |shown|;
      var k := Pick(all - shown);
      assert k in Above(v.keys, v.page.next) && visits[0].keys <= visits[1].keys;
      assert k in Above(rest[0].keys, v.page.next);
      forall i | 0 <= i < |rest| - 1
        ensures rest[i].keys <= rest[i + 1].keys
      {
        assert visits[i + 1].keys <= visits[i + 2].keys;
      }
      GrowingWalkIsShort(rest, v.page.next);
    }
  }

  /** A row that is there at every request is listed; with WalkIsOrdered, exactly once. */
  lemma {:induction false} WalkMissesNothing(visits: seq<Visit>, cursor: Option<Key>, k: Key)
    requires Walk(visits, cursor) && Beyond(k, cursor)
    requires forall i | 0 <= i < |visits| :: k in visits[i].keys
    ensures k in Listed(visits)
  {
    var v := visits[0];
    assert k in v.keys;
    if v.page.hasMore {
      PageCovers(v.keys, cursor, v.requested, v.page);
      if k !in v.page.items {
        WalkMissesNothing(visits[1..], v.page.next, k);
      }
    } else {
      LastPageCovers(v.keys, cursor, v.requested, v.page);
    }
  }

  /** On a table whose part after the cursor stays fixed, the walk is the sorted list, for any limits. */
  lemma {:induction false} WalkIsSortedList(visits: seq<Visit>, cursor: Option<Key>, keys: set<Key>)
    requires Walk(visits, cursor)
    requires forall i | 0 <= i < |visits| :: Above(visits[i].keys, cursor) == Above(keys, cursor)
    ensures IsSorted(Above(keys, cursor), Listed(visits))
  {
    WalkIsOrdered(visits, cursor);
    forall k | k in Listed(visits)
      ensures k in Above(keys, cursor)
    {
      var i :| 0 <= i < |visits| && k in visits[i].keys;
      assert k in Above(visits[i].keys, cursor);
    }
    forall k | k in Above(keys, cursor)
      ensures k in Listed(visits)
    {
      forall i | 0 <= i < |visits|
        ensures k in visits[i].keys
      {
        assert k in Above(visits[i].keys, cursor);
      }
      WalkMissesNothing(visits, cursor, k);
    }
  }

  /** On a fixed table every walk ends: it has no more pages than rows, or one. */
  lemma {:induction false} WalkIsShort(visits: seq<Visit>, cursor: Option<Key>, keys: set<Key>)
    requires Walk(visits, cursor)
    requires forall i | 0 <= i < |visits| :: Above(visits[i].keys, cursor) == Above(keys, cursor)
    ensures |visits| <= (if Above(keys, cursor) == {} then 1 else |Above(keys, cursor)|)
  {
    var v := visits[0];
    if !v.page.hasMore {
    } else {
      assert Above(v.keys, cursor) == Above(keys, cursor);
      PageCovers(v.keys, cursor, v.requested, v.page);
      forall i | 0 <= i < |visits[1..]|
        ensures Above(visits[1..][i].keys, v.page.next) == Above(keys, v.page.next)
      {
        NarrowerAbove(visits[i + 1].keys, keys, cursor, v.page.next);
      }
      NarrowerAbove(v.keys, keys, cursor, v.page.next);
      WalkIsShort(visits[1..], v.page.next, keys);
      AscendingDistinct(v.page.items);
      DistinctCount(v.page.items);
      var shown := set k | k in v.page.items;
      assert shown <= Above(keys, cursor);
      assert |Above(keys, cursor) - shown| == |Above(keys, cursor)| - |shown|;
      assert Above(keys, v.page.next) == Above(keys, cursor) - shown;
    }
  }

  lemma {:induction false} NarrowerAbove(a: set<Key>, b: set<Key>, cursor: Option<Key>, next: Option<Key>)
    requires Above(a, cursor) == Above(b, cursor)
    requires forall k | Beyond(k, next) :: Beyond(k, cursor)
    ensures Above(a, next) == Above(b, next)
  {
    forall k
      ensures k in Above(a, next) <==> k in Above(b, next)
    {
      assert k in Above(a, cursor) <==> k in Above(b, cursor);
    }
  }
}
