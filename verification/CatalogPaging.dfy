/** Keyset paging of the catalog: rows by descending time, then device, then session, each page
    starting after the last row of the page before. */
module CatalogPaging {
  import opened Maps
  import opened CatalogLog

  /** The sort comparator. */
  predicate Before(a: Row, b: Row) {
    if a.updatedAt != b.updatedAt then a.updatedAt > b.updatedAt
    else if a.key.device != b.key.device then a.key.device < b.key.device
    else a.key.session < b.key.session
  }

  /** What a page cursor remembers of a row. */
  datatype Position = Position(updatedAt: int, device: int, session: int)

  function PositionOf(row: Row): Position { Position(row.updatedAt, row.key.device, row.key.session) }

  /** The test a page query applies to its cursor. */
  predicate RowAfterCursor(row: Row, cursor: Position) {
    if row.updatedAt != cursor.updatedAt then row.updatedAt < cursor.updatedAt
    else if row.key.device != cursor.device then row.key.device > cursor.device
    else row.key.session > cursor.session
  }

  /** The after-cursor test and the comparator are the same order. */
  lemma CursorAgreesWithSort(a: Row, b: Row)
    ensures RowAfterCursor(b, PositionOf(a)) <==> Before(a, b)
  {
  }

  predicate Past(row: Row, after: Option<Position>) { after.Some? ==> RowAfterCursor(row, after.value) }

  ghost predicate Sorted(q: seq<Row>) { forall i, j | 0 <= i < j < |q| :: Before(q[i], q[j]) }

  /** Newest first; rows of one time by device, rows of one device by session. */
  ghost predicate NewestFirst(q: seq<Row>) {
    forall i, j | 0 <= i < j < |q| ::
      || q[i].updatedAt > q[j].updatedAt
      || (q[i].updatedAt == q[j].updatedAt && q[i].key.device < q[j].key.device)
      || (q[i].updatedAt == q[j].updatedAt && q[i].key.device == q[j].key.device && q[i].key.session < q[j].key.session)
  }

  lemma SortedIsNewestFirst(q: seq<Row>)
    ensures Sorted(q) <==> NewestFirst(q)
  {
  }

  /** One row a key. */
  ghost predicate KeyedByRow(m: Catalog) { forall k | k in m :: m[k].key == k }

  function InsertRow(q: seq<Row>, row: Row): (r: seq<Row>)
    requires Sorted(q) && forall x | x in q :: x.key != row.key
    ensures Sorted(r) && |r| == |q| + 1 && forall x :: x in r <==> x == row || x in q
  {
    if q == [] || Before(row, q[0]) then [row] + q
    else
      var r := InsertRow(q[1..], row);
      assert forall x :: x in q <==> x == q[0] || x in q[1..];
      assert forall i | 0 <= i < |r| :: Before(q[0], r[i]) by {
        forall i | 0 <= i < |r| ensures Before(q[0], r[i]) {
          assert r[i] in r;
        }
      }
      [q[0]] + r
  }

  /** The user's rows that lie past the cursor, sorted. */
  method SortedRowsPast(m: Catalog, after: Option<Position>) returns (q: seq<Row>)
    requires KeyedByRow(m)
    ensures Sorted(q) && forall x :: x in q <==> x.key in m && m[x.key] == x && Past(x, after)
  {
    q := [];
    var rest := m.Keys;
    while rest != {}
      invariant rest <= m.Keys
      invariant Sorted(q) && forall x :: x in q <==> x.key in m && x.key !in rest && m[x.key] == x && Past(x, after)
      decreases |rest|
    {
      var k :| k in rest;
      if Past(m[k], after) {
        q := InsertRow(q, m[k]);
      }
      rest := rest - {k};
    }
  }

  /** One page: its rows are the first ones past the cursor, and none past the cursor is left out before the last. */
  ghost predicate IsRowPage(page: seq<Row>, m: Catalog, after: Option<Position>, hasMore: bool) {
    && Sorted(page)
    && (forall x | x in page :: x.key in m && m[x.key] == x && Past(x, after))
    && (forall k | k in m && Past(m[k], after) && m[k] !in page ::
          hasMore && page != [] && Before(page[|page| - 1], m[k]))
    && (hasMore ==> exists k :: k in m && Past(m[k], after) && m[k] !in page)
  }

  /** The initial-page response: limit + 1 rows are read to learn whether there are more. */
  method SessionCatalogInitialPage(m: Catalog, limit: nat, after: Option<Position>)
    returns (page: seq<Row>, hasMore: bool, nextPageCursor: Option<Position>)
    requires KeyedByRow(m) && limit >= 1
    ensures |page| <= limit && IsRowPage(page, m, after, hasMore) && NewestFirst(page)
    ensures hasMore ==> |page| == limit
    ensures nextPageCursor == if hasMore then Some(PositionOf(page[|page| - 1])) else None
    ensures hasMore ==> page != []
  {
    var q := SortedRowsPast(m, after);
    var sessions := q[..(if |q| > limit + 1 then limit + 1 else |q|)];
    page := sessions[..(if |sessions| > limit then limit else |sessions|)];
    hasMore := |sessions| > limit;
    nextPageCursor := if hasMore then Some(PositionOf(page[|page| - 1])) else None;
    assert page == q[..|page|];
    SortedIsNewestFirst(page);
    forall k | k in m && Past(m[k], after) && m[k] !in page ensures hasMore && Before(page[|page| - 1], m[k]) {
    }
    if hasMore {
      assert q[|page|].key in m && m[q[|page|].key] !in page;
    }
  }

  /** all is the front of the sorted catalog that ends at the cursor. */
  ghost predicate Loaded(all: seq<Row>, m: Catalog, after: Option<Position>) {
    && Sorted(all)
    && (forall x | x in all :: x.key in m && m[x.key] == x)
    && (after.None? <==> all == [])
    && (all != [] ==> after == Some(PositionOf(all[|all| - 1])))
    && (forall k | k in m :: m[k] in all <==> !Past(m[k], after))
  }

  ghost function Left(all: seq<Row>, m: Catalog): set<Key> { set k | k in m && m[k] !in all }

  lemma AppendSorted(all: seq<Row>, page: seq<Row>, m: Catalog, after: Option<Position>)
    requires Loaded(all, m, after) && Sorted(page) && forall x | x in page :: Past(x, after)
    ensures Sorted(all + page)
  {
    if all != [] {
      var last := all[|all| - 1];
      forall j | 0 <= j < |page| ensures Before(last, page[j]) {
        assert page[j] in page;
        CursorAgreesWithSort(last, page[j]);
      }
    }
  }

  /** One more page: more rows are loaded, and without has_more all of them are. */
  lemma PageStep(all: seq<Row>, page: seq<Row>, m: Catalog, after: Option<Position>, hasMore: bool)
    requires Loaded(all, m, after) && IsRowPage(page, m, after, hasMore) && (hasMore ==> page != [])
    ensures Sorted(all + page) && forall x | x in all + page :: x.key in m && m[x.key] == x
    ensures hasMore ==> Loaded(all + page, m, Some(PositionOf(page[|page| - 1])))
    ensures hasMore ==> Left(all + page, m) < Left(all, m)
    ensures !hasMore ==> forall k | k in m :: m[k] in all + page
  {
    AppendSorted(all, page, m, after);
    if hasMore {
      var last := page[|page| - 1];
      forall k | k in m ensures m[k] in all + page <==> !Past(m[k], Some(PositionOf(last))) {
        CursorAgreesWithSort(last, m[k]);
      }
      assert last.key in Left(all, m);
      assert m[last.key] in all + page;
    }
  }

  /** Following the page cursor to the end yields the sorted catalog: every row, once, in order. */
  method LoadAllPages(m: Catalog, limit: nat) returns (all: seq<Row>)
    requires KeyedByRow(m) && limit >= 1
    ensures NewestFirst(all) && forall x :: x in all <==> x.key in m && m[x.key] == x
  {
    hide IsRowPage, Sorted;
    all := [];
    var after: Option<Position> := None;
    NothingLoaded(m);
    while true
      invariant Loaded(all, m, after)
      decreases Left(all, m)
    {
      var page, hasMore, next := SessionCatalogInitialPage(m, limit, after);
      PageStep(all, page, m, after, hasMore);
      all := all + page;
      after := next;
      if !hasMore {
        SortedIsNewestFirst(all);
        return;
      }
    }
  }

  lemma NothingLoaded(m: Catalog)
    ensures Loaded([], m, None)
  {
  }
}
