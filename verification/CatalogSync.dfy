/** Server and browser together, over whole runs: catalog writes that go through the change log,
    initial pages, further pages loaded while writes go on, and delta polls.

    The invariant says that the browser's view, overlaid with the last change of each key past its
    cursor, is the server's catalog, up to rows that paging has not reached yet. */
module CatalogSync {
  import opened Maps
  import opened SeqSets
  import opened CatalogLog
  import opened CatalogDelta
  import opened CatalogPaging

  /** clock bounds every change id given out so far; paging is where the next initial page starts. */
  datatype World = World(
    catalog: Catalog, log: seq<Change>, clock: int, view: Catalog, cursor: int, paging: Option<Position>)

  datatype Event =
    | Write(rows: seq<Change>, dropped: seq<Change>)
    | Bootstrap(page: seq<Row>, hasMore: bool)
    | LoadPage(page: seq<Row>, hasMore: bool)
    | Poll(changes: seq<Change>, limit: nat)

  /** c is the last change of its key, and past the cursor. */
  ghost predicate IsLast(log: seq<Change>, c: Change, cursor: int) {
    c in log && c.id > cursor && forall d | d in log && d.key == c.key :: d.id <= c.id
  }

  ghost predicate Settled(log: seq<Change>, k: Key, cursor: int) {
    forall c | c in log && c.key == k :: c.id <= cursor
  }

  ghost predicate WellFormed(w: World) {
    && KeyedByRow(w.catalog) && UniqueIds(w.log) && KeysMatch(w.log)
    && w.cursor <= w.clock && forall c | c in w.log :: c.id <= w.clock
  }

  /** The log is right about the catalog past the cursor. */
  ghost predicate LogAgrees(w: World) {
    forall c | IsLast(w.log, c, w.cursor) :: Effect(c) == Get(w.catalog, c.key)
  }

  /** The view is right at k, or paging has still to bring k. */
  ghost predicate ViewAgreesAt(w: World, k: Key) {
    || Get(w.view, k) == Get(w.catalog, k)
    || (w.paging.Some? && k in w.catalog && RowAfterCursor(w.catalog[k], w.paging.value) && k !in w.view)
  }

  /** Where the log has nothing more to say about k, the view is right. */
  ghost predicate ViewOk(w: World, k: Key) { Settled(w.log, k, w.cursor) ==> ViewAgreesAt(w, k) }

  ghost predicate Inv(w: World) { WellFormed(w) && LogAgrees(w) && forall k :: ViewOk(w, k) }

  /** One atomic step. A write may drop old places of the log, but none the browser still needs. */
  ghost predicate Step(w: World, e: Event, w': World) {
    match e
    case Write(rows, dropped) =>
      && AscendingIds(rows) && KeysMatch(rows)
      && (forall c | c in rows :: w.clock < c.id <= w'.clock) && w.clock <= w'.clock
      && Written(w.log, rows, dropped + w'.log) && (forall c | c in dropped :: c.id <= w.cursor)
      && w' == w.(catalog := Replay(w.catalog, rows), log := w'.log, clock := w'.clock)
    case Bootstrap(page, hasMore) =>
      && IsRowPage(page, w.catalog, None, hasMore) && (hasMore ==> page != [])
      && (forall c | c in w.log :: c.id <= w'.cursor) && w'.cursor <= w.clock
      && w' == w.(view := PutAll(map[], page), cursor := w'.cursor, paging := NextPaging(page, hasMore))
    case LoadPage(page, hasMore) =>
      && w.paging.Some?
      && IsRowPage(page, w.catalog, w.paging, hasMore) && (hasMore ==> page != [])
      && w' == w.(view := PutAll(w.view, page), paging := NextPaging(page, hasMore))
    case Poll(changes, limit) =>
      && limit >= 1 && IsPage(changes, w.log, w.cursor, limit)
      && w' == w.(view := ApplyDelta(w.view, changes), cursor := NextCursor(changes, w.cursor))
  }

  /** No run is ruled out by more than this: a write of new ids that drops only what the browser has read, a first page
      with a cursor that covers the log, any page past the page cursor, and any page of unread changes. */
  lemma StepsThatCanHappen(w: World, rows: seq<Change>, dropped: seq<Change>, log: seq<Change>, clock: int,
                           page: seq<Row>, hasMore: bool, cursor: int, changes: seq<Change>, limit: nat)
    ensures && AscendingIds(rows) && KeysMatch(rows) && w.clock <= clock
            && (forall c | c in rows :: w.clock < c.id <= clock) && (forall c | c in dropped :: c.id <= w.cursor)
            && Written(w.log, rows, dropped + log) ==>
              Step(w, Write(rows, dropped), w.(catalog := Replay(w.catalog, rows), log := log, clock := clock))
    ensures && IsRowPage(page, w.catalog, None, hasMore) && (hasMore ==> page != [])
            && (forall c | c in w.log :: c.id <= cursor) && cursor <= w.clock ==>
              Step(w, Bootstrap(page, hasMore),
                   w.(view := PutAll(map[], page), cursor := cursor, paging := NextPaging(page, hasMore)))
    ensures w.paging.Some? && IsRowPage(page, w.catalog, w.paging, hasMore) && (hasMore ==> page != []) ==>
              Step(w, LoadPage(page, hasMore),
                   w.(view := PutAll(w.view, page), paging := NextPaging(page, hasMore)))
    ensures limit >= 1 && IsPage(changes, w.log, w.cursor, limit) ==>
              Step(w, Poll(changes, limit),
                   w.(view := ApplyDelta(w.view, changes), cursor := NextCursor(changes, w.cursor)))
  {
    hide Replay, IsRowPage, IsPage, Written, PutAll, ApplyDelta;
  }

  ghost function NextPaging(page: seq<Row>, hasMore: bool): Option<Position>
    requires hasMore ==> page != []
  {
    if hasMore then Some(PositionOf(page[|page| - 1])) else None
  }

  /** A poll is harmless when each key it deletes after upserting it has a further change past the page. */
  ghost predicate Harmless(w: World, e: Event) {
    e.Poll? ==> forall k :: LateDelete(e.changes, k) ==> !Settled(w.log, k, NextCursor(e.changes, w.cursor))
  }

  // ---- Writes

  lemma {:induction false} ReplayKeepsKeys(m: Catalog, rows: seq<Change>)
    requires KeyedByRow(m) && KeysMatch(rows)
    ensures KeyedByRow(Replay(m, rows))
  {
    if rows == [] {
    } else {
      ReplayKeepsKeys(m, rows[..|rows| - 1]);
      assert rows[|rows| - 1] in rows;
    }
  }

  /** The last row a write has for a key is in the log afterwards, past every cursor. */
  lemma LastRowIsWritten(w: World, e: Event, w': World, k: Key)
    requires WellFormed(w) && e.Write? && Step(w, e, w') && LastOf(e.rows, k) >= 0
    ensures e.rows[LastOf(e.rows, k)] in w'.log && e.rows[LastOf(e.rows, k)].id > w.clock
  {
    hide LastOf, Replay;
    var last := e.rows[LastOf(e.rows, k)];
    assert last in e.rows && last in e.dropped + w'.log;
  }

  lemma WriteKeepsChange(w: World, e: Event, w': World, c: Change)
    requires Inv(w) && e.Write? && Step(w, e, w') && IsLast(w'.log, c, w'.cursor)
    ensures Effect(c) == Get(w'.catalog, c.key)
  {
    hide LastOf, Replay;
    var i := LastOf(e.rows, c.key);
    ReplayAt(w.catalog, e.rows, c.key);
    var full := e.dropped + w'.log;
    assert c in full;
    if c in e.rows {
      LastOfMember(e.rows, c);
    }
    if i >= 0 {
      LastRowIsWritten(w, e, w', c.key);
      if c in e.rows {
        var j :| 0 <= j < |e.rows| && e.rows[j] == c;
      }
    } else {
      forall d | d in w.log && d.key == c.key ensures d.id <= c.id {
        assert d in full;
      }
    }
  }

  lemma WriteKeepsView(w: World, e: Event, w': World, k: Key)
    requires Inv(w) && e.Write? && Step(w, e, w') && Settled(w'.log, k, w'.cursor)
    ensures ViewAgreesAt(w', k)
  {
    hide LastOf, Replay;
    ReplayAt(w.catalog, e.rows, k);
    if LastOf(e.rows, k) >= 0 {
      LastRowIsWritten(w, e, w', k);
    } else {
      forall d | d in w.log && d.key == k ensures d.id <= w.cursor {
        assert d in e.dropped + w'.log;
      }
      assert ViewOk(w, k);
    }
  }

  lemma WriteKeepsWellFormed(w: World, e: Event, w': World)
    requires WellFormed(w) && e.Write? && Step(w, e, w')
    ensures WellFormed(w')
  {
    hide LastOf, Replay;
    ReplayKeepsKeys(w.catalog, e.rows);
    var full := e.dropped + w'.log;
    assert forall c | c in w'.log :: c in full;
    forall i, j | 0 <= i < j < |w'.log| ensures w'.log[i].id != w'.log[j].id {
      assert full[|e.dropped| + i] == w'.log[i] && full[|e.dropped| + j] == w'.log[j];
    }
  }

  lemma WriteKeepsInv(w: World, e: Event, w': World)
    requires Inv(w) && e.Write? && Step(w, e, w')
    ensures Inv(w')
  {
    hide WellFormed, Step, IsLast, Settled, ViewAgreesAt;
    WriteKeepsWellFormed(w, e, w');
    forall c | IsLast(w'.log, c, w'.cursor) ensures Effect(c) == Get(w'.catalog, c.key) {
      WriteKeepsChange(w, e, w', c);
    }
    forall k ensures ViewOk(w', k) {
      if Settled(w'.log, k, w'.cursor) {
        WriteKeepsView(w, e, w', k);
      }
    }
  }

  // ---- Pages

  lemma {:induction false} PutRowsAt(m: Catalog, page: seq<Row>, k: Key)
    ensures if exists x :: x in page && x.key == k
            then k in PutAll(m, page) && PutAll(m, page)[k].key == k && PutAll(m, page)[k] in page
            else Get(PutAll(m, page), k) == Get(m, k)
  {
    if page == [] {
    } else {
      var front := page[..|page| - 1];
      PutRowsAt(m, front, k);
      assert page == front + [page[|page| - 1]];
    }
  }

  /** Putting a page of current rows over a view leaves it right at the rows of the page, and as it was elsewhere. */
  lemma PageAt(m: Catalog, page: seq<Row>, catalog: Catalog, k: Key)
    requires KeyedByRow(catalog) && forall x | x in page :: x.key in catalog && catalog[x.key] == x
    ensures Get(PutAll(m, page), k) == if k in catalog && catalog[k] in page then Some(catalog[k]) else Get(m, k)
  {
    PutRowsAt(m, page, k);
  }

  lemma PageKeepsView(w: World, page: seq<Row>, hasMore: bool, k: Key)
    requires KeyedByRow(w.catalog) && IsRowPage(page, w.catalog, w.paging, hasMore) && (hasMore ==> page != [])
    requires ViewAgreesAt(w, k)
    ensures ViewAgreesAt(w.(view := PutAll(w.view, page), paging := NextPaging(page, hasMore)), k) ||
            (w.paging.None? && k in w.catalog && w.catalog[k] !in page)
  {
    PageAt(w.view, page, w.catalog, k);
    if k in w.catalog && w.catalog[k] !in page && hasMore {
      CursorAgreesWithSort(page[|page| - 1], w.catalog[k]);
    }
  }

  lemma PagesKeepInv(w: World, e: Event, w': World)
    requires Inv(w) && (e.LoadPage? || e.Bootstrap?) && Step(w, e, w')
    ensures Inv(w')
  {
    hide PutAll;
    forall k | Settled(w'.log, k, w'.cursor) ensures ViewAgreesAt(w', k) {
      if e.LoadPage? {
        assert ViewOk(w, k);
        PageKeepsView(w, e.page, e.hasMore, k);
      } else {
        PageAt(map[], e.page, w.catalog, k);
        if k in w.catalog && w.catalog[k] !in e.page {
          CursorAgreesWithSort(e.page[|e.page| - 1], w.catalog[k]);
        }
      }
    }
    forall c | IsLast(w'.log, c, w'.cursor) ensures Effect(c) == Get(w'.catalog, c.key) {
      if e.Bootstrap? {
        assert false;
      }
    }
  }

  // ---- Polls

  /** The page holds exactly the changes between the two cursors. */
  lemma PageIsInterval(log: seq<Change>, page: seq<Change>, since: int, k: nat)
    requires IsPage(page, log, since, k) && UniqueIds(log) && k >= 1
    ensures since <= NextCursor(page, since)
    ensures forall c | c in log :: c in page <==> since < c.id <= NextCursor(page, since)
  {
    var ids := IdsOf(page);
    var top := NextCursor(page, since);
    var pending := PendingIds(log, since);
    if page != [] {
      assert ids[|ids| - 1] == top && top in Members(ids);
    } else {
      AscendingCount(ids);
      SizeOfNone(pending);
    }
    forall c | c in log ensures c in page <==> since < c.id <= top {
      if c in page {
        var i :| 0 <= i < |page| && page[i] == c;
        assert ids[i] == c.id && ids[i] in Members(ids);
      } else if since < c.id <= top {
        assert c.id in pending;
        assert c.id in Members(ids);
        var i :| 0 <= i < |ids| && ids[i] == c.id;
        SameChange(log, c, page[i]);
      }
    }
  }

  lemma SizeOfNone(s: set<int>)
    requires |s| == 0
    ensures forall x :: x !in s
  {
  }

  lemma SameChange(log: seq<Change>, c: Change, d: Change)
    requires UniqueIds(log) && c in log && d in log && c.id == d.id
    ensures c == d
  {
    var i :| 0 <= i < |log| && log[i] == c;
    var j :| 0 <= j < |log| && log[j] == d;
  }

  /** The last change a page has for a settled key is the last of the log. */
  lemma PageLastIsLast(w: World, page: seq<Change>, limit: nat, k: Key)
    requires WellFormed(w) && limit >= 1 && IsPage(page, w.log, w.cursor, limit)
    requires Settled(w.log, k, NextCursor(page, w.cursor)) && LastOf(page, k) >= 0
    ensures IsLast(w.log, page[LastOf(page, k)], w.cursor)
  {
    hide LastOf, PendingIds;
    PageIsInterval(w.log, page, w.cursor, limit);
    PageAscends(w, page, limit);
    var c := page[LastOf(page, k)];
    assert c in page && c in w.log;
    forall d | d in w.log && d.key == k ensures d.id <= c.id {
      if d in page {
        LastOfMember(page, d);
      }
    }
  }

  lemma PageAscends(w: World, page: seq<Change>, limit: nat)
    requires IsPage(page, w.log, w.cursor, limit)
    ensures AscendingIds(page)
  {
    assert forall i | 0 <= i < |page| :: IdsOf(page)[i] == page[i].id;
  }

  /** After a page is replayed, the view is right at every key the log has settled. */
  lemma ReplayKeepsView(w: World, page: seq<Change>, limit: nat, k: Key)
    requires Inv(w) && limit >= 1 && IsPage(page, w.log, w.cursor, limit)
    requires Settled(w.log, k, NextCursor(page, w.cursor))
    ensures Get(Replay(w.view, page), k) == Get(w.catalog, k) ||
            (LastOf(page, k) < 0 && Get(Replay(w.view, page), k) == Get(w.view, k) && ViewAgreesAt(w, k))
  {
    hide Replay, LastOf, ViewAgreesAt, PendingIds, WellFormed;
    ReplayAt(w.view, page, k);
    if LastOf(page, k) >= 0 {
      PageLastIsLast(w, page, limit, k);
    } else {
      assert Settled(w.log, k, w.cursor) by {
        UntouchedIsSettled(w, page, limit, k);
      }
      assert ViewOk(w, k);
    }
  }

  lemma UntouchedIsSettled(w: World, page: seq<Change>, limit: nat, k: Key)
    requires WellFormed(w) && limit >= 1 && IsPage(page, w.log, w.cursor, limit)
    requires Settled(w.log, k, NextCursor(page, w.cursor)) && LastOf(page, k) < 0
    ensures Settled(w.log, k, w.cursor)
  {
    hide LastOf, PendingIds;
    PageIsInterval(w.log, page, w.cursor, limit);
    forall c | c in w.log && c.key == k ensures c.id <= w.cursor {
      if c in page {
        LastOfMember(page, c);
      }
    }
  }

  lemma PollKeepsLog(w: World, e: Event, w': World)
    requires Inv(w) && e.Poll? && Step(w, e, w')
    ensures LogAgrees(w') && WellFormed(w')
  {
    hide ApplyDelta;
    PageIsInterval(w.log, e.changes, w.cursor, e.limit);
    assert e.changes != [] ==> e.changes[|e.changes| - 1] in w.log;
    forall c | IsLast(w'.log, c, w'.cursor) ensures Effect(c) == Get(w'.catalog, c.key) {
      assert IsLast(w.log, c, w.cursor);
    }
  }

  /** Exactly the harmless polls keep the invariant. */
  lemma PollKeepsInvIff(w: World, e: Event, w': World)
    requires Inv(w) && e.Poll? && Step(w, e, w')
    ensures Inv(w') <==> Harmless(w, e)
  {
    hide Replay, ApplyDelta, LateDelete, IsPage, LogAgrees, WellFormed, Settled;
    PollKeepsLog(w, e, w');
    PageKeysMatch(w, e.changes, e.limit);
    forall k ensures ViewOk(w', k) <==> LateDelete(e.changes, k) ==> !Settled(w.log, k, w'.cursor) {
      if Settled(w.log, k, w'.cursor) {
        DeltaAt(w.view, e.changes, k);
        ReplayKeepsView(w, e.changes, e.limit, k);
        if LateDelete(e.changes, k) {
          LateDeleteIsGone(w, e.changes, e.limit, k);
        }
      }
    }
  }

  lemma PageKeysMatch(w: World, page: seq<Change>, limit: nat)
    requires WellFormed(w) && IsPage(page, w.log, w.cursor, limit)
    ensures KeysMatch(page)
  {
  }

  /** A late delete is the server's last word, so the row that comes back is wrong. */
  lemma LateDeleteIsGone(w: World, page: seq<Change>, limit: nat, k: Key)
    requires Inv(w) && limit >= 1 && IsPage(page, w.log, w.cursor, limit)
    requires Settled(w.log, k, NextCursor(page, w.cursor)) && LateDelete(page, k)
    ensures k !in w.catalog
  {
    hide Replay;
    ReplayAt(w.view, page, k);
    ReplayKeepsView(w, page, limit, k);
  }

  // ---- Runs

  /** A run: worlds linked by events. */
  ghost predicate IsRun(worlds: seq<World>, events: seq<Event>) {
    && |worlds| == |events| + 1
    && forall i | 0 <= i < |events| :: Step(worlds[i], events[i], worlds[i + 1])
  }

  lemma StepKeepsInv(w: World, e: Event, w': World)
    requires Inv(w) && Step(w, e, w') && Harmless(w, e)
    ensures Inv(w')
  {
    hide Inv, Step, Harmless;
    match e
    case Write(_, _) => WriteKeepsInv(w, e, w');
    case Bootstrap(_, _) => PagesKeepInv(w, e, w');
    case LoadPage(_, _) => PagesKeepInv(w, e, w');
    case Poll(_, _) => PollKeepsInvIff(w, e, w');
  }

  /** The catalog, seen through the browser's view and the changes it has not read. */
  ghost predicate CaughtUp(w: World) { w.paging.None? && forall c | c in w.log :: c.id <= w.cursor }

  /** Over every run whose polls are harmless the invariant holds, and whenever the browser has loaded all pages
      and read all changes, it shows the server's catalog. */
  lemma RunConverges(worlds: seq<World>, events: seq<Event>)
    requires IsRun(worlds, events) && Inv(worlds[0])
    requires forall i | 0 <= i < |events| :: Harmless(worlds[i], events[i])
    ensures forall i | 0 <= i < |worlds| :: Inv(worlds[i])
    ensures forall i | 0 <= i < |worlds| :: CaughtUp(worlds[i]) ==> worlds[i].view == worlds[i].catalog
  {
    for n := 0 to |events|
      invariant forall i | 0 <= i <= n :: Inv(worlds[i])
    {
      StepKeepsInv(worlds[n], events[n], worlds[n + 1]);
    }
    forall i | 0 <= i < |worlds| && CaughtUp(worlds[i]) ensures worlds[i].view == worlds[i].catalog {
      CaughtUpAgrees(worlds[i]);
    }
  }

  lemma CaughtUpAgrees(w: World)
    requires Inv(w) && CaughtUp(w)
    ensures w.view == w.catalog
  {
    forall k ensures Get(w.view, k) == Get(w.catalog, k) {
      assert ViewOk(w, k);
    }
    SameMap(w.view, w.catalog);
  }

  /** A poll reads on while anything is left to read. */
  lemma PollMovesOn(w: World, e: Event, w': World)
    requires UniqueIds(w.log) && e.Poll? && Step(w, e, w')
    ensures w'.log == w.log && PendingIds(w'.log, w'.cursor) <= PendingIds(w.log, w.cursor)
    ensures PendingIds(w.log, w.cursor) != {} ==> PendingIds(w'.log, w'.cursor) < PendingIds(w.log, w.cursor)
  {
    var pending, after := PendingIds(w.log, w.cursor), PendingIds(w'.log, w'.cursor);
    PageIsInterval(w.log, e.changes, w.cursor, e.limit);
    assert after <= pending;
    if pending != {} {
      AscendingCount(IdsOf(e.changes));
      assert e.changes != [] by {
        if e.changes == [] {
          assert Members(IdsOf(e.changes)) == {};
          EmptyPageIsEnd(w.log, e.changes, w.cursor, e.limit);
        }
      }
      var last := e.changes[|e.changes| - 1];
      assert last in w.log && last.id in pending && last.id !in after;
    }
  }

  lemma EmptyPageIsEnd(log: seq<Change>, page: seq<Change>, since: int, k: nat)
    requires IsPage(page, log, since, k) && k >= 1 && page == []
    ensures PendingIds(log, since) == {}
  {
    AscendingCount(IdsOf(page));
    SizeOfNone(PendingIds(log, since));
  }

  /** With no more writes, as many polls as changes are unread read all of them, whatever their limits. */
  lemma {:induction false} PollsCatchUp(worlds: seq<World>, events: seq<Event>)
    requires IsRun(worlds, events) && UniqueIds(worlds[0].log) && forall i | 0 <= i < |events| :: events[i].Poll?
    requires |events| >= |PendingIds(worlds[0].log, worlds[0].cursor)|
    ensures forall c | c in worlds[|events|].log :: c.id <= worlds[|events|].cursor
    decreases |events|
  {
    hide Step;
    var w := worlds[0];
    var pending := PendingIds(w.log, w.cursor);
    if pending == {} {
      StaysRead(worlds, events);
    } else {
      var w' := worlds[1];
      PollMovesOn(w, events[0], w');
      SmallerSet(PendingIds(w'.log, w'.cursor), pending);
      assert forall i | 0 <= i < |events| - 1 :: Step(worlds[1..][i], events[1..][i], worlds[1..][i + 1]);
      PollsCatchUp(worlds[1..], events[1..]);
    }
  }

  lemma SmallerSet<T>(a: set<T>, b: set<T>)
    requires a < b
    ensures |a| < |b|
  {
    var rest := b - a;
    assert b == a + rest && rest != {};
  }

  lemma {:induction false} StaysRead(worlds: seq<World>, events: seq<Event>)
    requires IsRun(worlds, events) && UniqueIds(worlds[0].log) && forall i | 0 <= i < |events| :: events[i].Poll?
    requires PendingIds(worlds[0].log, worlds[0].cursor) == {}
    ensures forall c | c in worlds[|events|].log :: c.id <= worlds[|events|].cursor
    decreases |events|
  {
    hide Step;
    if events == [] {
      assert forall c | c in worlds[0].log && c.id > worlds[0].cursor ::
        c.id in PendingIds(worlds[0].log, worlds[0].cursor);
    } else {
      PollMovesOn(worlds[0], events[0], worlds[1]);
      assert forall i | 0 <= i < |events| - 1 :: Step(worlds[1..][i], events[1..][i], worlds[1..][i + 1]);
      StaysRead(worlds[1..], events[1..]);
    }
  }

  ghost function PastKeys(w: World): set<Key> { set k | k in w.catalog && Past(w.catalog[k], w.paging) }

  /** Loading pages ends: with no more writes there are at most as many pages as rows past the page cursor, and one. */
  lemma {:induction false} PagesEnd(worlds: seq<World>, events: seq<Event>)
    requires IsRun(worlds, events) && KeyedByRow(worlds[0].catalog)
    requires forall i | 0 <= i < |events| :: events[i].LoadPage?
    ensures |events| <= |PastKeys(worlds[0])| + 1
    ensures events != [] ==> (worlds[|events|].paging.None? <==> !events[|events| - 1].hasMore)
    decreases |events|
  {
    hide Step;
    if events != [] {
      PageMovesOn(worlds[0], events[0], worlds[1]);
      assert forall i | 0 <= i < |events| - 1 :: Step(worlds[1..][i], events[1..][i], worlds[1..][i + 1]);
      PagesEnd(worlds[1..], events[1..]);
      if |events| > 1 {
        PageMovesOn(worlds[1], events[1], worlds[2]);
        SmallerSet(PastKeys(worlds[1]), PastKeys(worlds[0]));
      }
    }
  }

  /** A page moves the cursor past rows, or is the last one. */
  lemma PageMovesOn(w: World, e: Event, w': World)
    requires e.LoadPage? && Step(w, e, w') && KeyedByRow(w.catalog)
    ensures w.paging.Some? && w'.catalog == w.catalog && (w'.paging.None? <==> !e.hasMore)
    ensures e.hasMore ==> PastKeys(w') < PastKeys(w)
  {
    if e.hasMore {
      var last := e.page[|e.page| - 1];
      forall k | k in PastKeys(w') ensures k in PastKeys(w) {
      }
      assert last in e.page && last.key in PastKeys(w) && last.key !in PastKeys(w');
    }
  }

  /** A session created and deleted between two polls, from the empty world on: the browser keeps a row the server does
      not have, although it has read everything. */
  lemma GhostSession(row: Row)
    ensures var up, del := Change(1, row.key, 0, Upsert(row)), Change(2, row.key, 0, Delete);
            var w0 := World(map[], [], 0, map[], 0, None);
            var w1 := w0.(catalog := map[row.key := row], log := [up], clock := 1);
            var w2 := w0.(log := [up, del], clock := 2);
            var w3 := w2.(view := map[row.key := row], cursor := 2);
            && IsRun([w0, w1, w2, w3], [Write([up], []), Write([del], []), Poll([up, del], 2)])
            && Inv(w0) && CaughtUp(w3) && w3.view != w3.catalog
  {
    hide Step;
    var up, del := Change(1, row.key, 0, Upsert(row)), Change(2, row.key, 0, Delete);
    var w0 := World(map[], [], 0, map[], 0, None);
    var w1 := w0.(catalog := map[row.key := row], log := [up], clock := 1);
    var w2 := w0.(log := [up, del], clock := 2);
    WriteOne(w0, up);
    WriteOne(w1, del);
    assert Apply(w1.catalog, del) == map[] && [] + [up] == [up] && [up] + [del] == [up, del];
    PollTwo(w2, row, up, del);
  }

  /** A write of one change puts it behind the log. */
  lemma WriteOne(w: World, c: Change)
    requires UniqueIds(w.log) && (forall d | d in w.log :: d.id <= w.clock) && w.clock < c.id
    requires c.op.Upsert? ==> c.op.row.key == c.key
    ensures Step(w, Write([c], []), w.(catalog := Apply(w.catalog, c), log := w.log + [c], clock := c.id))
  {
    hide Written, LastOf;
    assert [c][..0] == [] && Replay(w.catalog, [c]) == Apply(Replay(w.catalog, []), c);
    NothingWritten(w.log, [c]);
    AppendIsWritten(w.log, c);
    assert [] + (w.log + [c]) == w.log + [c];
  }

  lemma AppendIsWritten(log: seq<Change>, c: Change)
    requires UniqueIds(log) && forall d | d in log :: d.id != c.id
    ensures Written(log, [c], log + [c])
  {
    hide Absorbed, LastOf;
    NothingWritten(log, [c]);
    PushKeepsIds(log, c);
    assert c in log + [c];
    AbsorbStep(log, [c], 0, log, log + [c]);
    assert [c][..1] == [c];
  }

  lemma PollTwo(w: World, row: Row, up: Change, del: Change)
    requires w.log == [up, del] && 0 < up.id < del.id && w.view == map[] && w.cursor == 0
    requires up.key == row.key && up.op == Upsert(row) && del.key == row.key && del.op == Delete
    ensures Step(w, Poll([up, del], 2), w.(view := map[row.key := row], cursor := del.id))
  {
    hide IsPage, ApplyDelta;
    TwoChangesPage(up, del);
    UpThenDelete(row, up, del);
    assert [up, del][1] == del;
  }

  lemma TwoChangesPage(a: Change, b: Change)
    requires 0 < a.id < b.id
    ensures IsPage([a, b], [a, b], 0, 2)
  {
    var log := [a, b];
    assert IdsOf(log) == [a.id, b.id];
    assert log[0] == a && log[1] == b;
    assert PendingIds(log, 0) == {a.id, b.id};
    assert Members([a.id, b.id]) == {a.id, b.id};
  }

  lemma UpThenDelete(row: Row, up: Change, del: Change)
    requires up.key == row.key && up.op == Upsert(row) && del.key == row.key && del.op == Delete
    ensures ApplyDelta(map[], [up, del]) == map[row.key := row]
  {
    var log := [up, del];
    assert log[..1] == [up] && [up][..0] == [];
    assert UpsertsOf([]) == [] && DeletesOf([]) == [];
    assert UpsertsOf([up]) == [row] && DeletesOf([up]) == [];
    assert UpsertsOf(log) == [row] && DeletesOf(log) == [row.key];
    assert [row.key][..0] == [] && [row][..0] == [];
    assert RemoveAll(map[], [row.key]) == map[];
    assert PutAll(map[], [row]) == map[row.key := row];
  }
}
