/** The catalog delta: the server's page of changes, split into upserts and deletes, and the
    browser's merge of it. The browser applies all deletes before all upserts; `DeltaIsReplayIff`
    says exactly when that is the same as replaying the page. */
module CatalogDelta {
  import opened Maps
  import opened SeqSets
  import opened CatalogLog

  // ---- Reading a page of the log

  function IdsOf(page: seq<Change>): (r: seq<int>)
    ensures |r| == |page| && forall i | 0 <= i < |page| :: r[i] == page[i].id
  {
    seq(|page|, i requires 0 <= i < |page| => page[i].id)
  }

  function PendingIds(log: seq<Change>, since: int): set<int> { set c | c in log && c.id > since :: c.id }

  /** page holds the first k changes of the log past the cursor, in id order. */
  ghost predicate IsPage(page: seq<Change>, log: seq<Change>, since: int, k: nat) {
    FirstK(IdsOf(page), PendingIds(log, since), k) && forall c | c in page :: c in log
  }

  method ListSessionCatalogChanges(log: seq<Change>, since: int, limit: nat) returns (page: seq<Change>)
    requires UniqueIds(log)
    ensures IsPage(page, log, since, limit)
  {
    var ids: seq<int> := [];
    var byId: map<int, Change> := map[];
    for i := 0 to |log|
      invariant Distinct(ids) && forall x :: x in ids <==> x in byId
      invariant forall x | x in byId :: byId[x].id == x && byId[x] in log[..i] && x > since
      invariant forall j | 0 <= j < i && log[j].id > since :: log[j].id in byId
    {
      if log[i].id > since {
        forall x | x in ids ensures x != log[i].id {
          var j :| 0 <= j < i && log[j] == byId[x];
        }
        assert forall a | 0 <= a < |ids| :: ids[a] in ids;
        ids := ids + [log[i].id];
        byId := byId[log[i].id := log[i]];
      }
    }
    var sorted := SortAscending(ids);
    var front := sorted[..(if |sorted| <= limit then |sorted| else limit)];
    FrontIsFirstK(sorted, limit);
    SameMembers(Members(sorted), PendingIds(log, since));
    assert forall i | 0 <= i < |front| :: front[i] in sorted;
    page := seq(|front|, i requires 0 <= i < |front| => byId[front[i]]);
    assert IdsOf(page) == front;
  }

  function UpsertsOf(page: seq<Change>): seq<Row> {
    if page == [] then []
    else
      var rest := UpsertsOf(page[..|page| - 1]);
      var c := page[|page| - 1];
      if c.op.Upsert? then rest + [c.op.row] else rest
  }

  function DeletesOf(page: seq<Change>): seq<Key> {
    if page == [] then []
    else
      var rest := DeletesOf(page[..|page| - 1]);
      var c := page[|page| - 1];
      if c.op.Delete? then rest + [c.key] else rest
  }

  datatype Delta = Delta(upserts: seq<Row>, deletes: seq<Key>, nextCursor: int, hasMore: bool)

  /** The cursor a page leaves: its last id, or the old cursor when it is empty. */
  function NextCursor(page: seq<Change>, since: int): int { if page == [] then since else page[|page| - 1].id }

  /** The response to a poll: the page's rows and removed keys, its last id and whether there is more. */
  ghost predicate IsDelta(delta: Delta, page: seq<Change>, log: seq<Change>, since: int, limit: nat) {
    && IsPage(page, log, since, limit)
    && delta == Delta(UpsertsOf(page), DeletesOf(page), NextCursor(page, since), |PendingIds(log, since)| > limit)
  }

  method ListSessionsDelta(log: seq<Change>, since: int, limit: nat) returns (delta: Delta)
    requires UniqueIds(log) && limit >= 1
    ensures exists page :: IsDelta(delta, page, log, since, limit)
  {
    var changes := ListSessionCatalogChanges(log, since, limit + 1);
    var shown := changes[..(if |changes| > limit then limit else |changes|)];
    ShorterPage(changes, shown, log, since, limit);
    var upserts, deletes := [], [];
    for i := 0 to |shown|
      invariant upserts == UpsertsOf(shown[..i]) && deletes == DeletesOf(shown[..i])
    {
      assert shown[..i + 1][..i] == shown[..i];
      if shown[i].op.Delete? {
        deletes := deletes + [shown[i].key];
        continue;
      }
      upserts := upserts + [shown[i].op.row];
    }
    assert shown[..|shown|] == shown;
    delta := Delta(upserts, deletes, NextCursor(shown, since), |changes| > limit);
    assert IsDelta(delta, shown, log, since, limit);
  }

  lemma ShorterPage(changes: seq<Change>, shown: seq<Change>, log: seq<Change>, since: int, k: nat)
    requires IsPage(changes, log, since, k + 1)
    requires shown == changes[..(if |changes| > k then k else |changes|)]
    ensures IsPage(shown, log, since, k) && (|changes| > k <==> |PendingIds(log, since)| > k)
  {
    var p, q := IdsOf(changes), IdsOf(shown);
    assert q == p[..|q|];
    FrontIsFirstK(p, k);
    AscendingCount(p);
    var s := PendingIds(log, since);
    forall x, y | x in s && x !in Members(q) && y in Members(q) ensures y < x {
      assert y in p;
    }
    assert Members(q) <= s;
  }

  // ---- The browser's merge

  function RemoveAll(m: Catalog, keys: seq<Key>): Catalog {
    if keys == [] then m else RemoveAll(m, keys[..|keys| - 1]) - {keys[|keys| - 1]}
  }

  function PutAll(m: Catalog, rows: seq<Row>): Catalog {
    if rows == [] then m else PutAll(m, rows[..|rows| - 1])[rows[|rows| - 1].key := rows[|rows| - 1]]
  }

  function DeltaMerge(m: Catalog, deletes: seq<Key>, upserts: seq<Row>): Catalog {
    PutAll(RemoveAll(m, deletes), upserts)
  }

  datatype Snapshot = Snapshot(sessions: Catalog, cursor: int)

  /** Deletes first, upserts second. */
  method MergeSessionCatalogDelta(current: Snapshot, delta: Delta) returns (merged: Snapshot)
    ensures merged == Snapshot(DeltaMerge(current.sessions, delta.deletes, delta.upserts), delta.nextCursor)
  {
    var byKey := current.sessions;
    for i := 0 to |delta.deletes|
      invariant byKey == RemoveAll(current.sessions, delta.deletes[..i])
    {
      assert delta.deletes[..i + 1][..i] == delta.deletes[..i];
      byKey := byKey - {delta.deletes[i]};
    }
    assert delta.deletes[..|delta.deletes|] == delta.deletes;
    ghost var kept := byKey;
    for i := 0 to |delta.upserts|
      invariant byKey == PutAll(kept, delta.upserts[..i])
    {
      assert delta.upserts[..i + 1][..i] == delta.upserts[..i];
      byKey := byKey[delta.upserts[i].key := delta.upserts[i]];
    }
    assert delta.upserts[..|delta.upserts|] == delta.upserts;
    merged := Snapshot(byKey, delta.nextCursor);
  }

  function ApplyDelta(m: Catalog, page: seq<Change>): Catalog { DeltaMerge(m, DeletesOf(page), UpsertsOf(page)) }

  /** The position of the last upsert of key k, or -1. */
  function LastUpsert(page: seq<Change>, k: Key): (i: int)
    ensures -1 <= i < |page|
    ensures i >= 0 ==> page[i].key == k && page[i].op.Upsert?
    ensures forall j | i < j < |page| :: !(page[j].key == k && page[j].op.Upsert?)
  {
    if page == [] then -1
    else if page[|page| - 1].key == k && page[|page| - 1].op.Upsert? then |page| - 1
    else LastUpsert(page[..|page| - 1], k)
  }

  lemma {:induction false} RemovedAt(m: Catalog, page: seq<Change>, k: Key)
    ensures Get(RemoveAll(m, DeletesOf(page)), k) ==
            if exists i :: 0 <= i < |page| && page[i].key == k && page[i].op.Delete? then None else Get(m, k)
  {
    if page == [] {
    } else {
      var front := page[..|page| - 1];
      RemovedAt(m, front, k);
      assert forall i | 0 <= i < |front| :: front[i] == page[i];
      assert DeletesOf(page) == DeletesOf(front) || DeletesOf(page)[..|DeletesOf(page)| - 1] == DeletesOf(front);
    }
  }

  lemma {:induction false} PutAt(m: Catalog, page: seq<Change>, k: Key)
    requires KeysMatch(page)
    ensures Get(PutAll(m, UpsertsOf(page)), k) ==
            if LastUpsert(page, k) >= 0 then Some(page[LastUpsert(page, k)].op.row) else Get(m, k)
  {
    if page == [] {
    } else {
      var front := page[..|page| - 1];
      PutAt(m, front, k);
      assert UpsertsOf(page) == UpsertsOf(front) || UpsertsOf(page)[..|UpsertsOf(page)| - 1] == UpsertsOf(front);
    }
  }

  /** A key whose last change in the page is a delete, although the page upserts it before. */
  predicate LateDelete(page: seq<Change>, k: Key) {
    LastOf(page, k) >= 0 && page[LastOf(page, k)].op.Delete? && LastUpsert(page, k) >= 0
  }

  /** Key by key, the merge is the replay, except for a late delete: there the row comes back. */
  lemma DeltaAt(m: Catalog, page: seq<Change>, k: Key)
    requires KeysMatch(page)
    ensures Get(ApplyDelta(m, page), k) ==
            if LateDelete(page, k) then Some(page[LastUpsert(page, k)].op.row) else Get(Replay(m, page), k)
  {
    hide RemoveAll, PutAll, DeletesOf, UpsertsOf, Replay;
    RemovedAt(m, page, k);
    PutAt(RemoveAll(m, DeletesOf(page)), page, k);
    ReplayAt(m, page, k);
    var i, j := LastOf(page, k), LastUpsert(page, k);
    if i >= 0 && page[i].op.Upsert? {
      assert j == i;
    }
  }

  /** The merge is the replay of the page exactly when no key's delete follows its upsert in it. */
  lemma DeltaIsReplayIff(m: Catalog, page: seq<Change>)
    requires KeysMatch(page)
    ensures ApplyDelta(m, page) == Replay(m, page) <==> forall k :: !LateDelete(page, k)
  {
    hide Replay, ApplyDelta;
    forall k ensures Get(ApplyDelta(m, page), k) == Get(Replay(m, page), k) <==> !LateDelete(page, k) {
      DeltaAt(m, page, k);
      ReplayAt(m, page, k);
    }
    if forall k :: !LateDelete(page, k) {
      forall k ensures Get(ApplyDelta(m, page), k) == Get(Replay(m, page), k) {
        assert !LateDelete(page, k);
      }
      SameMap(ApplyDelta(m, page), Replay(m, page));
    }
  }
}
