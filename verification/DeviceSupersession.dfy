/** One daemon device takes over from another of the same user: every table keyed by device is
    moved, in memory by scanning and rewriting, in SQL by copying and then deleting. */
module DeviceSupersession {
  import opened Maps

  type Id = string

  /** Every table is keyed by user, daemon device and an item: a session id, a directory, a browser device, or a
      session id with a turn number. */
  datatype Key<I> = Key(user: Id, device: Id, item: I)
  datatype TurnId = TurnId(session: Id, number: int)
  datatype Row<B> = Row(body: B, updatedAt: int)
  type Table<I(==), B> = map<Key<I>, Row<B>>

  datatype Session = Session(computer: Option<Id>, details: string)
  datatype Pref = Pref(pinned: bool, archived: bool, title: Option<string>)
  datatype Binding = Binding(active: bool)
  datatype Event = Event(key: Key<Id>, details: string)
  datatype Device = Device(user: Id, computer: Option<Id>, supersededBy: Option<Id>, status: string, updatedAt: int)

  datatype Tables = Tables(devices: map<Id, Device>, sessions: Table<Id, Session>, turns: Table<TurnId, string>,
                           prefs: Table<Id, Pref>, hints: Table<Id, int>, projectPrefs: Table<Id, Pref>,
                           events: seq<Event>, bindings: Table<Id, Binding>)

  /** The request: whose device to retire, the device that replaces it, and when. */
  datatype Move = Move(user: Id, from: Id, to: Id, at: int)

  predicate Leaving<I>(mv: Move, k: Key<I>) { k.user == mv.user && k.device == mv.from }

  predicate AtTarget<I>(mv: Move, k: Key<I>) { k.user == mv.user && k.device == mv.to }

  function There<I>(mv: Move, k: Key<I>): Key<I> { k.(device := mv.to) }

  function Back<I>(mv: Move, k: Key<I>): Key<I> { k.(device := mv.from) }

  predicate OwnedBy(devices: map<Id, Device>, id: Id, user: Id) { id in devices && devices[id].user == user }

  predicate Eligible(devices: map<Id, Device>, mv: Move) {
    mv.from in devices && devices[mv.from].user == mv.user && mv.to in devices && devices[mv.to].user == mv.user
  }

  function Retired(d: Device, mv: Move): Device {
    d.(supersededBy := Some(mv.to), status := "offline", updatedAt := mv.at)
  }

  // ---- Moving one table

  /** What lands at a place of the new device, given what is there and the old device's row. */
  type Landing<!B> = (Option<Row<B>>, B) -> Row<B>

  function IfFree<B>(at: int): Landing<B> {
    (there: Option<Row<B>>, b: B) => if there.Some? then there.value else Row(b, at)
  }

  /** A session lands if it is not there, on the new device's computer where that is known. */
  function Adopting(computer: Option<Id>, at: int): Landing<Session> {
    (there: Option<Row<Session>>, s: Session) =>
      if there.Some? then there.value else Row(if computer.Some? then s.(computer := computer) else s, at)
  }

  function Overwriting<B>(at: int): Landing<B> { (there: Option<Row<B>>, b: B) => Row(b, at) }

  /** The SQL preference row: an unset title does not clear the one that is there. */
  function Merging(at: int): Landing<Pref> {
    (there: Option<Row<Pref>>, p: Pref) =>
      Row(if there.Some? && p.title.None? then p.(title := there.value.body.title) else p, at)
  }

  /** What key k holds once the old device's rows of the items that go have been copied to the new device. */
  ghost function CopiedAt<I, B>(m: Table<I, B>, goes: I -> bool, mv: Move, land: Landing<B>,
                                k: Key<I>): Option<Row<B>> {
    if AtTarget(mv, k) && goes(k.item) && Back(mv, k) in m
    then Some(land(Get(m, k), m[Back(mv, k)].body))
    else Get(m, k)
  }

  ghost function MovedAt<I, B>(m: Table<I, B>, goes: I -> bool, mv: Move, land: Landing<B>, k: Key<I>): Option<Row<B>> {
    if Leaving(mv, k) then None else CopiedAt(m, goes, mv, land, k)
  }

  ghost predicate IsCopied<I(!new), B>(m: Table<I, B>, goes: I -> bool, mv: Move, land: Landing<B>, r: Table<I, B>) {
    forall k :: Get(r, k) == CopiedAt(m, goes, mv, land, k)
  }

  ghost predicate IsMoved<I(!new), B>(m: Table<I, B>, goes: I -> bool, mv: Move, land: Landing<B>, r: Table<I, B>) {
    forall k :: Get(r, k) == MovedAt(m, goes, mv, land, k)
  }

  function Among(ids: set<Id>): Id -> bool { id => id in ids }

  function OfSessions(ids: set<Id>): TurnId -> bool { (t: TurnId) => t.session in ids }

  function Every<I>(): I -> bool { i => true }

  function Nobody<I>(): I -> bool { i => false }

  /** The scan half way: rows still to be visited are as they were, visited ones of the old device are dropped if so
      asked and have landed if they go. */
  ghost function ScannedAt<I, B>(m: Table<I, B>, rest: set<Key<I>>, drop: bool, goes: I -> bool, mv: Move,
                                 land: Landing<B>, k: Key<I>): Option<Row<B>>
  {
    if drop && Leaving(mv, k) && k !in rest then None
    else if AtTarget(mv, k) && goes(k.item) && Back(mv, k) in m && Back(mv, k) !in rest
    then Some(land(Get(m, k), m[Back(mv, k)].body))
    else Get(m, k)
  }

  ghost predicate IsScanned<I(!new), B>(m: Table<I, B>, rest: set<Key<I>>, drop: bool, goes: I -> bool, mv: Move,
                                        land: Landing<B>, r: Table<I, B>) {
    forall k :: Get(r, k) == ScannedAt(m, rest, drop, goes, mv, land, k)
  }

  lemma ScanStart<I(!new), B>(m: Table<I, B>, rest: set<Key<I>>, drop: bool, goes: I -> bool, mv: Move,
                    land: Landing<B>)
    requires rest == m.Keys
    ensures IsScanned(m, rest, drop, goes, mv, land, m)
  {
  }

  lemma ScanStep<I(!new), B>(m: Table<I, B>, rest: set<Key<I>>, drop: bool, goes: I -> bool, mv: Move, land: Landing<B>,
                             r: Table<I, B>, k: Key<I>, r': Table<I, B>)
    requires mv.from != mv.to && rest <= m.Keys && k in rest && IsScanned(m, rest, drop, goes, mv, land, r)
    requires var left := if drop && Leaving(mv, k) then r - {k} else r;
             r' == if Leaving(mv, k) && goes(k.item) then left[There(mv, k) := land(Get(r, There(mv, k)), m[k].body)]
                   else left
    ensures IsScanned(m, rest - {k}, drop, goes, mv, land, r')
  {
    assert Get(r, There(mv, k)) == ScannedAt(m, rest, drop, goes, mv, land, There(mv, k));
    assert Back(mv, There(mv, k)) == Back(mv, k);
    forall h ensures Get(r', h) == ScannedAt(m, rest - {k}, drop, goes, mv, land, h) {
      assert Get(r, h) == ScannedAt(m, rest, drop, goes, mv, land, h);
      assert AtTarget(mv, h) && Back(mv, h) == k ==> h == There(mv, k);
    }
  }

  lemma ScanDone<I(!new), B>(m: Table<I, B>, rest: set<Key<I>>, drop: bool, goes: I -> bool, mv: Move, land: Landing<B>,
                             r: Table<I, B>)
    requires rest == {} && IsScanned(m, rest, drop, goes, mv, land, r)
    ensures drop ==> IsMoved(m, goes, mv, land, r)
    ensures !drop ==> IsCopied(m, goes, mv, land, r)
  {
    if drop {
      forall k ensures Get(r, k) == MovedAt(m, goes, mv, land, k) {
        assert Get(r, k) == ScannedAt(m, rest, drop, goes, mv, land, k);
      }
    } else {
      forall k ensures Get(r, k) == CopiedAt(m, goes, mv, land, k) {
        assert Get(r, k) == ScannedAt(m, rest, drop, goes, mv, land, k);
      }
    }
  }

  /** When a device is to replace itself: its rows have been taken out, and those that go put back with a new time. */
  ghost function RestampedAt<I, B>(m: Table<I, B>, rest: set<Key<I>>, goes: I -> bool, mv: Move,
                                   k: Key<I>): Option<Row<B>> {
    if Leaving(mv, k) && k !in rest && k in m then if goes(k.item) then Some(Row(m[k].body, mv.at)) else None
    else Get(m, k)
  }

  ghost predicate IsRestamped<I(!new), B>(m: Table<I, B>, rest: set<Key<I>>, goes: I -> bool, mv: Move,
                                            r: Table<I, B>) {
    forall k :: Get(r, k) == RestampedAt(m, rest, goes, mv, k)
  }

  lemma RestampStart<I(!new), B>(m: Table<I, B>, rest: set<Key<I>>, goes: I -> bool, mv: Move)
    requires rest == m.Keys
    ensures IsRestamped(m, rest, goes, mv, m)
  {
  }

  lemma RestampStep<I(!new), B>(m: Table<I, B>, rest: set<Key<I>>, goes: I -> bool, mv: Move, r: Table<I, B>,
                                k: Key<I>, r': Table<I, B>)
    requires k in rest && k in m && IsRestamped(m, rest, goes, mv, r)
    requires r' == if !Leaving(mv, k) then r else if goes(k.item) then r[k := Row(m[k].body, mv.at)] else r - {k}
    ensures IsRestamped(m, rest - {k}, goes, mv, r')
  {
    forall h ensures Get(r', h) == RestampedAt(m, rest - {k}, goes, mv, h) {
      assert Get(r, h) == RestampedAt(m, rest, goes, mv, h);
    }
  }

  /** The in-memory scan over the entries of one table. */
  method MoveRows<I(==, !new), B>(m: Table<I, B>, goes: I -> bool, mv: Move) returns (r: Table<I, B>)
    ensures mv.from != mv.to ==> IsMoved(m, goes, mv, IfFree(mv.at), r)
    ensures mv.from == mv.to ==> IsRestamped(m, {}, goes, mv, r)
  {
    hide IsScanned, IsMoved, IsRestamped;
    r := m;
    var rest := m.Keys;
    ScanStart(m, rest, true, goes, mv, IfFree(mv.at));
    RestampStart(m, rest, goes, mv);
    while rest != {}
      invariant rest <= m.Keys
      invariant mv.from != mv.to ==> IsScanned(m, rest, true, goes, mv, IfFree(mv.at), r)
      invariant mv.from == mv.to ==> IsRestamped(m, rest, goes, mv, r)
      decreases |rest|
    {
      var k :| k in rest;
      ghost var was := r;
      if Leaving(mv, k) {
        r := r - {k};
        if goes(k.item) && There(mv, k) !in r {
          r := r[There(mv, k) := Row(m[k].body, mv.at)];
        }
      }
      if mv.from != mv.to {
        assert Leaving(mv, k) ==> There(mv, k) != k;
        assert Leaving(mv, k) && goes(k.item) && There(mv, k) in was ==> r == r[There(mv, k) := was[There(mv, k)]];
        ScanStep(m, rest, true, goes, mv, IfFree(mv.at), was, k, r);
      } else {
        assert Leaving(mv, k) ==>
          There(mv, k) == k && (was - {k})[k := Row(m[k].body, mv.at)] == was[k := Row(m[k].body, mv.at)];
        RestampStep(m, rest, goes, mv, was, k, r);
      }
      rest := rest - {k};
    }
    if mv.from != mv.to {
      ScanDone(m, rest, true, goes, mv, IfFree(mv.at), r);
    }
  }

  /** The SQL loop of upserts: nothing is dropped yet. */
  method UpsertRows<I(==, !new), B>(m: Table<I, B>, goes: I -> bool, mv: Move, land: Landing<B>)
    returns (r: Table<I, B>)
    requires mv.from != mv.to
    ensures IsCopied(m, goes, mv, land, r)
  {
    hide IsScanned, IsCopied, IsMoved;
    r := m;
    var rest := m.Keys;
    ScanStart(m, rest, false, goes, mv, land);
    while rest != {}
      invariant rest <= m.Keys && IsScanned(m, rest, false, goes, mv, land, r)
      decreases |rest|
    {
      var k :| k in rest;
      ghost var was := r;
      if Leaving(mv, k) && goes(k.item) {
        r := r[There(mv, k) := land(Get(r, There(mv, k)), m[k].body)];
      }
      ScanStep(m, rest, false, goes, mv, land, was, k, r);
      rest := rest - {k};
    }
    ScanDone(m, rest, false, goes, mv, land, r);
  }

  function DeleteLeaving<I(==), B>(m: Table<I, B>, mv: Move): Table<I, B> {
    map k | k in m && !Leaving(mv, k) :: m[k]
  }

  /** Copying and then deleting is moving. */
  lemma CopyThenDelete<I(!new), B>(m: Table<I, B>, goes: I -> bool, mv: Move, land: Landing<B>, c: Table<I, B>)
    requires mv.from != mv.to && IsCopied(m, goes, mv, land, c)
    ensures IsMoved(m, goes, mv, land, DeleteLeaving(c, mv))
  {
    forall k ensures Get(DeleteLeaving(c, mv), k) == MovedAt(m, goes, mv, land, k) {
      assert Get(c, k) == CopiedAt(m, goes, mv, land, k);
    }
  }

  // ---- The SQL copy of turns, fifty sessions a statement

  const COPY_BATCH: nat := 50

  /** One INSERT ... SELECT ... WHERE NOT EXISTS. */
  function InsertSelect(m: Table<TurnId, string>, sessions: seq<Id>, mv: Move): Table<TurnId, string> {
    var arriving :=
      set k | k in m && Leaving(mv, k) && k.item.session in sessions && There(mv, k) !in m :: There(mv, k);
    map k | k in m.Keys + arriving :: if k in m then m[k] else Row(m[Back(mv, k)].body, mv.at)
  }

  function NonEmpty(ids: seq<Id>): (r: seq<Id>)
    ensures forall id :: id in r <==> id in ids && id != ""
  {
    if ids == [] then []
    else
      assert forall id :: id in ids <==> id == ids[0] || id in ids[1..];
      (if ids[0] == "" then [] else [ids[0]]) + NonEmpty(ids[1..])
  }

  ghost function IdSet(ids: seq<Id>): set<Id> { set id | id in ids }

  lemma InsertStep(m: Table<TurnId, string>, done: set<Id>, batch: seq<Id>, mv: Move, r: Table<TurnId, string>)
    requires mv.from != mv.to && IsCopied(m, OfSessions(done), mv, IfFree(mv.at), r)
    ensures IsCopied(m, OfSessions(done + IdSet(batch)), mv, IfFree(mv.at), InsertSelect(r, batch, mv))
  {
    var r' := InsertSelect(r, batch, mv);
    forall k ensures Get(r', k) == CopiedAt(m, OfSessions(done + IdSet(batch)), mv, IfFree(mv.at), k) {
      assert Get(r, k) == CopiedAt(m, OfSessions(done), mv, IfFree(mv.at), k);
      assert Get(r, Back(mv, k)) == CopiedAt(m, OfSessions(done), mv, IfFree(mv.at), Back(mv, k));
      if AtTarget(mv, k) && Back(mv, k) in r {
        assert There(mv, Back(mv, k)) == k;
      }
    }
  }

  lemma CopiedForNone(m: Table<TurnId, string>, mv: Move, land: Landing<string>)
    ensures IsCopied(m, OfSessions({}), mv, land, m)
  {
  }

  method CopyTurnRowsForSessions(m: Table<TurnId, string>, sessionIDs: seq<Id>, mv: Move)
    returns (r: Table<TurnId, string>)
    requires mv.from != mv.to
    ensures IsCopied(m, OfSessions(IdSet(sessionIDs) - {""}), mv, IfFree(mv.at), r)
  {
    hide IsCopied, InsertSelect;
    var ids := NonEmpty(sessionIDs);
    r := m;
    var i := 0;
    CopiedForNone(m, mv, IfFree(mv.at));
    assert IdSet(ids[..0]) == {};
    while i < |ids|
      invariant 0 <= i <= |ids| && IsCopied(m, OfSessions(IdSet(ids[..i])), mv, IfFree(mv.at), r)
    {
      var next := if i + COPY_BATCH <= |ids| then i + COPY_BATCH else |ids|;
      InsertStep(m, IdSet(ids[..i]), ids[i..next], mv, r);
      assert IdSet(ids[..i]) + IdSet(ids[i..next]) == IdSet(ids[..next]) by {
        assert ids[..next] == ids[..i] + ids[i..next];
      }
      r := InsertSelect(r, ids[i..next], mv);
      i := next;
    }
    assert ids[..i] == ids;
    assert IdSet(ids) == IdSet(sessionIDs) - {""};
  }

  // ---- Events

  function Rekeyed(e: Event, ids: set<Id>, mv: Move): Event {
    if Leaving(mv, e.key) && e.key.item in ids then e.(key := There(mv, e.key)) else e
  }

  /** The in-memory log: an old device's event goes with its session or is dropped. */
  function EventsAfter(events: seq<Event>, ids: set<Id>, mv: Move): seq<Event> {
    if events == [] then []
    else
      var e := events[0];
      (if !Leaving(mv, e.key) then [e] else if e.key.item !in ids then [] else [Rekeyed(e, ids, mv)])
      + EventsAfter(events[1..], ids, mv)
  }

  /** One UPDATE. */
  function UpdateEvents(events: seq<Event>, ids: set<Id>, mv: Move): (r: seq<Event>)
    ensures |r| == |events| && forall i | 0 <= i < |events| :: r[i] == Rekeyed(events[i], ids, mv)
  {
    seq(|events|, i requires 0 <= i < |events| => Rekeyed(events[i], ids, mv))
  }

  function DeleteEvents(events: seq<Event>, mv: Move): seq<Event> {
    if events == [] then []
    else (if Leaving(mv, events[0].key) then [] else [events[0]]) + DeleteEvents(events[1..], mv)
  }

  /** Updating and then deleting leaves the in-memory log, and nothing of the old device. */
  lemma {:induction false} UpdateThenDelete(events: seq<Event>, ids: set<Id>, mv: Move)
    requires mv.from != mv.to
    ensures DeleteEvents(UpdateEvents(events, ids, mv), mv) == EventsAfter(events, ids, mv)
    ensures forall e | e in EventsAfter(events, ids, mv) :: !Leaving(mv, e.key)
  {
    if events == [] {
    } else {
      UpdateThenDelete(events[1..], ids, mv);
      assert UpdateEvents(events, ids, mv)[1..] == UpdateEvents(events[1..], ids, mv);
    }
  }

  method UpdateSessionEvents(events: seq<Event>, ids: seq<Id>, mv: Move) returns (r: seq<Event>)
    requires mv.from != mv.to
    ensures r == UpdateEvents(events, IdSet(ids), mv)
  {
    r := events;
    var i := 0;
    while i < |ids|
      invariant 0 <= i <= |ids| && r == UpdateEvents(events, IdSet(ids[..i]), mv)
    {
      var next := if i + COPY_BATCH <= |ids| then i + COPY_BATCH else |ids|;
      var batch := set id | id in ids[i..next];
      assert IdSet(ids[..i]) + batch == IdSet(ids[..next]) by {
        assert ids[..next] == ids[..i] + ids[i..next];
      }
      r := UpdateEvents(r, batch, mv);
      i := next;
    }
    assert ids[..i] == ids;
  }

  // ---- Catalog changes

  datatype Change = Delete(key: Key<Id>) | Upsert(key: Key<Id>, row: Row<Session>)

  function Apply(m: Table<Id, Session>, c: Change): Table<Id, Session> {
    if c.Delete? then m - {c.key} else m[c.key := c.row]
  }

  function Replay(m: Table<Id, Session>, changes: seq<Change>): Table<Id, Session> {
    if changes == [] then m else Apply(Replay(m, changes[..|changes| - 1]), changes[|changes| - 1])
  }

  lemma {:induction false} ReplayInParts(m: Table<Id, Session>, a: seq<Change>, b: seq<Change>)
    ensures Replay(m, a + b) == Replay(Replay(m, a), b)
  {
    if b == [] {
      assert a + b == a;
    } else {
      ReplayInParts(m, a, b[..|b| - 1]);
      assert (a + b)[..|a + b| - 1] == a + b[..|b| - 1];
    }
  }

  lemma {:induction false} ReplayDeletes(m: Table<Id, Session>, deletes: seq<Change>, k: Key<Id>)
    requires forall c | c in deletes :: c.Delete?
    ensures Get(Replay(m, deletes), k) == if Delete(k) in deletes then None else Get(m, k)
  {
    if deletes == [] {
    } else {
      ReplayDeletes(m, deletes[..|deletes| - 1], k);
      assert deletes == deletes[..|deletes| - 1] + [deletes[|deletes| - 1]];
    }
  }

  predicate HasUpsert(upserts: seq<Change>, k: Key<Id>) { exists i :: 0 <= i < |upserts| && upserts[i].key == k }

  /** Upserts of rows of table r leave r's rows at their keys. */
  lemma {:induction false} ReplayUpserts(m: Table<Id, Session>, upserts: seq<Change>, r: Table<Id, Session>, k: Key<Id>)
    requires forall c | c in upserts :: c.Upsert? && Get(r, c.key) == Some(c.row)
    ensures Get(Replay(m, upserts), k) == if HasUpsert(upserts, k) then Get(r, k) else Get(m, k)
  {
    if upserts == [] {
    } else {
      var last := |upserts| - 1;
      ReplayUpserts(m, upserts[..last], r, k);
      assert upserts[last] in upserts;
      assert HasUpsert(upserts, k) <==> HasUpsert(upserts[..last], k) || upserts[last].key == k by {
        if HasUpsert(upserts[..last], k) {
          var i :| 0 <= i < last && upserts[..last][i].key == k;
          assert upserts[i].key == k;
        }
        if HasUpsert(upserts, k) && upserts[last].key != k {
          var i :| 0 <= i < |upserts| && upserts[i].key == k;
          assert upserts[..last][i].key == k;
        }
      }
    }
  }

  function IdsOf(changes: seq<Change>): set<Id> { set c | c in changes :: c.key.item }

  /** The sessions that change device: those the new device does not have itself. */
  function MovedIds(m: Table<Id, Session>, mv: Move): set<Id> {
    set k | k in m && Leaving(mv, k) && There(mv, k) !in m :: k.item
  }

  /** The deletes and upserts reported for the sessions visited so far. */
  ghost predicate Reported(m: Table<Id, Session>, rest: set<Key<Id>>, computer: Option<Id>, mv: Move,
                           deletes: seq<Change>, upserts: seq<Change>) {
    && (forall c | c in deletes :: c.Delete? && c.key in m && Leaving(mv, c.key))
    && (forall k | k in m && Leaving(mv, k) && k !in rest :: Delete(k) in deletes)
    && (forall c | c in upserts :: c.Upsert? && AtTarget(mv, c.key) && c.key !in m && Back(mv, c.key) in m
                                   && c.row == Adopting(computer, mv.at)(None, m[Back(mv, c.key)].body))
    && (forall k | k in m && Leaving(mv, k) && k !in rest && There(mv, k) !in m :: HasUpsert(upserts, There(mv, k)))
  }

  lemma ReportedStep(m: Table<Id, Session>, rest: set<Key<Id>>, computer: Option<Id>, mv: Move,
                     deletes: seq<Change>, upserts: seq<Change>, k: Key<Id>,
                     deletes': seq<Change>, upserts': seq<Change>)
    requires k in rest && k in m && Reported(m, rest, computer, mv, deletes, upserts)
    requires deletes' == if Leaving(mv, k) then deletes + [Delete(k)] else deletes
    requires upserts' == if Leaving(mv, k) && There(mv, k) !in m
                         then upserts + [Upsert(There(mv, k), Adopting(computer, mv.at)(None, m[k].body))] else upserts
    ensures Reported(m, rest - {k}, computer, mv, deletes', upserts')
  {
    assert Leaving(mv, k) ==> Back(mv, There(mv, k)) == k;
    forall h | h in m && Leaving(mv, h) && h !in rest - {k} && There(mv, h) !in m
      ensures HasUpsert(upserts', There(mv, h))
    {
      if h == k {
        assert upserts'[|upserts|].key == There(mv, k);
      } else {
        var i :| 0 <= i < |upserts| && upserts[i].key == There(mv, h);
        assert upserts'[i].key == There(mv, h);
      }
    }
  }

  lemma ReportStart(m: Table<Id, Session>, rest: set<Key<Id>>, computer: Option<Id>, mv: Move)
    requires rest == m.Keys
    ensures Reported(m, rest, computer, mv, [], [])
  {
  }

  /** All deletes first and then all upserts: replayed on the old catalog they give the new one. */
  lemma ReportReplays(m: Table<Id, Session>, computer: Option<Id>, mv: Move, deletes: seq<Change>, upserts: seq<Change>,
                      r: Table<Id, Session>)
    requires mv.from != mv.to && Reported(m, {}, computer, mv, deletes, upserts)
    requires IsMoved(m, Every(), mv, Adopting(computer, mv.at), r)
    ensures Replay(m, deletes + upserts) == r
    ensures IdsOf(upserts) == MovedIds(m, mv)
  {
    ReplayInParts(m, deletes, upserts);
    forall c | c in upserts ensures Get(r, c.key) == Some(c.row) {
      assert Get(r, c.key) == MovedAt(m, Every(), mv, Adopting(computer, mv.at), c.key);
    }
    forall k ensures Get(Replay(m, deletes + upserts), k) == Get(r, k) {
      assert Get(r, k) == MovedAt(m, Every(), mv, Adopting(computer, mv.at), k);
      ReplayDeletes(m, deletes, k);
      ReplayUpserts(Replay(m, deletes), upserts, r, k);
      if AtTarget(mv, k) && k !in m && Back(mv, k) in m {
        assert There(mv, Back(mv, k)) == k;
      }
    }
    SameMap(Replay(m, deletes + upserts), r);
    forall c | c in upserts ensures c.key.item in MovedIds(m, mv) {
      assert Leaving(mv, Back(mv, c.key)) && There(mv, Back(mv, c.key)) == c.key;
    }
    forall id | id in MovedIds(m, mv) ensures exists c :: c in upserts && c.key.item == id {
      var k :| k in m && Leaving(mv, k) && There(mv, k) !in m && k.item == id;
      var i :| 0 <= i < |upserts| && upserts[i].key == There(mv, k);
      assert upserts[i] in upserts;
    }
  }

  /** The place a session goes to holds, when the scan reaches the session, just what it held at the start. */
  lemma TargetAtStart(m: Table<Id, Session>, rest: set<Key<Id>>, drop: bool, mv: Move, land: Landing<Session>,
                      r: Table<Id, Session>, k: Key<Id>)
    requires mv.from != mv.to && k in rest && IsScanned(m, rest, drop, Every(), mv, land, r)
    ensures Leaving(mv, k) ==> Get(r, There(mv, k)) == Get(m, There(mv, k)) && There(mv, k) != k
  {
    assert Get(r, There(mv, k)) == ScannedAt(m, rest, drop, Every(), mv, land, There(mv, k));
    assert Leaving(mv, k) ==> Back(mv, There(mv, k)) == k;
  }

  /** A device that replaces itself: every session is reported deleted, and none upserted. */
  lemma SelfReportReplays(m: Table<Id, Session>, computer: Option<Id>, mv: Move,
                          deletes: seq<Change>, upserts: seq<Change>, r: Table<Id, Session>)
    requires mv.from == mv.to && Reported(m, {}, computer, mv, deletes, upserts)
    requires IsRestamped(m, {}, Nobody(), mv, r)
    ensures Replay(m, deletes + upserts) == r
    ensures IdsOf(upserts) == MovedIds(m, mv) == {}
  {
    if upserts != [] {
      NoUpsertHome(m, mv, upserts[0]);
    }
    assert deletes + upserts == deletes;
    forall k ensures Get(Replay(m, deletes), k) == Get(r, k) {
      ReplayDeletes(m, deletes, k);
      assert Get(r, k) == RestampedAt(m, {}, Nobody(), mv, k);
    }
    SameMap(Replay(m, deletes), r);
  }

  lemma NoUpsertHome(m: Table<Id, Session>, mv: Move, c: Change)
    requires mv.from == mv.to
    ensures !(AtTarget(mv, c.key) && c.key !in m && Back(mv, c.key) in m)
  {
    assert AtTarget(mv, c.key) ==> Back(mv, c.key) == c.key;
  }

  lemma OwnPlaceIsTaken(m: Table<Id, Session>, rest: set<Key<Id>>, mv: Move, r: Table<Id, Session>, k: Key<Id>)
    requires mv.from == mv.to && k in rest && k in m && IsRestamped(m, rest, Nobody(), mv, r)
    ensures Leaving(mv, k) ==> Get(r, There(mv, k)).Some? && There(mv, k) in m
  {
    assert Get(r, k) == RestampedAt(m, rest, Nobody(), mv, k);
    assert Leaving(mv, k) ==> There(mv, k) == k;
  }

  /** The in-memory pass over the sessions. */
  method MoveSessions(m: Table<Id, Session>, computer: Option<Id>, mv: Move)
    returns (r: Table<Id, Session>, deletes: seq<Change>, upserts: seq<Change>)
    ensures mv.from != mv.to ==> IsMoved(m, Every(), mv, Adopting(computer, mv.at), r)
    ensures mv.from == mv.to ==> IsRestamped(m, {}, Nobody(), mv, r)
    ensures Replay(m, deletes + upserts) == r
    ensures IdsOf(upserts) == MovedIds(m, mv)
  {
    hide IsScanned, IsMoved, IsRestamped, Reported, MovedIds, Replay, IdsOf, Every, Nobody;
    r, deletes, upserts := m, [], [];
    var rest := m.Keys;
    ScanStart(m, rest, true, Every(), mv, Adopting(computer, mv.at));
    RestampStart(m, rest, Nobody(), mv);
    ReportStart(m, rest, computer, mv);
    while rest != {}
      invariant rest <= m.Keys
      invariant mv.from != mv.to ==> IsScanned(m, rest, true, Every(), mv, Adopting(computer, mv.at), r)
      invariant mv.from == mv.to ==> IsRestamped(m, rest, Nobody(), mv, r)
      invariant Reported(m, rest, computer, mv, deletes, upserts)
      decreases |rest|
    {
      var k :| k in rest;
      ghost var was, deleted, upserted := r, deletes, upserts;
      if mv.from != mv.to {
        TargetAtStart(m, rest, true, mv, Adopting(computer, mv.at), r, k);
      } else {
        OwnPlaceIsTaken(m, rest, mv, r, k);
      }
      if Leaving(mv, k) {
        deletes := deletes + [Delete(k)];
        var existingNew := Get(r, There(mv, k));
        r := r - {k};
        if existingNew.None? {
          var moved := Row(if computer.Some? then m[k].body.(computer := computer) else m[k].body, mv.at);
          r := r[There(mv, k) := moved];
          upserts := upserts + [Upsert(There(mv, k), moved)];
        }
      }
      if mv.from != mv.to {
        SessionStep(m, rest, computer, mv, was, k, r);
      } else {
        NobodyGoes<Id>();
        RestampStep(m, rest, Nobody(), mv, was, k, r);
      }
      ReportedStep(m, rest, computer, mv, deleted, upserted, k, deletes, upserts);
      rest := rest - {k};
    }
    if mv.from != mv.to {
      ScanDone(m, rest, true, Every(), mv, Adopting(computer, mv.at), r);
      ReportReplays(m, computer, mv, deletes, upserts, r);
    } else {
      SelfReportReplays(m, computer, mv, deletes, upserts, r);
    }
  }

  lemma NobodyGoes<I>()
    ensures forall i: I :: !Nobody<I>()(i)
  {
  }

  lemma SessionStep(m: Table<Id, Session>, rest: set<Key<Id>>, computer: Option<Id>, mv: Move, r: Table<Id, Session>,
                    k: Key<Id>, r': Table<Id, Session>)
    requires mv.from != mv.to && rest <= m.Keys && k in rest
    requires IsScanned(m, rest, true, Every(), mv, Adopting(computer, mv.at), r)
    requires r' == if !Leaving(mv, k) then r
                   else if There(mv, k) in r then r - {k}
                   else (r - {k})[There(mv, k) := Adopting(computer, mv.at)(None, m[k].body)]
    ensures IsScanned(m, rest - {k}, true, Every(), mv, Adopting(computer, mv.at), r')
  {
    hide IsScanned;
    assert Leaving(mv, k) && There(mv, k) in r ==> r' == r'[There(mv, k) := r[There(mv, k)]];
    ScanStep(m, rest, true, Every(), mv, Adopting(computer, mv.at), r, k, r');
  }

  /** The SQL pass over the sessions: the ids of the new device are listed first, the copies are upserted. */
  method CopySessions(m: Table<Id, Session>, computer: Option<Id>, mv: Move)
    returns (r: Table<Id, Session>, deletes: seq<Change>, upserts: seq<Change>)
    requires mv.from != mv.to
    ensures IsCopied(m, Every(), mv, Adopting(computer, mv.at), r)
    ensures Reported(m, {}, computer, mv, deletes, upserts)
  {
    hide IsScanned, IsMoved, IsCopied, Reported, MovedIds, Replay;
    r, deletes, upserts := m, [], [];
    var rest := m.Keys;
    var newSessionIDs := set k | k in m && AtTarget(mv, k) :: k.item;
    ScanStart(m, rest, false, Every(), mv, Adopting(computer, mv.at));
    ReportStart(m, rest, computer, mv);
    while rest != {}
      invariant rest <= m.Keys
      invariant IsScanned(m, rest, false, Every(), mv, Adopting(computer, mv.at), r)
      invariant Reported(m, rest, computer, mv, deletes, upserts)
      decreases |rest|
    {
      var k :| k in rest;
      ghost var was, deleted, upserted := r, deletes, upserts;
      TargetAtStart(m, rest, false, mv, Adopting(computer, mv.at), r, k);
      if Leaving(mv, k) {
        deletes := deletes + [Delete(k)];
        assert k.item in newSessionIDs <==> There(mv, k) in m;
        if k.item !in newSessionIDs {
          var moved := Row(if computer.Some? then m[k].body.(computer := computer) else m[k].body, mv.at);
          r := r[There(mv, k) := moved];
          upserts := upserts + [Upsert(There(mv, k), moved)];
        } else {
          assert r == r[There(mv, k) := was[There(mv, k)]];
        }
      }
      ScanStep(m, rest, false, Every(), mv, Adopting(computer, mv.at), was, k, r);
      ReportedStep(m, rest, computer, mv, deleted, upserted, k, deletes, upserts);
      rest := rest - {k};
    }
    ScanDone(m, rest, false, Every(), mv, Adopting(computer, mv.at), r);
  }

  // ---- The whole operation, twice

  function DevicesAfter(devices: map<Id, Device>, mv: Move): map<Id, Device>
    requires Eligible(devices, mv)
  {
    devices[mv.from := Retired(devices[mv.from], mv)]
  }

  /** What the in-memory store holds afterwards. */
  ghost predicate Superseded(t: Tables, mv: Move, r: Tables) {
    var ids := MovedIds(t.sessions, mv);
    && Eligible(t.devices, mv)
    && r.devices == DevicesAfter(t.devices, mv)
    && IsMoved(t.sessions, Every(), mv, Adopting(t.devices[mv.to].computer, mv.at), r.sessions)
    && IsMoved(t.turns, OfSessions(ids), mv, IfFree(mv.at), r.turns)
    && IsMoved(t.prefs, Among(ids), mv, IfFree(mv.at), r.prefs)
    && IsMoved(t.hints, Among(ids), mv, IfFree(mv.at), r.hints)
    && IsMoved(t.projectPrefs, Every(), mv, IfFree(mv.at), r.projectPrefs)
    && r.events == EventsAfter(t.events, ids, mv)
    && IsMoved(t.bindings, Every(), mv, IfFree(mv.at), r.bindings)
  }

  lemma SupersededInParts(t: Tables, mv: Move, ids: set<Id>, r: Tables)
    requires ids == MovedIds(t.sessions, mv) && Eligible(t.devices, mv) && r.devices == DevicesAfter(t.devices, mv)
    requires IsMoved(t.sessions, Every(), mv, Adopting(t.devices[mv.to].computer, mv.at), r.sessions)
    requires IsMoved(t.turns, OfSessions(ids), mv, IfFree(mv.at), r.turns)
    requires IsMoved(t.prefs, Among(ids), mv, IfFree(mv.at), r.prefs)
    requires IsMoved(t.hints, Among(ids), mv, IfFree(mv.at), r.hints)
    requires IsMoved(t.projectPrefs, Every(), mv, IfFree(mv.at), r.projectPrefs)
    requires r.events == EventsAfter(t.events, ids, mv)
    requires IsMoved(t.bindings, Every(), mv, IfFree(mv.at), r.bindings)
    ensures Superseded(t, mv, r)
  {
  }

  /** What is left where a device replaces itself: no session, turn, preference, hint or event of it; its project
      preferences and bindings stay with a new time. */
  ghost predicate SelfSuperseded(t: Tables, mv: Move, r: Tables) {
    && Eligible(t.devices, mv)
    && r.devices == DevicesAfter(t.devices, mv)
    && r.sessions == DeleteLeaving(t.sessions, mv) && r.turns == DeleteLeaving(t.turns, mv)
    && r.prefs == DeleteLeaving(t.prefs, mv) && r.hints == DeleteLeaving(t.hints, mv)
    && IsRestamped(t.projectPrefs, {}, Every(), mv, r.projectPrefs)
    && r.events == EventsAfter(t.events, {}, mv)
    && IsRestamped(t.bindings, {}, Every(), mv, r.bindings)
  }

  lemma RestampNone<I(!new), B>(m: Table<I, B>, goes: I -> bool, mv: Move, r: Table<I, B>)
    requires IsRestamped(m, {}, goes, mv, r) && forall i :: !goes(i)
    ensures r == DeleteLeaving(m, mv)
  {
    forall k ensures Get(r, k) == Get(DeleteLeaving(m, mv), k) {
      assert Get(r, k) == RestampedAt(m, {}, goes, mv, k);
    }
    SameMap(r, DeleteLeaving(m, mv));
  }

  lemma SelfSupersededInParts(t: Tables, mv: Move, ids: set<Id>, r: Tables)
    requires ids == {} && Eligible(t.devices, mv) && r.devices == DevicesAfter(t.devices, mv)
    requires IsRestamped(t.sessions, {}, Nobody(), mv, r.sessions)
    requires IsRestamped(t.turns, {}, OfSessions(ids), mv, r.turns)
    requires IsRestamped(t.prefs, {}, Among(ids), mv, r.prefs)
    requires IsRestamped(t.hints, {}, Among(ids), mv, r.hints)
    requires IsRestamped(t.projectPrefs, {}, Every(), mv, r.projectPrefs)
    requires r.events == EventsAfter(t.events, ids, mv)
    requires IsRestamped(t.bindings, {}, Every(), mv, r.bindings)
    ensures SelfSuperseded(t, mv, r)
  {
    hide IsRestamped, DeleteLeaving, EventsAfter;
    RestampNone(t.sessions, Nobody(), mv, r.sessions);
    RestampNone(t.turns, OfSessions(ids), mv, r.turns);
    RestampNone(t.prefs, Among(ids), mv, r.prefs);
    RestampNone(t.hints, Among(ids), mv, r.hints);
  }

  /** Nothing moves to where it is. */
  lemma NoneMovesHome(m: Table<Id, Session>, mv: Move)
    requires mv.from == mv.to
    ensures MovedIds(m, mv) == {}
  {
    assert forall k: Key<Id> | Leaving(mv, k) :: There(mv, k) == k;
  }

  class InMemoryNexusStore {
    var devices: map<Id, Device>
    var sessions: Table<Id, Session>
    var turns: Table<TurnId, string>
    var sessionPrefs: Table<Id, Pref>
    var sessionOpenHints: Table<Id, int>
    var projectPrefs: Table<Id, Pref>
    var sessionEvents: seq<Event>
    var deviceBindings: Table<Id, Binding>

    constructor Of(t: Tables)
      ensures Contents() == t
    {
      devices, sessions, turns, sessionPrefs := t.devices, t.sessions, t.turns, t.prefs;
      sessionOpenHints, projectPrefs, sessionEvents, deviceBindings := t.hints, t.projectPrefs, t.events, t.bindings;
    }

    function Contents(): Tables
      reads this
    {
      Tables(devices, sessions, turns, sessionPrefs, sessionOpenHints, projectPrefs, sessionEvents, deviceBindings)
    }

    method SupersedeDaemonDevice(mv: Move) returns (superseded: bool, deletes: seq<Change>, upserts: seq<Change>)
      modifies this
      ensures superseded <==> OwnedBy(old(devices), mv.from, mv.user) && OwnedBy(old(devices), mv.to, mv.user)
      ensures !superseded ==> Contents() == old(Contents()) && deletes == [] && upserts == []
      ensures superseded && mv.from != mv.to ==> Superseded(old(Contents()), mv, Contents())
      ensures superseded && mv.from == mv.to ==> SelfSuperseded(old(Contents()), mv, Contents())
      ensures Replay(old(sessions), deletes + upserts) == sessions
    {
      hide IsMoved, IsRestamped, MovedIds, EventsAfter, Replay, Superseded, SelfSuperseded, IdsOf, Every, Nobody, Among,
           OfSessions, IfFree, Adopting, DeleteLeaving;
      ReplayNothing(sessions);
      ghost var t := Contents();
      if !Eligible(devices, mv) {
        ghost var none: seq<Change> := [];
        assert none + none == none;
        return false, [], [];
      }
      superseded := true;
      devices := devices[mv.from := Retired(devices[mv.from], mv)];
      sessions, deletes, upserts := MoveSessions(sessions, devices[mv.to].computer, mv);
      var movedSessionIDs := IdsOf(upserts);
      MoveSessionRows(movedSessionIDs, mv);
      MoveDeviceRows(mv);
      if mv.from != mv.to {
        SupersededInParts(t, mv, movedSessionIDs, Contents());
      } else {
        NoneMovesHome(t.sessions, mv);
        SelfSupersededInParts(t, mv, movedSessionIDs, Contents());
      }
    }

    /** The tables keyed by session. */
    method MoveSessionRows(movedSessionIDs: set<Id>, mv: Move)
      modifies this`turns, this`sessionPrefs, this`sessionOpenHints, this`sessionEvents
      ensures mv.from != mv.to ==>
                && IsMoved(old(turns), OfSessions(movedSessionIDs), mv, IfFree(mv.at), turns)
                && IsMoved(old(sessionPrefs), Among(movedSessionIDs), mv, IfFree(mv.at), sessionPrefs)
                && IsMoved(old(sessionOpenHints), Among(movedSessionIDs), mv, IfFree(mv.at), sessionOpenHints)
      ensures mv.from == mv.to ==>
                && IsRestamped(old(turns), {}, OfSessions(movedSessionIDs), mv, turns)
                && IsRestamped(old(sessionPrefs), {}, Among(movedSessionIDs), mv, sessionPrefs)
                && IsRestamped(old(sessionOpenHints), {}, Among(movedSessionIDs), mv, sessionOpenHints)
      ensures sessionEvents == EventsAfter(old(sessionEvents), movedSessionIDs, mv)
    {
      hide IsMoved, IsRestamped, EventsAfter;
      turns := MoveRows(turns, OfSessions(movedSessionIDs), mv);
      sessionPrefs := MoveRows(sessionPrefs, Among(movedSessionIDs), mv);
      sessionOpenHints := MoveRows(sessionOpenHints, Among(movedSessionIDs), mv);
      sessionEvents := EventsAfter(sessionEvents, movedSessionIDs, mv);
    }

    /** The tables of the device itself. */
    method MoveDeviceRows(mv: Move)
      modifies this`projectPrefs, this`deviceBindings
      ensures mv.from != mv.to ==>
                && IsMoved(old(projectPrefs), Every(), mv, IfFree(mv.at), projectPrefs)
                && IsMoved(old(deviceBindings), Every(), mv, IfFree(mv.at), deviceBindings)
      ensures mv.from == mv.to ==>
                && IsRestamped(old(projectPrefs), {}, Every(), mv, projectPrefs)
                && IsRestamped(old(deviceBindings), {}, Every(), mv, deviceBindings)
    {
      hide IsMoved, IsRestamped;
      projectPrefs := MoveRows(projectPrefs, Every(), mv);
      deviceBindings := MoveRows(deviceBindings, Every(), mv);
    }

    /** Every other live device with the machine's fingerprint hands over to the current one, one after the other. */
    method SupersedeDaemonDevicesForMachine(user: Id, current: Id, listed: seq<Listed>, at: int)
      returns (changes: seq<Change>)
      requires DistinctIds(listed)
      modifies this
      ensures Replay(old(sessions), changes) == sessions
      ensures SessionIds(sessions, user, current) == Gathered(old(Contents()), user, current, listed)
      ensures forall i | 0 <= i < |listed| :: Takes(old(devices), user, current, listed[i]) ==>
                NothingKeyedTo(Contents(), user, listed[i].id)
      ensures AllHandOver(old(devices), user, current, listed, at, devices)
    {
      hide RunInv, Superseded, MovedIds, Replay;
      changes := [];
      ghost var t0 := Contents();
      RunStart(t0, user, current, listed);
      ReplayNothing(sessions);
      for i := 0 to |listed|
        invariant RunInv(t0, Contents(), user, current, listed, i) && Replay(t0.sessions, changes) == sessions
        invariant AllHandOver(t0.devices, user, current, listed[..i], at, devices)
      {
        var d := listed[i];
        if d.id != current && d.supersededBy.None? && d.status != "revoked" {
          ghost var t := Contents();
          var mv := Move(user, d.id, current, at);
          var superseded, deletes, upserts := SupersedeDaemonDevice(mv);
          ReplayInParts(t0.sessions, changes, deletes + upserts);
          changes := changes + (deletes + upserts);
          HandOverStep(t0, t, user, current, listed, i, at, superseded, Contents());
          RunStep(t0, t, user, current, listed, i, mv, superseded, Contents());
        } else {
          HandOverSkip(t0.devices, user, current, listed, i, at, devices);
          RunSkip(t0, Contents(), user, current, listed, i);
        }
      }
      RunEnd(t0, Contents(), user, current, listed);
      assert listed[..|listed|] == listed;
    }
  }

  /** A row of the listing of the machine's daemon devices. */
  datatype Listed = Listed(id: Id, supersededBy: Option<Id>, status: string)

  ghost predicate DistinctIds(listed: seq<Listed>) {
    forall i, j | 0 <= i < j < |listed| :: listed[i].id != listed[j].id
  }

  predicate Takes(devices: map<Id, Device>, user: Id, current: Id, d: Listed) {
    && d.id != current && d.supersededBy.None? && d.status != "revoked"
    && Eligible(devices, Move(user, d.id, current, 0))
  }

  predicate ActiveAtOld(bindings: Table<Id, Binding>, mv: Move, id: Id) {
    var k := Key(mv.user, mv.from, id);
    k in bindings && bindings[k].body.active
  }

  function Active(bindings: Table<Id, Binding>, mv: Move): Id -> bool { id => ActiveAtOld(bindings, mv, id) }

  /** What the SQL store holds afterwards. */
  ghost predicate SupersededBySql(t: Tables, mv: Move, r: Tables) {
    var ids := MovedIds(t.sessions, mv);
    && Eligible(t.devices, mv)
    && r.devices == DevicesAfter(t.devices, mv)
    && IsMoved(t.sessions, Every(), mv, Adopting(t.devices[mv.to].computer, mv.at), r.sessions)
    && IsMoved(t.turns, OfSessions(ids - {""}), mv, IfFree(mv.at), r.turns)
    && IsMoved(t.prefs, Among(ids), mv, Merging(mv.at), r.prefs)
    && IsMoved(t.hints, Among(ids), mv, Overwriting(mv.at), r.hints)
    && IsMoved(t.projectPrefs, Every(), mv, IfFree(mv.at), r.projectPrefs)
    && r.events == EventsAfter(t.events, ids, mv)
    && IsMoved(t.bindings, Active(t.bindings, mv), mv, Overwriting(mv.at), r.bindings)
  }

  method SupersedeDaemonDeviceSql(t: Tables, mv: Move)
    returns (superseded: bool, r: Tables, deletes: seq<Change>, upserts: seq<Change>)
    ensures superseded <==>
            && mv.user != "" && mv.from != "" && mv.to != "" && mv.from != mv.to
            && OwnedBy(t.devices, mv.from, mv.user) && OwnedBy(t.devices, mv.to, mv.user)
    ensures !superseded ==> r == t && deletes == [] && upserts == []
    ensures superseded ==> SupersededBySql(t, mv, r)
    ensures Replay(t.sessions, deletes + upserts) == r.sessions
  {
    hide IsMoved, IsCopied, MovedIds, EventsAfter, DeleteEvents, UpdateEvents, DeleteLeaving, Reported, IdsOf;
    if mv.user == "" || mv.from == "" || mv.to == "" || mv.from == mv.to || !Eligible(t.devices, mv) {
      return false, t, [], [];
    }
    superseded := true;
    var computer := t.devices[mv.to].computer;
    var sessions;
    sessions, deletes, upserts := CopySessions(t.sessions, computer, mv);
    CopyThenDelete(t.sessions, Every(), mv, Adopting(computer, mv.at), sessions);
    ReportReplays(t.sessions, computer, mv, deletes, upserts, DeleteLeaving(sessions, mv));
    var movedSessionIDs := IdsOf(upserts);
    var ids := seq(|upserts|, i requires 0 <= i < |upserts| => upserts[i].key.item);
    assert IdSet(ids) == movedSessionIDs by { ListedIds(upserts, ids); }
    var turns := CopyTurnRowsForSessions(t.turns, ids, mv);
    CopyThenDelete(t.turns, OfSessions(movedSessionIDs - {""}), mv, IfFree(mv.at), turns);
    var prefs := UpsertRows(t.prefs, Among(movedSessionIDs), mv, Merging(mv.at));
    CopyThenDelete(t.prefs, Among(movedSessionIDs), mv, Merging(mv.at), prefs);
    var hints := UpsertRows(t.hints, Among(movedSessionIDs), mv, Overwriting(mv.at));
    CopyThenDelete(t.hints, Among(movedSessionIDs), mv, Overwriting(mv.at), hints);
    var projectPrefs := UpsertRows(t.projectPrefs, Every(), mv, IfFree(mv.at));
    CopyThenDelete(t.projectPrefs, Every(), mv, IfFree(mv.at), projectPrefs);
    var bindings := UpsertRows(t.bindings, Active(t.bindings, mv), mv, Overwriting(mv.at));
    CopyThenDelete(t.bindings, Active(t.bindings, mv), mv, Overwriting(mv.at), bindings);
    var events := UpdateSessionEvents(t.events, ids, mv);
    UpdateThenDelete(t.events, movedSessionIDs, mv);
    r := Tables(DevicesAfter(t.devices, mv), DeleteLeaving(sessions, mv), DeleteLeaving(turns, mv),
                DeleteLeaving(prefs, mv), DeleteLeaving(hints, mv), DeleteLeaving(projectPrefs, mv),
                DeleteEvents(events, mv), DeleteLeaving(bindings, mv));
  }

  lemma ListedIds(upserts: seq<Change>, ids: seq<Id>)
    requires |ids| == |upserts| && forall i | 0 <= i < |ids| :: ids[i] == upserts[i].key.item
    ensures IdSet(ids) == IdsOf(upserts)
  {
    forall c | c in upserts ensures c.key.item in ids {
      var i :| 0 <= i < |upserts| && upserts[i] == c;
      assert ids[i] == c.key.item;
    }
    forall id | id in ids ensures exists c :: c in upserts && c.key.item == id {
      var i :| 0 <= i < |ids| && ids[i] == id;
      assert upserts[i] in upserts;
    }
  }

  // ---- What the move conserves

  /** The record of the old device names its successor, is offline and has the new time; user and computer stay, and so
      does every other record. */
  ghost predicate HandsOver(before: map<Id, Device>, user: Id, retired: Id, successor: Id, at: int,
                            after: map<Id, Device>) {
    && after.Keys == before.Keys && retired in before && before[retired].user == user
    && after[retired] == Device(user, before[retired].computer, Some(successor), "offline", at)
    && forall id | id in before && id != retired :: after[id] == before[id]
  }

  /** Both stores leave that. */
  lemma OldDeviceIsMarked(t: Tables, mv: Move, r: Tables)
    requires Superseded(t, mv, r) || SelfSuperseded(t, mv, r) || SupersededBySql(t, mv, r)
    ensures HandsOver(t.devices, mv.user, mv.from, mv.to, mv.at, r.devices)
  {
    hide IsMoved, IsRestamped, MovedIds, EventsAfter;
  }

  ghost predicate NoneKeyedTo<I(!new), B>(m: Table<I, B>, user: Id, device: Id) {
    forall k | k in m :: !(k.user == user && k.device == device)
  }

  ghost predicate NothingKeyedTo(t: Tables, user: Id, device: Id) {
    && NoneKeyedTo(t.sessions, user, device) && NoneKeyedTo(t.turns, user, device)
    && NoneKeyedTo(t.prefs, user, device) && NoneKeyedTo(t.hints, user, device)
    && NoneKeyedTo(t.projectPrefs, user, device) && NoneKeyedTo(t.bindings, user, device)
    && forall e | e in t.events :: !(e.key.user == user && e.key.device == device)
  }

  ghost predicate SameElsewhere<I(!new), B>(m: Table<I, B>, mv: Move, r: Table<I, B>) {
    forall k: Key<I> :: !Leaving(mv, k) && !AtTarget(mv, k) ==> Get(r, k) == Get(m, k)
  }

  function SessionIds(m: Table<Id, Session>, user: Id, device: Id): set<Id> {
    set k | k in m && k.user == user && k.device == device :: k.item
  }

  function Payload(turns: Table<TurnId, string>, user: Id, device: Id, session: Id, number: int): Option<string> {
    var k := Key(user, device, TurnId(session, number));
    if k in turns then Some(turns[k].body) else None
  }

  lemma MovedTable<I(!new), B>(m: Table<I, B>, goes: I -> bool, mv: Move, land: Landing<B>, r: Table<I, B>)
    requires mv.from != mv.to && IsMoved(m, goes, mv, land, r)
    ensures NoneKeyedTo(r, mv.user, mv.from) && SameElsewhere(m, mv, r)
  {
    forall k | k in r ensures !Leaving(mv, k) {
      assert Get(r, k) == MovedAt(m, goes, mv, land, k);
    }
  }

  /** No row is left with the old device, and no row of another device or user changed. */
  lemma NothingStaysBehind(t: Tables, mv: Move, r: Tables)
    requires mv.from != mv.to && (Superseded(t, mv, r) || SupersededBySql(t, mv, r))
    ensures NothingKeyedTo(r, mv.user, mv.from)
    ensures SameElsewhere(t.sessions, mv, r.sessions) && SameElsewhere(t.turns, mv, r.turns)
    ensures SameElsewhere(t.prefs, mv, r.prefs) && SameElsewhere(t.hints, mv, r.hints)
    ensures SameElsewhere(t.projectPrefs, mv, r.projectPrefs) && SameElsewhere(t.bindings, mv, r.bindings)
  {
    hide IsMoved, MovedIds, EventsAfter, NoneKeyedTo, SameElsewhere;
    var ids := MovedIds(t.sessions, mv);
    MovedTable(t.sessions, Every(), mv, Adopting(t.devices[mv.to].computer, mv.at), r.sessions);
    MovedTable(t.projectPrefs, Every(), mv, IfFree(mv.at), r.projectPrefs);
    UpdateThenDelete(t.events, ids, mv);
    if Superseded(t, mv, r) {
      MovedTable(t.turns, OfSessions(ids), mv, IfFree(mv.at), r.turns);
      MovedTable(t.prefs, Among(ids), mv, IfFree(mv.at), r.prefs);
      MovedTable(t.hints, Among(ids), mv, IfFree(mv.at), r.hints);
      MovedTable(t.bindings, Every(), mv, IfFree(mv.at), r.bindings);
    } else {
      MovedTable(t.turns, OfSessions(ids - {""}), mv, IfFree(mv.at), r.turns);
      MovedTable(t.prefs, Among(ids), mv, Merging(mv.at), r.prefs);
      MovedTable(t.hints, Among(ids), mv, Overwriting(mv.at), r.hints);
      MovedTable(t.bindings, Active(t.bindings, mv), mv, Overwriting(mv.at), r.bindings);
    }
  }

  /** The new device has the union of the sessions, its own rows as they were, the others with their details. */
  lemma SessionsAreUnited(m: Table<Id, Session>, computer: Option<Id>, mv: Move, r: Table<Id, Session>)
    requires mv.from != mv.to && IsMoved(m, Every(), mv, Adopting(computer, mv.at), r)
    ensures SessionIds(r, mv.user, mv.to) == SessionIds(m, mv.user, mv.to) + SessionIds(m, mv.user, mv.from)
    ensures forall k | k in m && AtTarget(mv, k) :: k in r && r[k] == m[k]
    ensures forall id | id in MovedIds(m, mv) ::
              var k, k' := Key(mv.user, mv.from, id), Key(mv.user, mv.to, id);
              k in m && k' in r && r[k'].body.details == m[k].body.details && r[k'].updatedAt == mv.at
              && r[k'].body.computer == if computer.Some? then computer else m[k].body.computer
  {
    forall k | k in m && AtTarget(mv, k) ensures k in r && r[k] == m[k] {
      assert Get(r, k) == MovedAt(m, Every(), mv, Adopting(computer, mv.at), k);
    }
    forall id | id in MovedIds(m, mv)
      ensures var k, k' := Key(mv.user, mv.from, id), Key(mv.user, mv.to, id);
              k in m && k' in r && Some(r[k']) == Some(Adopting(computer, mv.at)(None, m[k].body))
    {
      var k :| k in m && Leaving(mv, k) && There(mv, k) !in m && k.item == id;
      assert k == Key(mv.user, mv.from, id) && There(mv, k) == Key(mv.user, mv.to, id);
      assert Back(mv, There(mv, k)) == k;
      assert Get(r, There(mv, k)) == MovedAt(m, Every(), mv, Adopting(computer, mv.at), There(mv, k));
    }
    forall id ensures id in SessionIds(r, mv.user, mv.to)
                      <==> id in SessionIds(m, mv.user, mv.to) || id in SessionIds(m, mv.user, mv.from)
    {
      var k := Key(mv.user, mv.to, id);
      assert Back(mv, k) == Key(mv.user, mv.from, id);
      assert Get(r, k) == MovedAt(m, Every(), mv, Adopting(computer, mv.at), k);
    }
  }

  /** A device has no turns of a session it does not have. */
  ghost predicate NoOrphanTurns(t: Tables, user: Id, device: Id) {
    forall k | k in t.turns && k.user == user && k.device == device ::
      k.item.session in SessionIds(t.sessions, user, device)
  }

  /** A moved session has at the new device exactly the turns it had at the old one; a session the new device had
      itself keeps exactly its own. */
  lemma TurnsGoWithTheirSession(t: Tables, mv: Move, r: Tables, id: Id, number: int)
    requires mv.from != mv.to && NoOrphanTurns(t, mv.user, mv.to)
    requires Superseded(t, mv, r) || (SupersededBySql(t, mv, r) && id != "")
    ensures Payload(r.turns, mv.user, mv.to, id, number) ==
            if id in MovedIds(t.sessions, mv) then Payload(t.turns, mv.user, mv.from, id, number)
            else Payload(t.turns, mv.user, mv.to, id, number)
  {
    hide MovedIds, EventsAfter;
    var ids := MovedIds(t.sessions, mv);
    var k := Key(mv.user, mv.to, TurnId(id, number));
    assert Back(mv, k) == Key(mv.user, mv.from, TurnId(id, number));
    if Superseded(t, mv, r) {
      assert Get(r.turns, k) == MovedAt(t.turns, OfSessions(ids), mv, IfFree(mv.at), k);
    } else {
      assert Get(r.turns, k) == MovedAt(t.turns, OfSessions(ids - {""}), mv, IfFree(mv.at), k);
    }
    if id in ids {
      MovedIsNew(t.sessions, mv, id);
    }
  }

  lemma MovedIsNew(m: Table<Id, Session>, mv: Move, id: Id)
    requires id in MovedIds(m, mv)
    ensures id !in SessionIds(m, mv.user, mv.to)
  {
    var k :| k in m && Leaving(mv, k) && There(mv, k) !in m && k.item == id;
    assert There(mv, k) == Key(mv.user, mv.to, id);
  }

  /** The session id of the old device has no row at the new one. */
  ghost predicate Moves(m: Table<Id, Session>, mv: Move, id: Id) {
    Key(mv.user, mv.from, id) in m && Key(mv.user, mv.to, id) !in m
  }

  lemma MovesIffMoved(m: Table<Id, Session>, mv: Move, id: Id)
    ensures Moves(m, mv, id) <==> id in MovedIds(m, mv)
  {
    var k := Key(mv.user, mv.from, id);
    assert There(mv, k) == Key(mv.user, mv.to, id);
    if id in MovedIds(m, mv) {
      var k' :| k' in m && Leaving(mv, k') && There(mv, k') !in m && k'.item == id;
      assert k' == k;
    }
  }

  /** A row of the new device's own stays; in a free place lands the old device's row with the new time. */
  ghost function Kept<I, B>(m: Table<I, B>, mv: Move, item: I, lands: bool): Option<Row<B>> {
    var k, from := Key(mv.user, mv.to, item), Key(mv.user, mv.from, item);
    if k in m then Some(m[k]) else if lands && from in m then Some(Row(m[from].body, mv.at)) else None
  }

  /** In memory, row by row at the new device: every table keeps its own rows, and takes the old device's into free
      places, those that hang on a session only if that session moves. */
  lemma RowsLandInMemory(t: Tables, mv: Move, r: Tables, id: Id, number: int)
    requires mv.from != mv.to && Superseded(t, mv, r)
    ensures Get(r.turns, Key(mv.user, mv.to, TurnId(id, number))) ==
            Kept(t.turns, mv, TurnId(id, number), Moves(t.sessions, mv, id))
    ensures Get(r.prefs, Key(mv.user, mv.to, id)) == Kept(t.prefs, mv, id, Moves(t.sessions, mv, id))
    ensures Get(r.hints, Key(mv.user, mv.to, id)) == Kept(t.hints, mv, id, Moves(t.sessions, mv, id))
    ensures Get(r.projectPrefs, Key(mv.user, mv.to, id)) == Kept(t.projectPrefs, mv, id, true)
    ensures Get(r.bindings, Key(mv.user, mv.to, id)) == Kept(t.bindings, mv, id, true)
  {
    hide EventsAfter, MovedIds, Moves;
    var ids := MovedIds(t.sessions, mv);
    MovesIffMoved(t.sessions, mv, id);
    LandsAt(t.turns, OfSessions(ids), mv, IfFree(mv.at), r.turns, TurnId(id, number));
    LandsAt(t.prefs, Among(ids), mv, IfFree(mv.at), r.prefs, id);
    LandsAt(t.hints, Among(ids), mv, IfFree(mv.at), r.hints, id);
    LandsAt(t.projectPrefs, Every(), mv, IfFree(mv.at), r.projectPrefs, id);
    LandsAt(t.bindings, Every(), mv, IfFree(mv.at), r.bindings, id);
  }

  lemma LandsAt<I(!new), B>(m: Table<I, B>, goes: I -> bool, mv: Move, land: Landing<B>, r: Table<I, B>, item: I)
    requires mv.from != mv.to && IsMoved(m, goes, mv, land, r)
    ensures var k, from := Key(mv.user, mv.to, item), Key(mv.user, mv.from, item);
            Get(r, k) == if goes(item) && from in m then Some(land(Get(m, k), m[from].body)) else Get(m, k)
  {
    var k := Key(mv.user, mv.to, item);
    assert Back(mv, k) == Key(mv.user, mv.from, item);
    assert Get(r, k) == MovedAt(m, goes, mv, land, k);
  }

  /** In SQL hints and active bindings of the old device replace the rows that are there, preferences do so except for
      the title where they have none. */
  lemma RowsLandInSql(t: Tables, mv: Move, r: Tables, id: Id, number: int)
    requires mv.from != mv.to && SupersededBySql(t, mv, r)
    ensures Get(r.turns, Key(mv.user, mv.to, TurnId(id, number))) ==
            Kept(t.turns, mv, TurnId(id, number), Moves(t.sessions, mv, id) && id != "")
    ensures Get(r.projectPrefs, Key(mv.user, mv.to, id)) == Kept(t.projectPrefs, mv, id, true)
    ensures var k, from := Key(mv.user, mv.to, id), Key(mv.user, mv.from, id);
            && Get(r.prefs, k) ==
               (if !Moves(t.sessions, mv, id) || from !in t.prefs then Get(t.prefs, k)
                else
                  var p := t.prefs[from].body;
                  var title := if p.title.Some? || k !in t.prefs then p.title else t.prefs[k].body.title;
                  Some(Row(Pref(p.pinned, p.archived, title), mv.at)))
            && Get(r.hints, k) ==
               (if Moves(t.sessions, mv, id) && from in t.hints then Some(Row(t.hints[from].body, mv.at))
                else Get(t.hints, k))
            && Get(r.bindings, k) ==
               if from in t.bindings && t.bindings[from].body.active then Some(Row(t.bindings[from].body, mv.at))
               else Get(t.bindings, k)
  {
    hide EventsAfter, MovedIds, Moves, IsMoved;
    var ids := MovedIds(t.sessions, mv);
    MovesIffMoved(t.sessions, mv, id);
    LandsAt(t.turns, OfSessions(ids - {""}), mv, IfFree(mv.at), r.turns, TurnId(id, number));
    LandsAt(t.prefs, Among(ids), mv, Merging(mv.at), r.prefs, id);
    LandsAt(t.hints, Among(ids), mv, Overwriting(mv.at), r.hints, id);
    LandsAt(t.projectPrefs, Every(), mv, IfFree(mv.at), r.projectPrefs, id);
    LandsAt(t.bindings, Active(t.bindings, mv), mv, Overwriting(mv.at), r.bindings, id);
  }

  /** The details of the events of the given sessions, in order. */
  function Trace(events: seq<Event>, keys: set<Key<Id>>): seq<string> {
    if events == [] then []
    else (if events[0].key in keys then [events[0].details] else []) + Trace(events[1..], keys)
  }

  /** The events of a moved session keep their order among those that were at either device; those of any session that
      does not move, and is not of the old device, stay as they were. */
  lemma {:induction false} EventsKeepOrder(events: seq<Event>, ids: set<Id>, mv: Move, k: Key<Id>)
    requires mv.from != mv.to && !Leaving(mv, k)
    ensures Trace(EventsAfter(events, ids, mv), {k}) ==
            Trace(events, if AtTarget(mv, k) && k.item in ids then {k, Back(mv, k)} else {k})
  {
    if events == [] {
    } else {
      EventsKeepOrder(events[1..], ids, mv, k);
      var rest := EventsAfter(events[1..], ids, mv);
      assert ([Rekeyed(events[0], ids, mv)] + rest)[1..] == rest;
      assert [] + EventsAfter(events[1..], ids, mv) == EventsAfter(events[1..], ids, mv);
    }
  }

  // ---- Where the two stores agree

  /** What lands for the old device's row k. */
  ghost function LandedFor<I, B>(m: Table<I, B>, goes: I -> bool, mv: Move, land: Landing<B>, k: Key<I>): Option<Row<B>>
    requires k in m
  {
    if goes(k.item) then Some(land(Get(m, There(mv, k)), m[k].body)) else Get(m, There(mv, k))
  }

  lemma MovesAgreeIff<I(!new), B>(m: Table<I, B>, mv: Move, goes: I -> bool, land: Landing<B>, a: Table<I, B>,
                                  goes': I -> bool, land': Landing<B>, b: Table<I, B>)
    requires mv.from != mv.to && IsMoved(m, goes, mv, land, a) && IsMoved(m, goes', mv, land', b)
    ensures a == b <==> forall k | k in m && Leaving(mv, k) ::
                          LandedFor(m, goes, mv, land, k) == LandedFor(m, goes', mv, land', k)
  {
    if a == b {
      forall k | k in m && Leaving(mv, k) ensures LandedFor(m, goes, mv, land, k) == LandedFor(m, goes', mv, land', k) {
        var h := There(mv, k);
        assert Back(mv, h) == k;
        assert Get(a, h) == MovedAt(m, goes, mv, land, h) && Get(b, h) == MovedAt(m, goes', mv, land', h);
      }
    }
    if forall k | k in m && Leaving(mv, k) :: LandedFor(m, goes, mv, land, k) == LandedFor(m, goes', mv, land', k) {
      forall h ensures Get(a, h) == Get(b, h) {
        assert Get(a, h) == MovedAt(m, goes, mv, land, h) && Get(b, h) == MovedAt(m, goes', mv, land', h);
        var k := Back(mv, h);
        if AtTarget(mv, h) && k in m {
          assert There(mv, k) == h && Leaving(mv, k);
          assert LandedFor(m, goes, mv, land, k) == LandedFor(m, goes', mv, land', k);
        }
      }
      SameMap(a, b);
    }
  }

  /** The SQL copy keeps out session ids that are empty strings. */
  predicate NoBlankTurns(t: Tables, mv: Move) {
    "" in MovedIds(t.sessions, mv) ==>
      forall k | k in t.turns && Leaving(mv, k) && k.item.session == "" :: There(mv, k) in t.turns
  }

  /** No moved session has a preference at the new device that the old one's would change. */
  predicate PrefsDoNotMeet(t: Tables, mv: Move) {
    forall k | k in t.prefs && Leaving(mv, k) && k.item in MovedIds(t.sessions, mv) && There(mv, k) in t.prefs ::
      var leaving, there := t.prefs[k].body, t.prefs[There(mv, k)];
      there == Row(if leaving.title.Some? then leaving else leaving.(title := there.body.title), mv.at)
  }

  predicate HintsDoNotMeet(t: Tables, mv: Move) {
    forall k | k in t.hints && Leaving(mv, k) && k.item in MovedIds(t.sessions, mv) && There(mv, k) in t.hints ::
      t.hints[There(mv, k)] == Row(t.hints[k].body, mv.at)
  }

  /** Every binding of the old device is active, or its browser is bound to the new device anyway; and no active one
      meets a different row there. */
  predicate BindingsDoNotMeet(t: Tables, mv: Move) {
    forall k | k in t.bindings && Leaving(mv, k) ::
      if t.bindings[k].body.active
      then There(mv, k) in t.bindings ==> t.bindings[There(mv, k)] == Row(t.bindings[k].body, mv.at)
      else There(mv, k) in t.bindings
  }

  /** The two stores always agree on devices, sessions, project preferences and events; on each other table they agree
      exactly when the rows of the two devices do not get in each other's way. */
  lemma TwinsAgreeIff(t: Tables, mv: Move, a: Tables, b: Tables)
    requires mv.from != mv.to && Superseded(t, mv, a) && SupersededBySql(t, mv, b)
    ensures a.devices == b.devices && a.sessions == b.sessions
    ensures a.projectPrefs == b.projectPrefs && a.events == b.events
    ensures a.turns == b.turns <==> NoBlankTurns(t, mv)
    ensures a.prefs == b.prefs <==> PrefsDoNotMeet(t, mv)
    ensures a.hints == b.hints <==> HintsDoNotMeet(t, mv)
    ensures a.bindings == b.bindings <==> BindingsDoNotMeet(t, mv)
  {
    hide IsMoved, MovedIds, EventsAfter;
    var ids := MovedIds(t.sessions, mv);
    MovesAgreeIff(t.sessions, mv, Every(), Adopting(t.devices[mv.to].computer, mv.at), a.sessions,
                  Every(), Adopting(t.devices[mv.to].computer, mv.at), b.sessions);
    MovesAgreeIff(t.projectPrefs, mv, Every(), IfFree(mv.at), a.projectPrefs, Every(), IfFree(mv.at), b.projectPrefs);
    TurnsAgreeIff(t, mv, a.turns, b.turns);
    PrefsAgreeIff(t, mv, a.prefs, b.prefs);
    HintsAgreeIff(t, mv, a.hints, b.hints);
    BindingsAgreeIff(t, mv, a.bindings, b.bindings);
  }

  lemma TurnsAgreeIff(t: Tables, mv: Move, a: Table<TurnId, string>, b: Table<TurnId, string>)
    requires mv.from != mv.to
    requires var ids := MovedIds(t.sessions, mv);
             && IsMoved(t.turns, OfSessions(ids), mv, IfFree(mv.at), a)
             && IsMoved(t.turns, OfSessions(ids - {""}), mv, IfFree(mv.at), b)
    ensures a == b <==> NoBlankTurns(t, mv)
  {
    hide IsMoved, MovedIds;
    var ids := MovedIds(t.sessions, mv);
    MovesAgreeIff(t.turns, mv, OfSessions(ids), IfFree(mv.at), a, OfSessions(ids - {""}), IfFree(mv.at), b);
    forall k | k in t.turns && Leaving(mv, k)
      ensures LandedFor(t.turns, OfSessions(ids), mv, IfFree(mv.at), k) ==
              LandedFor(t.turns, OfSessions(ids - {""}), mv, IfFree(mv.at), k)
              <==> (k.item.session == "" && "" in ids ==> There(mv, k) in t.turns)
    {
    }
  }

  lemma PrefsAgreeIff(t: Tables, mv: Move, a: Table<Id, Pref>, b: Table<Id, Pref>)
    requires mv.from != mv.to
    requires var ids := MovedIds(t.sessions, mv);
             IsMoved(t.prefs, Among(ids), mv, IfFree(mv.at), a) && IsMoved(t.prefs, Among(ids), mv, Merging(mv.at), b)
    ensures a == b <==> PrefsDoNotMeet(t, mv)
  {
    hide IsMoved, MovedIds;
    var ids := MovedIds(t.sessions, mv);
    MovesAgreeIff(t.prefs, mv, Among(ids), IfFree(mv.at), a, Among(ids), Merging(mv.at), b);
    forall k | k in t.prefs && Leaving(mv, k)
      ensures LandedFor(t.prefs, Among(ids), mv, IfFree(mv.at), k) ==
              LandedFor(t.prefs, Among(ids), mv, Merging(mv.at), k)
              <==> (k.item in ids && There(mv, k) in t.prefs ==>
                      var leaving, there := t.prefs[k].body, t.prefs[There(mv, k)];
                      there == Row(if leaving.title.Some? then leaving else leaving.(title := there.body.title), mv.at))
    {
    }
  }

  lemma HintsAgreeIff(t: Tables, mv: Move, a: Table<Id, int>, b: Table<Id, int>)
    requires mv.from != mv.to
    requires var ids := MovedIds(t.sessions, mv);
             IsMoved(t.hints, Among(ids), mv, IfFree(mv.at), a)
             && IsMoved(t.hints, Among(ids), mv, Overwriting(mv.at), b)
    ensures a == b <==> HintsDoNotMeet(t, mv)
  {
    hide IsMoved, MovedIds;
    var ids := MovedIds(t.sessions, mv);
    MovesAgreeIff(t.hints, mv, Among(ids), IfFree(mv.at), a, Among(ids), Overwriting(mv.at), b);
    forall k | k in t.hints && Leaving(mv, k)
      ensures LandedFor(t.hints, Among(ids), mv, IfFree(mv.at), k) ==
              LandedFor(t.hints, Among(ids), mv, Overwriting(mv.at), k)
              <==> (k.item in ids && There(mv, k) in t.hints ==> t.hints[There(mv, k)] == Row(t.hints[k].body, mv.at))
    {
    }
  }

  lemma BindingsAgreeIff(t: Tables, mv: Move, a: Table<Id, Binding>, b: Table<Id, Binding>)
    requires mv.from != mv.to && IsMoved(t.bindings, Every(), mv, IfFree(mv.at), a)
    requires IsMoved(t.bindings, Active(t.bindings, mv), mv, Overwriting(mv.at), b)
    ensures a == b <==> BindingsDoNotMeet(t, mv)
  {
    hide IsMoved;
    MovesAgreeIff(t.bindings, mv, Every(), IfFree(mv.at), a, Active(t.bindings, mv), Overwriting(mv.at), b);
    forall k | k in t.bindings && Leaving(mv, k)
      ensures LandedFor(t.bindings, Every(), mv, IfFree(mv.at), k) ==
              LandedFor(t.bindings, Active(t.bindings, mv), mv, Overwriting(mv.at), k)
              <==> if t.bindings[k].body.active
                   then There(mv, k) in t.bindings ==> t.bindings[There(mv, k)] == Row(t.bindings[k].body, mv.at)
                   else There(mv, k) in t.bindings
    {
      assert k == Key(mv.user, mv.from, k.item);
    }
  }

  // ---- All devices of one machine

  /** The sessions the current device ends up with: its own and those of every device that hands over. */
  ghost function Gathered(t: Tables, user: Id, current: Id, listed: seq<Listed>): set<Id> {
    if listed == [] then SessionIds(t.sessions, user, current)
    else
      var d := listed[|listed| - 1];
      Gathered(t, user, current, listed[..|listed| - 1])
      + (if Takes(t.devices, user, current, d) then SessionIds(t.sessions, user, d.id) else {})
  }

  ghost predicate SameOwners(a: map<Id, Device>, b: map<Id, Device>) {
    a.Keys == b.Keys && forall id | id in a :: a[id].user == b[id].user
  }

  ghost predicate RunInv(t0: Tables, t: Tables, user: Id, current: Id, listed: seq<Listed>, i: nat)
    requires i <= |listed|
  {
    && SameOwners(t0.devices, t.devices)
    && SessionIds(t.sessions, user, current) == Gathered(t0, user, current, listed[..i])
    && (forall j | 0 <= j < i :: Takes(t0.devices, user, current, listed[j]) ==> NothingKeyedTo(t, user, listed[j].id))
    && (forall j | i <= j < |listed| && listed[j].id != current ::
          SessionIds(t.sessions, user, listed[j].id) == SessionIds(t0.sessions, user, listed[j].id))
  }

  /** Each listed device that hands over names the current one as its successor; all other records are as they were. */
  ghost predicate AllHandOver(before: map<Id, Device>, user: Id, current: Id, listed: seq<Listed>, at: int,
                              after: map<Id, Device>) {
    && after.Keys == before.Keys
    && forall id | id in before ::
         after[id] == if exists d :: d in listed && d.id == id && Takes(before, user, current, d)
                      then Device(user, before[id].computer, Some(current), "offline", at) else before[id]
  }

  lemma HandOverSkip(before: map<Id, Device>, user: Id, current: Id, listed: seq<Listed>, i: nat, at: int,
                     after: map<Id, Device>)
    requires i < |listed| && AllHandOver(before, user, current, listed[..i], at, after)
    requires !Takes(before, user, current, listed[i])
    ensures AllHandOver(before, user, current, listed[..i + 1], at, after)
  {
    assert listed[..i + 1] == listed[..i] + [listed[i]];
  }

  lemma HandOverStep(t0: Tables, t: Tables, user: Id, current: Id, listed: seq<Listed>, i: nat, at: int,
                     superseded: bool, t': Tables)
    requires i < |listed| && DistinctIds(listed) && AllHandOver(t0.devices, user, current, listed[..i], at, t.devices)
    requires listed[i].id != current && listed[i].supersededBy.None? && listed[i].status != "revoked"
    requires SameOwners(t0.devices, t.devices)
    requires superseded == Eligible(t.devices, Move(user, listed[i].id, current, at))
    requires if superseded then Superseded(t, Move(user, listed[i].id, current, at), t') else t' == t
    ensures AllHandOver(t0.devices, user, current, listed[..i + 1], at, t'.devices)
  {
    hide Superseded;
    var d := listed[i];
    assert listed[..i + 1] == listed[..i] + [d];
    assert superseded == Takes(t0.devices, user, current, d);
    if superseded {
      OldDeviceIsMarked(t, Move(user, d.id, current, at), t');
      assert forall e | e in listed[..i] :: e.id != d.id;
      assert d in listed[..i + 1];
    } else {
      HandOverSkip(t0.devices, user, current, listed, i, at, t.devices);
    }
  }

  lemma ReplayNothing(m: Table<Id, Session>)
    ensures Replay(m, []) == m
  {
  }

  lemma RunStart(t0: Tables, user: Id, current: Id, listed: seq<Listed>)
    ensures RunInv(t0, t0, user, current, listed, 0)
  {
  }

  lemma {:induction false} RunEnd(t0: Tables, t: Tables, user: Id, current: Id, listed: seq<Listed>)
    requires RunInv(t0, t, user, current, listed, |listed|)
    ensures SessionIds(t.sessions, user, current) == Gathered(t0, user, current, listed)
    ensures forall i | 0 <= i < |listed| :: Takes(t0.devices, user, current, listed[i]) ==>
              NothingKeyedTo(t, user, listed[i].id)
  {
    assert listed[..|listed|] == listed;
  }

  lemma RunSkip(t0: Tables, t: Tables, user: Id, current: Id, listed: seq<Listed>, i: nat)
    requires i < |listed| && RunInv(t0, t, user, current, listed, i)
    requires !Takes(t0.devices, user, current, listed[i])
    ensures RunInv(t0, t, user, current, listed, i + 1)
  {
    assert listed[..i + 1][..i] == listed[..i];
  }

  lemma {:induction false} EventsComeFrom(events: seq<Event>, ids: set<Id>, mv: Move)
    ensures forall e | e in EventsAfter(events, ids, mv) :: e in events || AtTarget(mv, e.key)
  {
    if events == [] {
    } else {
      EventsComeFrom(events[1..], ids, mv);
    }
  }

  lemma StaysClear(t: Tables, mv: Move, r: Tables, device: Id)
    requires mv.from != mv.to && Superseded(t, mv, r) && device != mv.to && device != mv.from
    ensures NothingKeyedTo(t, mv.user, device) ==> NothingKeyedTo(r, mv.user, device)
    ensures SessionIds(r.sessions, mv.user, device) == SessionIds(t.sessions, mv.user, device)
  {
    hide NoneKeyedTo, IsMoved, MovedIds, EventsAfter, SameElsewhere;
    NothingStaysBehind(t, mv, r);
    EventsComeFrom(t.events, MovedIds(t.sessions, mv), mv);
    SameThere(t.sessions, mv, r.sessions, device);
    SameThere(t.turns, mv, r.turns, device);
    SameThere(t.prefs, mv, r.prefs, device);
    SameThere(t.hints, mv, r.hints, device);
    SameThere(t.projectPrefs, mv, r.projectPrefs, device);
    SameThere(t.bindings, mv, r.bindings, device);
    forall id ensures id in SessionIds(r.sessions, mv.user, device) <==> id in SessionIds(t.sessions, mv.user, device) {
      var k := Key(mv.user, device, id);
      SameAt(t.sessions, mv, r.sessions, k);
    }
  }

  lemma SameAt<I(!new), B>(m: Table<I, B>, mv: Move, r: Table<I, B>, k: Key<I>)
    requires SameElsewhere(m, mv, r) && !Leaving(mv, k) && !AtTarget(mv, k)
    ensures Get(r, k) == Get(m, k)
  {
  }

  lemma SameThere<I(!new), B>(m: Table<I, B>, mv: Move, r: Table<I, B>, device: Id)
    requires SameElsewhere(m, mv, r) && device != mv.to && device != mv.from
    ensures NoneKeyedTo(m, mv.user, device) ==> NoneKeyedTo(r, mv.user, device)
  {
    forall k | k in r
      ensures Get(r, k) == Some(r[k]) && (!Leaving(mv, k) && !AtTarget(mv, k) ==> Get(m, k) == Get(r, k))
    {
    }
  }

  lemma RunStep(t0: Tables, t: Tables, user: Id, current: Id, listed: seq<Listed>, i: nat, mv: Move, superseded: bool,
                t': Tables)
    requires i < |listed| && DistinctIds(listed) && RunInv(t0, t, user, current, listed, i)
    requires listed[i].id != current && listed[i].supersededBy.None? && listed[i].status != "revoked"
    requires mv.user == user && mv.from == listed[i].id && mv.to == current
    requires superseded == Eligible(t.devices, mv)
    requires if superseded then Superseded(t, mv, t') else t' == t
    ensures RunInv(t0, t', user, current, listed, i + 1)
  {
    hide NoneKeyedTo, IsMoved, MovedIds, EventsAfter, SameElsewhere, SessionIds, NothingKeyedTo;
    assert superseded == Takes(t0.devices, user, current, listed[i]);
    assert listed[..i + 1][..i] == listed[..i];
    if superseded {
      NothingStaysBehind(t, mv, t');
      SessionsAreUnited(t.sessions, t.devices[mv.to].computer, mv, t'.sessions);
      forall j | 0 <= j < |listed| && j != i && listed[j].id != current
        ensures NothingKeyedTo(t, user, listed[j].id) ==> NothingKeyedTo(t', user, listed[j].id)
        ensures SessionIds(t'.sessions, user, listed[j].id) == SessionIds(t.sessions, user, listed[j].id)
      {
        StaysClear(t, mv, t', listed[j].id);
      }
    }
  }

  // ---- Where they do not agree

  /** A session with its preference and hint at the old device, a preference and a hint of it at the new one although
      the session is not there, and a revoked binding: the two stores end up different in all three tables. */
  lemma TwinsCanDiffer(a: Tables, b: Tables)
    requires Superseded(MEETING, MEETING_MOVE, a) && SupersededBySql(MEETING, MEETING_MOVE, b)
    ensures a.prefs != b.prefs && a.hints != b.hints && a.bindings != b.bindings && a.turns == b.turns
  {
    hide IsMoved, EventsAfter, Superseded, SupersededBySql;
    var t, mv := MEETING, MEETING_MOVE;
    var k, k' := Key("u", "old", "s"), Key("u", "new", "s");
    assert There(mv, k) == k' && k in t.sessions && k' !in t.sessions;
    assert "s" in MovedIds(t.sessions, mv);
    assert k in t.prefs && k' in t.prefs && k in t.hints && k' in t.hints;
    TwinsAgreeIff(t, mv, a, b);
  }

  const MEETING_MOVE := Move("u", "old", "new", 9)

  const MEETING := Tables(
    map["old" := Device("u", None, None, "active", 0), "new" := Device("u", None, None, "active", 0)],
    map[Key("u", "old", "s") := Row(Session(None, ""), 1)],
    map[],
    map[Key("u", "old", "s") := Row(Pref(true, false, None), 1),
        Key("u", "new", "s") := Row(Pref(false, false, None), 2)],
    map[Key("u", "old", "s") := Row(1, 1), Key("u", "new", "s") := Row(2, 2)],
    map[],
    [],
    map[Key("u", "old", "s") := Row(Binding(false), 1)])

  /** Both stores accept that input. */
  method SupersedeBoth() returns (a: Tables, b: Tables)
    ensures a.prefs != b.prefs && a.hints != b.hints && a.bindings != b.bindings
    ensures a.sessions == b.sessions && a.events == b.events
  {
    hide Superseded, SupersededBySql;
    var store := new InMemoryNexusStore.Of(MEETING);
    var done, deletes, upserts := store.SupersedeDaemonDevice(MEETING_MOVE);
    a := store.Contents();
    var doneToo, deletesToo, upsertsToo;
    doneToo, b, deletesToo, upsertsToo := SupersedeDaemonDeviceSql(MEETING, MEETING_MOVE);
    TwinsCanDiffer(a, b);
    TwinsAgreeIff(MEETING, MEETING_MOVE, a, b);
  }
}
