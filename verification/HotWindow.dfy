/** The hot window: per session only the newest turns stay in the store.

    An upload is trimmed before it is written and the store is pruned afterwards. The
    specification is `NewestK`, and the result is that the store always holds exactly the
    newest K of everything ever uploaded, each with its latest payload. */
module HotWindow {
  import opened NumberedTurns
  import opened SeqSets

  datatype SessionKey = SessionKey(user: string, device: string, session: string)
  datatype TurnKey = TurnKey(session: SessionKey, number: int)
  datatype Turn = Turn(key: TurnKey, payload: string)

  const MAX_SCOPED_PRUNE_SESSIONS: nat := 25

  // ---- One session: a map from turn number to payload

  /** The K largest turn numbers of m, with their payloads. */
  ghost function NewestK(m: map<int, string>, k: nat): map<int, string> {
    map x | x in TopK(m.Keys, k) :: m[x]
  }

  /** Trimming both the stored side and the new side before merging them loses nothing. */
  lemma NewestAbsorbs(a: map<int, string>, b: map<int, string>, k: nat)
    ensures NewestK(NewestK(a, k) + NewestK(b, k), k) == NewestK(a + b, k)
  {
    var t := NewestK(a, k) + NewestK(b, k);
    var u := a + b;
    assert t.Keys == TopK(a.Keys, k) + TopK(b.Keys, k) && u.Keys == a.Keys + b.Keys;
    TopKAbsorbs(a.Keys, TopK(b.Keys, k), k);
    assert a.Keys + TopK(b.Keys, k) == TopK(b.Keys, k) + a.Keys;
    TopKAbsorbs(b.Keys, a.Keys, k);
    assert b.Keys + a.Keys == u.Keys;
    forall x | x in TopK(u.Keys, k) ensures t[x] == u[x] {
      if x in b {
        AboveShrinks(b.Keys, u.Keys, x);
      }
    }
  }

  lemma NewestWithin(m: map<int, string>, k: nat)
    ensures |NewestK(m, k)| <= k
    ensures |m| <= k ==> NewestK(m, k) == m
  {
    TopKSize(m.Keys, k);
    assert NewestK(m, k).Keys == TopK(m.Keys, k);
  }

  // ---- The table of all sessions

  type Table = map<TurnKey, string>

  function SeqsOf(keys: set<TurnKey>, s: SessionKey): set<int> { set t | t in keys && t.session == s :: t.number }

  ghost function SessionTurns(m: Table, s: SessionKey): map<int, string> {
    map x | x in SeqsOf(m.Keys, s) :: m[TurnKey(s, x)]
  }

  lemma SessionKeys(m: Table, s: SessionKey, x: int)
    ensures x in SeqsOf(m.Keys, s) <==> TurnKey(s, x) in m
  {
    if TurnKey(s, x) in m {
      var t := TurnKey(s, x);
      assert t in m.Keys && t.session == s;
    }
  }

  lemma SessionTurnsAt(m: Table, s: SessionKey)
    ensures forall x {:trigger x in SessionTurns(m, s)} :: x in SessionTurns(m, s) <==> TurnKey(s, x) in m
    ensures forall x {:trigger SessionTurns(m, s)[x]} :: x in SessionTurns(m, s) ==>
              TurnKey(s, x) in m && SessionTurns(m, s)[x] == m[TurnKey(s, x)]
  {
    forall x ensures x in SeqsOf(m.Keys, s) <==> TurnKey(s, x) in m {
      SessionKeys(m, s, x);
    }
  }

  /** Which sessions a prune visits; an empty set stands for no restriction. */
  datatype Scope = Scope(users: set<string>, sessions: set<SessionKey>)
  {
    predicate Covers(s: SessionKey) {
      (users == {} || s.user in users) && (sessions == {} || s in sessions)
    }
  }

  /** Keep, in each session in scope, the perSession newest turns. */
  ghost function Pruned(m: Table, perSession: nat, scope: Scope): Table {
    map t | t in m && (scope.Covers(t.session) ==> t.number in TopK(SeqsOf(m.Keys, t.session), perSession)) :: m[t]
  }

  /** A turn goes exactly if its user and its session are asked for, no user or no session named standing for all, and
      there are enough newer turns in its session. */
  lemma PrunedInScope(m: Table, k: nat, users: set<string>, sessions: set<SessionKey>, t: TurnKey)
    requires t in m
    ensures t !in Pruned(m, k, Scope(users, sessions)) <==>
            && (users == {} || t.session.user in users) && (sessions == {} || t.session in sessions)
            && t.number !in TopK(SeqsOf(m.Keys, t.session), k)
  {
  }

  lemma PrunedSession(m: Table, k: nat, scope: Scope, s: SessionKey)
    ensures SessionTurns(Pruned(m, k, scope), s) ==
            if scope.Covers(s) then NewestK(SessionTurns(m, s), k) else SessionTurns(m, s)
  {
    hide TopK;
    SessionTurnsAt(m, s);
    SessionTurnsAt(Pruned(m, k, scope), s);
    assert SessionTurns(m, s).Keys == SeqsOf(m.Keys, s);
  }

  lemma MergedSession(a: Table, b: Table, s: SessionKey)
    ensures SessionTurns(a + b, s) == SessionTurns(a, s) + SessionTurns(b, s)
  {
    SessionTurnsAt(a, s);
    SessionTurnsAt(b, s);
    SessionTurnsAt(a + b, s);
  }

  // ---- One upload

  /** What an upload says last about each turn. */
  function Latest(turns: seq<Turn>): Table {
    if turns == [] then map[]
    else Latest(turns[..|turns| - 1])[turns[|turns| - 1].key := turns[|turns| - 1].payload]
  }

  ghost predicate DistinctKeys(turns: seq<Turn>) {
    forall i, j | 0 <= i < j < |turns| :: turns[i].key != turns[j].key
  }

  /** The turns of the upload that survive the pre-filter. */
  ghost function Selected(b: Table, perSession: nat): Table { Pruned(b, perSession, Scope({}, {})) }

  /** The turns that are new or carry another payload. */
  function Changed(m: Table, b: Table): Table { map t | t in b && (t !in m || m[t] != b[t]) :: b[t] }

  function SessionsOf(b: Table): set<SessionKey> { set t | t in b :: t.session }

  /** The sessions the prune after an upload visits: the changed ones, or all of the changed users if there are many. */
  function PruneScope(c: Table): Scope {
    var sessions := SessionsOf(c);
    Scope(set s | s in sessions :: s.user, if |sessions| <= MAX_SCOPED_PRUNE_SESSIONS then sessions else {})
  }

  ghost function Upload(m: Table, b: Table, perSession: nat): Table {
    var c := Changed(m, Selected(b, perSession));
    if c == map[] then m else Pruned(m + c, perSession, PruneScope(c))
  }

  ghost predicate WithinWindow(m: Table, k: nat) {
    forall s {:trigger SessionTurns(m, s)} :: |SessionTurns(m, s)| <= k
  }

  lemma ChangedIsEnough(m: Table, b: Table)
    ensures m + Changed(m, b) == m + b
  {
  }

  /** One upload leaves, in every session, the newest K of what was stored and what was sent. */
  lemma UploadSession(m: Table, b: Table, k: nat, s: SessionKey)
    requires WithinWindow(m, k)
    ensures SessionTurns(Upload(m, b, k), s) == NewestK(SessionTurns(m, s) + SessionTurns(b, s), k)
  {
    hide NewestK, SessionTurns, Pruned, SeqsOf;
    var sel := Selected(b, k);
    var c := Changed(m, sel);
    var old', sent := SessionTurns(m, s), SessionTurns(b, s);
    ChangedIsEnough(m, sel);
    MergedSession(m, sel, s);
    PrunedSession(b, k, Scope({}, {}), s);
    NewestWithin(old', k);
    NewestAbsorbs(old', sent, k);
    assert SessionTurns(m + c, s) == old' + NewestK(sent, k);
    if c == map[] {
      assert m + c == m;
      NewestWithin(SessionTurns(m + c, s), k);
    } else {
      PrunedSession(m + c, k, PruneScope(c), s);
      if !PruneScope(c).Covers(s) {
        MergedSession(m, c, s);
        NoTurnsOutOfScope(c, s);
        NewestWithin(SessionTurns(m + c, s), k);
      }
    }
  }

  lemma NoTurnsOutOfScope(c: Table, s: SessionKey)
    requires !PruneScope(c).Covers(s) && c != map[]
    ensures SessionTurns(c, s) == map[]
  {
    SessionTurnsAt(c, s);
    forall x | x in SessionTurns(c, s) ensures false {
      assert TurnKey(s, x).session in SessionsOf(c);
    }
  }

  // ---- Any run of uploads

  ghost function Run(m: Table, uploads: seq<Table>, perSession: nat): Table
    decreases |uploads|
  {
    if uploads == [] then m else Run(Upload(m, uploads[0], perSession), uploads[1..], perSession)
  }

  /** Everything ever uploaded to one session, the latest payload winning. */
  ghost function Ever(uploads: seq<Table>, s: SessionKey): map<int, string> {
    if uploads == [] then map[] else SessionTurns(uploads[0], s) + Ever(uploads[1..], s)
  }

  lemma UploadStaysWithin(m: Table, b: Table, k: nat)
    requires WithinWindow(m, k)
    ensures WithinWindow(Upload(m, b, k), k)
  {
    hide NewestK, SessionTurns, Upload;
    forall q {:trigger SessionTurns(Upload(m, b, k), q)} ensures |SessionTurns(Upload(m, b, k), q)| <= k {
      UploadSession(m, b, k, q);
      NewestWithin(SessionTurns(m, q) + SessionTurns(b, q), k);
    }
  }

  /** Trimming after the first of two merges changes nothing. */
  lemma NewestFolds(a: map<int, string>, b: map<int, string>, c: map<int, string>, k: nat)
    ensures NewestK(NewestK(a + b, k) + c, k) == NewestK(a + (b + c), k)
  {
    hide NewestK;
    NewestAbsorbs(a + b, c, k);
    NewestIsIdempotent(a + b, k);
    NewestAbsorbs(NewestK(a + b, k), c, k);
    assert (a + b) + c == a + (b + c);
  }

  /** The hot window is the newest K of everything ever uploaded: select, upsert and prune lose nothing else. */
  lemma {:induction false} WindowIsNewestK(m: Table, uploads: seq<Table>, k: nat, s: SessionKey)
    requires WithinWindow(m, k)
    ensures WithinWindow(Run(m, uploads, k), k)
    ensures SessionTurns(Run(m, uploads, k), s) == NewestK(SessionTurns(m, s) + Ever(uploads, s), k)
    decreases |uploads|
  {
    hide NewestK, SessionTurns, Upload, WithinWindow;
    if uploads == [] {
      assert SessionTurns(m, s) + map[] == SessionTurns(m, s);
      WithinSession(m, k, s);
      NewestWithin(SessionTurns(m, s), k);
    } else {
      UploadStaysWithin(m, uploads[0], k);
      UploadSession(m, uploads[0], k, s);
      WindowIsNewestK(Upload(m, uploads[0], k), uploads[1..], k, s);
      NewestFolds(SessionTurns(m, s), SessionTurns(uploads[0], s), Ever(uploads[1..], s), k);
    }
  }

  lemma WithinSession(m: Table, k: nat, s: SessionKey)
    requires WithinWindow(m, k)
    ensures |SessionTurns(m, s)| <= k
  {
  }

  lemma NewestIsIdempotent(m: map<int, string>, k: nat)
    ensures NewestK(NewestK(m, k), k) == NewestK(m, k)
  {
    NewestWithin(m, k);
    NewestWithin(NewestK(m, k), k);
  }

  // ---- The program's loops

  lemma LatestOfFront(turns: seq<Turn>, i: nat)
    requires i < |turns|
    ensures Latest(turns[..i + 1]) == Latest(turns[..i])[turns[i].key := turns[i].payload]
  {
    assert turns[..i + 1][..i] == turns[..i];
  }

  /** With distinct keys an upload and its table say the same. */
  lemma {:induction false} LatestOfDistinct(turns: seq<Turn>)
    requires DistinctKeys(turns)
    ensures forall i | 0 <= i < |turns| ::
              turns[i].key in Latest(turns) && Latest(turns)[turns[i].key] == turns[i].payload
    ensures forall t :: t in Latest(turns) <==> exists i :: 0 <= i < |turns| && turns[i].key == t
  {
    if turns == [] {
    } else {
      LatestOfDistinct(turns[..|turns| - 1]);
    }
  }

  lemma LatestReplace(out: seq<Turn>, j: nat, turn: Turn)
    requires DistinctKeys(out) && j < |out| && out[j].key == turn.key
    ensures DistinctKeys(out[j := turn]) && Latest(out[j := turn]) == Latest(out)[turn.key := turn.payload]
  {
    hide Latest;
    var next := out[j := turn];
    LatestOfDistinct(out);
    LatestOfDistinct(next);
    forall t | t in Latest(next)
      ensures t in Latest(out) && Latest(next)[t] == Latest(out)[turn.key := turn.payload][t]
    {
      var i :| 0 <= i < |next| && next[i].key == t;
      assert out[i].key == t;
    }
    forall t | t in Latest(out) ensures t in Latest(next) {
      var i :| 0 <= i < |out| && out[i].key == t;
      assert next[i].key == t;
    }
  }

  lemma LatestAppend(out: seq<Turn>, turn: Turn)
    ensures Latest(out + [turn]) == Latest(out)[turn.key := turn.payload]
  {
    assert (out + [turn])[..|out|] == out;
  }

  /** Where each key stands in the deduplicated list. */
  ghost predicate IndexOf(index: map<TurnKey, int>, out: seq<Turn>) {
    && (forall t | t in index :: 0 <= index[t] < |out| && out[index[t]].key == t)
    && (forall j | 0 <= j < |out| :: out[j].key in index)
  }

  /** The last record of a key wins, at the place of the first. */
  method DedupeTurnRecords(turns: seq<Turn>) returns (out: seq<Turn>)
    ensures DistinctKeys(out) && Latest(out) == Latest(turns)
  {
    hide Latest;
    out := [];
    var index: map<TurnKey, int> := map[];
    assert turns[..0] == [];
    for i := 0 to |turns|
      invariant DistinctKeys(out) && IndexOf(index, out)
      invariant Latest(out) == Latest(turns[..i])
    {
      var turn := turns[i];
      LatestOfFront(turns, i);
      if turn.key in index {
        LatestReplace(out, index[turn.key], turn);
        out := out[index[turn.key] := turn];
      } else {
        LatestAppend(out, turn);
        index := index[turn.key := |out|];
        out := out + [turn];
      }
    }
    assert turns[..|turns|] == turns;
  }

  /** The turns of one session among the first i, as the grouping loop collects them. */
  ghost predicate GroupsUpTo(groups: map<SessionKey, seq<int>>, keys: set<TurnKey>, scope: Scope) {
    && (forall s {:trigger s in groups} :: s in groups <==> scope.Covers(s) && SeqsOf(keys, s) != {})
    && (forall s {:trigger groups[s]} :: s in groups ==> Distinct(groups[s]) && Members(groups[s]) == SeqsOf(keys, s))
  }

  function AddToGroup(groups: map<SessionKey, seq<int>>, t: TurnKey): map<SessionKey, seq<int>> {
    groups[t.session := (if t.session in groups then groups[t.session] else []) + [t.number]]
  }

  lemma GroupsGrow(groups: map<SessionKey, seq<int>>, keys: set<TurnKey>, t: TurnKey, scope: Scope)
    requires GroupsUpTo(groups, keys, scope) && t !in keys
    ensures GroupsUpTo(if scope.Covers(t.session) then AddToGroup(groups, t) else groups, keys + {t}, scope)
  {
    var next := if scope.Covers(t.session) then AddToGroup(groups, t) else groups;
    forall s ensures SeqsOf(keys + {t}, s) == SeqsOf(keys, s) + (if s == t.session then {t.number} else {}) {
    }
    forall s | s in next ensures Distinct(next[s]) && Members(next[s]) == SeqsOf(keys + {t}, s) {
      if s == t.session {
        var q := if s in groups then groups[s] else [];
        assert t.number !in SeqsOf(keys, s);
        assert Members(q) == SeqsOf(keys, s);
        AppendMember(q, t.number);
      }
    }
  }

  lemma AppendMember(q: seq<int>, x: int)
    requires Distinct(q) && x !in Members(q)
    ensures Distinct(q + [x]) && Members(q + [x]) == Members(q) + {x}
  {
    forall i | 0 <= i < |q| ensures q[i] != x {
      assert q[i] in Members(q);
    }
    MembersOfFront(q + [x]);
    assert (q + [x])[..|q|] == q;
  }

  /** Of a session's turns, the limit newest: sort newest first and take the front. */
  method SelectNewest(group: seq<int>, limit: nat) returns (selected: seq<int>)
    requires Distinct(group)
    ensures Members(selected) == TopK(Members(group), limit)
  {
    if |group| > limit {
      var sorted := Reversed(SortAscending(group));
      selected := sorted[..limit];
      NewestFront(SortAscending(group), limit);
      assert Members(SortAscending(group)) == Members(group);
    } else {
      selected := group;
      DistinctCount(group);
      TopKSize(Members(group), limit);
    }
  }

  lemma {:induction false} NewestFront(q: seq<int>, k: nat)
    requires Ascending(q) && k <= |q|
    ensures Members(Reversed(q)[..k]) == TopK(Members(q), k)
    ensures Members(q[..|q| - k]) == Members(q) - TopK(Members(q), k)
  {
    hide TopK, Reversed;
    var r := Reversed(q);
    forall i | 0 <= i < |q| ensures q[i] in TopK(Members(q), k) <==> i >= |q| - k {
      RankInListing(q, i);
      TopKMember(Members(q), k, q[i]);
    }
    forall x | x in TopK(Members(q), k) ensures x in r[..k] {
      assert x in q;
      var i :| 0 <= i < |q| && q[i] == x;
      assert r[|q| - 1 - i] == x;
    }
    forall j | 0 <= j < k ensures r[j] in TopK(Members(q), k) {
      assert r[j] == q[|q| - 1 - j];
    }
    assert Members(r[..k]) == TopK(Members(q), k);
    var rest := q[..|q| - k];
    forall x | x in q && x !in TopK(Members(q), k) ensures x in rest {
      var i :| 0 <= i < |q| && q[i] == x;
      assert rest[i] == x;
    }
    forall x | x in rest ensures x in q && x !in TopK(Members(q), k) {
      var i :| 0 <= i < |rest| && rest[i] == x;
      assert q[i] == x;
    }
  }

  lemma TopKMember(s: set<int>, k: nat, x: int)
    requires x in s
    ensures x in TopK(s, k) <==> |Above(s, x)| < k
  {
  }

  /** The records to keep, from the groups. */
  method KeepNewest(groups: map<SessionKey, seq<int>>, ghost keys: set<TurnKey>, limit: nat)
    returns (keep: set<TurnKey>)
    requires GroupsUpTo(groups, keys, Scope({}, {}))
    ensures forall t | t in keys :: t in keep <==> t.number in TopK(SeqsOf(keys, t.session), limit)
  {
    hide TopK;
    keep := {};
    var rest := groups.Keys;
    while rest != {}
      invariant rest <= groups.Keys
      invariant forall t | t in keys :: t in keep <==>
                t.session in groups && t.session !in rest && t.number in TopK(SeqsOf(keys, t.session), limit)
      decreases |rest|
    {
      var s :| s in rest;
      var selected := SelectNewest(groups[s], limit);
      var chosen := set x | x in selected :: TurnKey(s, x);
      ChosenKeys(s, selected, chosen);
      keep := keep + chosen;
      rest := rest - {s};
    }
    SeqsOfNonEmpty(keys);
  }

  lemma ChosenKeys(s: SessionKey, selected: seq<int>, chosen: set<TurnKey>)
    requires chosen == set x | x in selected :: TurnKey(s, x)
    ensures forall t :: t in chosen <==> t.session == s && t.number in Members(selected)
  {
    forall t ensures t in chosen <==> t.session == s && t.number in Members(selected) {
      if t.session == s && t.number in Members(selected) {
        assert t == TurnKey(s, t.number);
      }
    }
  }

  /** The per-session pre-filter: group, select in each group, and keep the selected records in order. */
  method NewestTurnRecordsByGroup(turns: seq<Turn>, limit: nat) returns (out: seq<Turn>)
    requires DistinctKeys(turns) && limit > 0
    ensures DistinctKeys(out) && Latest(out) == Selected(Latest(turns), limit)
    ensures forall i | 0 <= i < |out| :: out[i] in turns
  {
    hide Latest, TopK, SeqsOf, AddToGroup, Pruned, GroupsUpTo;
    if |turns| <= limit {
      FewTurnsAllSelected(turns, limit);
      return turns;
    }
    LatestOfDistinct(turns);
    var groups: map<SessionKey, seq<int>> := map[];
    ghost var seen: set<TurnKey> := {};
    NoGroups();
    for i := 0 to |turns|
      invariant forall t :: t in seen <==> exists j :: 0 <= j < i && turns[j].key == t
      invariant GroupsUpTo(groups, seen, Scope({}, {}))
    {
      GroupsGrow(groups, seen, turns[i].key, Scope({}, {}));
      assert Scope({}, {}).Covers(turns[i].key.session);
      groups := AddToGroup(groups, turns[i].key);
      seen := seen + {turns[i].key};
    }
    assert seen == Latest(turns).Keys;
    var keep := KeepNewest(groups, seen, limit);
    out := [];
    for i := 0 to |turns|
      invariant forall j | 0 <= j < |out| :: out[j] in turns[..i] && out[j].key in keep
      invariant forall j | 0 <= j < i && turns[j].key in keep :: turns[j] in out
      invariant DistinctKeys(out)
    {
      if turns[i].key in keep {
        out := out + [turns[i]];
      }
    }
    SelectedTable(turns, out, keep, limit);
  }

  lemma NoGroups()
    ensures GroupsUpTo(map[], {}, Scope({}, {}))
  {
  }

  lemma {:induction false} SelectedTable(turns: seq<Turn>, out: seq<Turn>, keep: set<TurnKey>, limit: nat)
    requires DistinctKeys(turns) && DistinctKeys(out)
    requires forall j | 0 <= j < |out| :: out[j] in turns && out[j].key in keep
    requires forall j | 0 <= j < |turns| && turns[j].key in keep :: turns[j] in out
    requires forall t | t in Latest(turns) ::
               t in keep <==> t.number in TopK(SeqsOf(Latest(turns).Keys, t.session), limit)
    ensures Latest(out) == Selected(Latest(turns), limit)
  {
    hide TopK, SeqsOf, Latest;
    LatestOfDistinct(turns);
    LatestOfDistinct(out);
  }

  lemma {:induction false} FewTurnsAllSelected(turns: seq<Turn>, limit: nat)
    requires DistinctKeys(turns) && |turns| <= limit
    ensures Latest(turns) == Selected(Latest(turns), limit)
  {
    hide TopK;
    var m := Latest(turns);
    LatestSize(turns);
    forall t | t in m ensures t.number in TopK(SeqsOf(m.Keys, t.session), limit) {
      SeqsOfSize(m.Keys, t.session);
      TopKSize(SeqsOf(m.Keys, t.session), limit);
    }
  }

  lemma {:induction false} LatestSize(turns: seq<Turn>)
    ensures |Latest(turns).Keys| <= |turns|
  {
    if turns == [] {
    } else {
      var front := turns[..|turns| - 1];
      LatestSize(front);
      assert Latest(turns).Keys == Latest(front).Keys + {turns[|turns| - 1].key};
    }
  }

  lemma {:induction false} SeqsOfSize(keys: set<TurnKey>, s: SessionKey)
    ensures |SeqsOf(keys, s)| <= |keys|
    decreases |keys|
  {
    if keys != {} {
      var t: TurnKey :| t in keys;
      SeqsOfSize(keys - {t}, s);
      assert SeqsOf(keys, s) <= SeqsOf(keys - {t}, s) + {t.number};
      SubsetSize(SeqsOf(keys, s), SeqsOf(keys - {t}, s) + {t.number});
    } else {
      assert SeqsOf(keys, s) == {};
    }
  }

  /** Of a session's turns, those the prune deletes: sort oldest first and take all but the last k. */
  method OldestBeyond(group: seq<int>, k: nat) returns (drop: seq<int>)
    requires Distinct(group)
    ensures Members(drop) == Members(group) - TopK(Members(group), k)
  {
    var sorted := SortAscending(group);
    assert Members(sorted) == Members(group);
    drop := sorted[..(if |sorted| > k then |sorted| - k else 0)];
    if |sorted| > k {
      NewestFront(sorted, k);
    } else {
      AscendingCount(sorted);
      TopKSize(Members(sorted), k);
    }
  }

  lemma DroppedKeys(keys: set<TurnKey>, s: SessionKey, k: nat, drop: seq<int>, gone: set<TurnKey>)
    requires Members(drop) == SeqsOf(keys, s) - TopK(SeqsOf(keys, s), k)
    requires gone == set x | x in drop :: TurnKey(s, x)
    ensures gone <= keys
    ensures forall t | t in keys :: t in gone <==> t.session == s && t.number !in TopK(SeqsOf(keys, s), k)
    ensures forall t | t in gone :: t.session == s
  {
    hide TopK;
    forall x | x in drop ensures TurnKey(s, x) in keys {
      assert x in Members(drop);
    }
    forall t | t in keys && t.session == s && t.number !in TopK(SeqsOf(keys, s), k) ensures t in gone {
      assert t.number in Members(drop);
      assert t == TurnKey(s, t.number);
    }
    forall t | t in gone ensures t.session == s && t.number in Members(drop) {
    }
  }

  lemma SeqsOfNonEmpty(keys: set<TurnKey>)
    ensures forall t | t in keys :: t.number in SeqsOf(keys, t.session)
  {
  }

  lemma {:induction false} ChangedTable(m: Table, batch: seq<Turn>, out: seq<Turn>)
    requires DistinctKeys(batch) && DistinctKeys(out)
    requires forall j | 0 <= j < |out| :: out[j] in batch && (out[j].key !in m || m[out[j].key] != out[j].payload)
    requires forall j | 0 <= j < |batch| && (batch[j].key !in m || m[batch[j].key] != batch[j].payload) ::
               batch[j] in out
    ensures Latest(out) == Changed(m, Latest(batch))
  {
    hide Latest;
    LatestOfDistinct(batch);
    LatestOfDistinct(out);
    var c := Changed(m, Latest(batch));
    forall t | t in c ensures t in Latest(out) {
      var j :| 0 <= j < |batch| && batch[j].key == t;
      var i :| 0 <= i < |out| && out[i] == batch[j];
      assert out[i].key == t;
    }
  }

  /** The turns deleted once the groups outside rest are done. */
  ghost predicate DroppedSoFar(keys: set<TurnKey>, groups: map<SessionKey, seq<int>>, rest: set<SessionKey>, k: nat,
                               dropped: set<TurnKey>) {
    && dropped <= keys
    && forall t | t in keys :: t in dropped <==>
         t.session in groups && t.session !in rest && t.number !in TopK(SeqsOf(keys, t.session), k)
  }

  function SessionsIn(keys: set<TurnKey>): set<SessionKey> { set t | t in keys :: t.session }

  lemma DroppedGrows(keys: set<TurnKey>, groups: map<SessionKey, seq<int>>, rest: set<SessionKey>, k: nat,
                     dropped: set<TurnKey>, s: SessionKey, gone: set<TurnKey>)
    requires DroppedSoFar(keys, groups, rest, k, dropped) && s in rest && s in groups && gone <= keys
    requires forall t | t in keys :: t in gone <==> t.session == s && t.number !in TopK(SeqsOf(keys, s), k)
    ensures DroppedSoFar(keys, groups, rest - {s}, k, dropped + gone)
  {
    hide TopK, SeqsOf;
  }

  lemma NothingDropped(keys: set<TurnKey>, groups: map<SessionKey, seq<int>>, k: nat)
    ensures SessionsIn({}) == {} && DroppedSoFar(keys, groups, groups.Keys, k, {})
  {
  }

  lemma DroppedAll(keys: set<TurnKey>, groups: map<SessionKey, seq<int>>, scope: Scope, k: nat, dropped: set<TurnKey>)
    requires GroupsUpTo(groups, keys, scope) && DroppedSoFar(keys, groups, {}, k, dropped)
    ensures dropped <= keys
    ensures forall t | t in keys ::
              t in dropped <==> scope.Covers(t.session) && t.number !in TopK(SeqsOf(keys, t.session), k)
  {
    hide TopK;
    SeqsOfNonEmpty(keys);
  }

  lemma AffectedGrows(dropped: set<TurnKey>, s: SessionKey, drop: seq<int>, gone: set<TurnKey>)
    requires gone == set x | x in drop :: TurnKey(s, x)
    ensures SessionsIn(dropped + gone) == SessionsIn(dropped) + (if drop != [] then {s} else {})
  {
    assert drop != [] ==> TurnKey(s, drop[0]) in gone;
  }

  /** The prune's scan over the groups: what it deletes and which sessions it marks. */
  method CollectPruned(groups: map<SessionKey, seq<int>>, ghost keys: set<TurnKey>, ghost scope: Scope, k: nat)
    returns (dropped: set<TurnKey>, affected: set<SessionKey>)
    requires GroupsUpTo(groups, keys, scope)
    ensures affected == SessionsIn(dropped)
    ensures dropped <= keys
    ensures forall t | t in keys ::
              t in dropped <==> scope.Covers(t.session) && t.number !in TopK(SeqsOf(keys, t.session), k)
  {
    hide TopK, SeqsOf, SessionsIn, DroppedSoFar;
    assert SessionsIn({}) == {} && DroppedSoFar(keys, groups, groups.Keys, k, {}) by {
      NothingDropped(keys, groups, k);
    }
    var rest := groups.Keys;
    dropped, affected := {}, {};
    while rest != {}
      invariant rest <= groups.Keys
      invariant affected == SessionsIn(dropped)
      invariant DroppedSoFar(keys, groups, rest, k, dropped)
      decreases |rest|
    {
      var s :| s in rest;
      var drop := OldestBeyond(groups[s], k);
      var gone := set x | x in drop :: TurnKey(s, x);
      DroppedKeys(keys, s, k, drop, gone);
      DroppedGrows(keys, groups, rest, k, dropped, s, gone);
      AffectedGrows(dropped, s, drop, gone);
      if drop != [] {
        affected := affected + {s};
      }
      dropped := dropped + gone;
      rest := rest - {s};
    }
    DroppedAll(keys, groups, scope, k, dropped);
  }

  class InMemoryNexusStore {
    var turns: Table

    constructor ()
      ensures turns == map[]
    {
      turns := map[];
    }

    method UpsertTurns(batch: seq<Turn>)
      modifies this
      ensures turns == old(turns) + Latest(batch)
    {
      for i := 0 to |batch|
        invariant turns == old(turns) + Latest(batch[..i])
      {
        LatestOfFront(batch, i);
        turns := turns[batch[i].key := batch[i].payload];
      }
      assert batch[..|batch|] == batch;
    }

    /** Delete all but the perSession newest turns of every session in scope; report the sessions that lost some. */
    method PruneHotTurnCache(perSession: nat, scope: Scope) returns (affected: set<SessionKey>)
      modifies this
      ensures turns == if perSession > 0 then Pruned(old(turns), perSession, scope) else old(turns)
      ensures affected == SessionsIn(set t | t in old(turns) && t !in turns)
    {
      hide TopK, SeqsOf;
      affected := {};
      if perSession > 0 {
        var groups := GroupTurns(turns.Keys, scope);
        var dropped: set<TurnKey>;
        dropped, affected := CollectPruned(groups, turns.Keys, scope, perSession);
        turns := turns - dropped;
      }
    }

    method GroupTurns(keys: set<TurnKey>, scope: Scope) returns (groups: map<SessionKey, seq<int>>)
      ensures GroupsUpTo(groups, keys, scope)
    {
      groups := map[];
      var rest := keys;
      ghost var seen: set<TurnKey> := {};
      while rest != {}
        invariant rest <= keys && seen == keys - rest
        invariant GroupsUpTo(groups, seen, scope)
        decreases |rest|
      {
        var t :| t in rest;
        GroupsGrow(groups, seen, t, scope);
        if scope.Covers(t.session) {
          groups := AddToGroup(groups, t);
        }
        rest := rest - {t};
        seen := seen + {t};
      }
      assert seen == keys;
    }
  
    /** Turns that are new come first, then stored turns whose payload differs. */
    method FilterChangedTurnRecords(batch: seq<Turn>) returns (out: seq<Turn>)
      requires DistinctKeys(batch)
      ensures DistinctKeys(out) && Latest(out) == Changed(turns, Latest(batch))
    {
      hide Latest;
      var newTurns, changedExisting := [], [];
      for i := 0 to |batch|
        invariant DistinctKeys(newTurns) && DistinctKeys(changedExisting)
        invariant forall j | 0 <= j < |newTurns| :: newTurns[j] in batch[..i] && newTurns[j].key !in turns
        invariant forall j | 0 <= j < |changedExisting| ::
                  changedExisting[j] in batch[..i] && changedExisting[j].key in turns
                  && turns[changedExisting[j].key] != changedExisting[j].payload
        invariant forall j | 0 <= j < i :: batch[j].key !in turns ==> batch[j] in newTurns
        invariant forall j | 0 <= j < i ::
                  batch[j].key in turns && turns[batch[j].key] != batch[j].payload ==> batch[j] in changedExisting
      {
        if batch[i].key !in turns {
          newTurns := newTurns + [batch[i]];
        } else if turns[batch[i].key] != batch[i].payload {
          changedExisting := changedExisting + [batch[i]];
        }
      }
      out := newTurns + changedExisting;
      ChangedTable(turns, batch, out);
    }

    /** The write path of an upload: dedupe, pre-filter, drop what is unchanged, upsert, prune. */
    method UpsertChangedTurns(batch: seq<Turn>, perSession: nat)
      returns (changed: seq<Turn>, prunedSessions: set<SessionKey>)
      requires perSession > 0
      modifies this
      ensures turns == Upload(old(turns), Latest(batch), perSession)
      ensures Latest(changed) == Changed(old(turns), Selected(Latest(batch), perSession))
      ensures forall t | t in old(turns) && t.session !in prunedSessions :: t in turns
      ensures forall s | s in prunedSessions ::
                exists t :: (t in old(turns) || t in Latest(changed)) && t.session == s && t !in turns
    {
      hide Latest, Pruned, Changed;
      prunedSessions := {};
      var deduped := DedupeTurnRecords(batch);
      var hot := NewestTurnRecordsByGroup(deduped, perSession);
      changed := FilterChangedTurnRecords(hot);
      LatestOfDistinct(changed);
      if |changed| == 0 {
        assert Latest(changed) == map[];
        return;
      }
      assert changed[0].key in Latest(changed);
      UpsertTurns(changed);
      var scope := PruneScope(Latest(changed));
      prunedSessions := PruneHotTurnCache(perSession, scope);
    }
  }

  // ---- The browser's cache of one session

  const SESSION_TURNS_CACHE_LIMIT: nat := 500

  lemma {:induction false} CacheMapOfAscending(turns: seq<NumberedTurn>, m: map<int, string>)
    requires Ascending(Numbers(turns))
    requires forall i | 0 <= i < |turns| :: turns[i].number in m && turns[i].payload == m[turns[i].number]
    requires m.Keys == Members(Numbers(turns))
    ensures MapOf(turns) == m
  {
    if turns != [] {
      var front, last := turns[..|turns| - 1], turns[|turns| - 1].number;
      FrontKeys(turns, m);
      CacheMapOfAscending(front, m - {last});
      assert m == (m - {last})[last := m[last]];
    } else {
      assert m.Keys == {};
    }
  }

  lemma FrontKeys(turns: seq<NumberedTurn>, m: map<int, string>)
    requires turns != [] && Ascending(Numbers(turns)) && m.Keys == Members(Numbers(turns))
    ensures var front, last := turns[..|turns| - 1], turns[|turns| - 1].number;
            && Ascending(Numbers(front)) && (m - {last}).Keys == Members(Numbers(front))
            && forall i | 0 <= i < |front| :: front[i].number != last
  {
    var front, last := turns[..|turns| - 1], turns[|turns| - 1].number;
    assert Numbers(front) == Numbers(turns)[..|front|];
    MembersOfFront(Numbers(turns));
    assert forall i | 0 <= i < |front| :: Numbers(turns)[i] < Numbers(turns)[|front|];
    assert last !in Numbers(front);
  }

  lemma CacheMapStep(turns: seq<NumberedTurn>, i: nat)
    requires i < |turns|
    ensures MapOf(turns[..i + 1]) == MapOf(turns[..i])[turns[i].number := turns[i].payload]
  {
    assert turns[..i + 1][..i] == turns[..i];
  }

  lemma CacheMapOfNone(turns: seq<NumberedTurn>)
    ensures MapOf(turns[..0]) == map[]
  {
  }

  /** order lists the keys of m, each once. */
  ghost predicate ListsKeys(order: seq<int>, m: map<int, string>) { Distinct(order) && Members(order) == m.Keys }

  lemma ListsKeysStep(order: seq<int>, m: map<int, string>, x: int, payload: string)
    requires ListsKeys(order, m)
    ensures ListsKeys(if x in m then order else order + [x], m[x := payload])
  {
    if x !in m {
      AppendMember(order, x);
    }
    assert m[x := payload].Keys == m.Keys + {x};
  }

  /** Fill the map with more turns, remembering each number once. */
  method FillByKey(byKey: map<int, string>, order: seq<int>, turns: seq<NumberedTurn>)
    returns (byKey': map<int, string>, order': seq<int>)
    requires ListsKeys(order, byKey)
    ensures ListsKeys(order', byKey')
    ensures byKey' == byKey + MapOf(turns)
  {
    hide MapOf, ListsKeys;
    byKey', order' := byKey, order;
    CacheMapOfNone(turns);
    for i := 0 to |turns|
      invariant ListsKeys(order', byKey')
      invariant byKey' == byKey + MapOf(turns[..i])
    {
      var turn := turns[i];
      CacheMapStep(turns, i);
      ListsKeysStep(order', byKey', turn.number, turn.payload);
      if turn.number !in byKey' {
        order' := order' + [turn.number];
      }
      byKey' := byKey'[turn.number := turn.payload];
    }
    assert turns[..|turns|] == turns;
  }

  /** Merge, sort and trim: the cache obeys the same law as the server's window. */
  method MergeSessionTurnsCache(current: seq<NumberedTurn>, next: seq<NumberedTurn>) returns (merged: seq<NumberedTurn>)
    ensures Ascending(Numbers(merged)) && |merged| <= SESSION_TURNS_CACHE_LIMIT
    ensures MapOf(merged) == NewestK(MapOf(current) + MapOf(next), SESSION_TURNS_CACHE_LIMIT)
  {
    hide TopK, MapOf, NewestK;
    var byKey, order := FillByKey(map[], [], current);
    assert byKey == MapOf(current);
    byKey, order := FillByKey(byKey, order, next);
    var sorted := TrimSorted(order);
    merged := seq(|sorted|,
                  i requires 0 <= i < |sorted| && sorted[i] in byKey => NumberedTurn(sorted[i], byKey[sorted[i]]));
    assert Numbers(merged) == sorted;
    TrimmedMap(byKey, sorted, merged);
  }

  method TrimSorted(order: seq<int>) returns (sorted: seq<int>)
    requires Distinct(order)
    ensures Ascending(sorted) && |sorted| <= SESSION_TURNS_CACHE_LIMIT
    ensures Members(sorted) == TopK(Members(order), SESSION_TURNS_CACHE_LIMIT)
    ensures forall i | 0 <= i < |sorted| :: sorted[i] in Members(order)
  {
    hide TopK;
    sorted := SortAscending(order);
    assert Members(sorted) == Members(order);
    AscendingCount(sorted);
    TopKSize(Members(order), SESSION_TURNS_CACHE_LIMIT);
    if |sorted| > SESSION_TURNS_CACHE_LIMIT {
      NewestBack(sorted, SESSION_TURNS_CACHE_LIMIT);
      sorted := sorted[|sorted| - SESSION_TURNS_CACHE_LIMIT..];
    }
  }

  lemma {:induction false} TrimmedMap(byKey: map<int, string>, sorted: seq<int>, merged: seq<NumberedTurn>)
    requires Ascending(sorted) && Numbers(merged) == sorted
    requires Members(sorted) == TopK(byKey.Keys, SESSION_TURNS_CACHE_LIMIT)
    requires forall i | 0 <= i < |merged| :: merged[i].number in byKey && merged[i].payload == byKey[merged[i].number]
    ensures MapOf(merged) == NewestK(byKey, SESSION_TURNS_CACHE_LIMIT)
  {
    hide TopK, MapOf;
    var m := NewestK(byKey, SESSION_TURNS_CACHE_LIMIT);
    forall i | 0 <= i < |merged| ensures merged[i].number in m {
      assert Numbers(merged)[i] in Members(sorted);
    }
    CacheMapOfAscending(merged, m);
  }

  lemma NewestBack(q: seq<int>, k: nat)
    requires Ascending(q) && k <= |q|
    ensures Members(q[|q| - k..]) == TopK(Members(q), k)
  {
    hide TopK;
    NewestFront(q, k);
    assert q == q[..|q| - k] + q[|q| - k..];
    forall x | x in q[|q| - k..] ensures x in TopK(Members(q), k) {
      var i :| 0 <= i < k && q[|q| - k..][i] == x;
      RankInListing(q, |q| - k + i);
      TopKMember(Members(q), k, x);
    }
    forall x | x in TopK(Members(q), k) ensures x in q[|q| - k..] {
      assert x in q && x !in Members(q[..|q| - k]);
    }
  }

  /** What the cache holds after any series of responses. */
  ghost function CacheRun(cache: map<int, string>, responses: seq<map<int, string>>, k: nat): map<int, string>
    decreases |responses|
  {
    if responses == [] then cache else CacheRun(NewestK(cache + responses[0], k), responses[1..], k)
  }

  ghost function EverCached(responses: seq<map<int, string>>): map<int, string> {
    if responses == [] then map[] else responses[0] + EverCached(responses[1..])
  }

  /** The browser keeps the newest K of everything it was ever sent. */
  lemma {:induction false} CacheIsNewestK(cache: map<int, string>, responses: seq<map<int, string>>, k: nat)
    requires |cache| <= k
    ensures CacheRun(cache, responses, k) == NewestK(cache + EverCached(responses), k)
    decreases |responses|
  {
    hide NewestK;
    if responses == [] {
      assert cache + map[] == cache;
      NewestWithin(cache, k);
    } else {
      NewestWithin(cache + responses[0], k);
      CacheIsNewestK(NewestK(cache + responses[0], k), responses[1..], k);
      NewestFolds(cache, responses[0], EverCached(responses[1..]), k);
    }
  }
}
