/** One user's catalog change log: appended to with debounced in-place rewriting, read in
    change-id order, and merged by the browser. */
module CatalogLog {
  import opened Maps
  import opened SeqSets

  datatype Key = Key(device: int, session: int)
  datatype Row = Row(key: Key, updatedAt: int, body: string)
  datatype Op = Upsert(row: Row) | Delete
  datatype Change = Change(id: int, key: Key, createdAt: int, op: Op)
  type Catalog = map<Key, Row>

  const MAX_LOG: nat := 10000

  // ---- What a list of changes does to a catalog

  function Effect(c: Change): Option<Row> { if c.op.Delete? then None else Some(c.op.row) }

  function Apply(m: Catalog, c: Change): Catalog { if c.op.Delete? then m - {c.key} else m[c.key := c.op.row] }

  /** The changes replayed one after the other. */
  function Replay(m: Catalog, changes: seq<Change>): Catalog {
    if changes == [] then m else Apply(Replay(m, changes[..|changes| - 1]), changes[|changes| - 1])
  }

  /** The position of the last change of key k, or -1. */
  function LastOf(changes: seq<Change>, k: Key): (i: int)
    ensures -1 <= i < |changes|
    ensures i >= 0 ==> changes[i].key == k
    ensures forall j | i < j < |changes| :: changes[j].key != k
  {
    if changes == [] then -1
    else if changes[|changes| - 1].key == k then |changes| - 1
    else LastOf(changes[..|changes| - 1], k)
  }

  /** A replay leaves at each key the effect of its last change. */
  lemma {:induction false} ReplayAt(m: Catalog, changes: seq<Change>, k: Key)
    ensures Get(Replay(m, changes), k) ==
            if LastOf(changes, k) < 0 then Get(m, k) else Effect(changes[LastOf(changes, k)])
  {
    if changes == [] {
    } else {
      ReplayAt(m, changes[..|changes| - 1], k);
    }
  }

  // ---- Writing the log

  ghost predicate AscendingIds(rows: seq<Change>) { forall i, j | 0 <= i < j < |rows| :: rows[i].id < rows[j].id }

  ghost predicate UniqueIds(log: seq<Change>) { forall i, j | 0 <= i < j < |log| :: log[i].id != log[j].id }

  /** Well-typed changes: an upsert carries the row of its own key. */
  ghost predicate KeysMatch(rows: seq<Change>) {
    forall c | c in rows :: c.op.Upsert? ==> c.op.row.key == c.key
  }

  /** log' is log with rows written to it: nothing else enters, changes of other keys stay, and the last of the
      rows of each key is there. Which older changes of the same keys are gone is left open. */
  ghost predicate Absorbed(log: seq<Change>, rows: seq<Change>, log': seq<Change>) {
    && (forall c | c in log' :: c in log || c in rows)
    && (forall c | c in log :: LastOf(rows, c.key) < 0 ==> c in log')
    && (forall k {:trigger LastOf(rows, k)} :: LastOf(rows, k) >= 0 ==> rows[LastOf(rows, k)] in log')
  }

  function WithinDebounce(left: Change, right: Change, debounceMs: nat): bool {
    right.createdAt >= left.createdAt && right.createdAt - left.createdAt <= debounceMs
  }

  lemma LastOfMember(rows: seq<Change>, c: Change)
    requires c in rows
    ensures LastOf(rows, c.key) >= 0
    ensures AscendingIds(rows) ==> c.id <= rows[LastOf(rows, c.key)].id
  {
    var j :| 0 <= j < |rows| && rows[j] == c;
    assert j <= LastOf(rows, c.key);
  }

  lemma LastOfStep(rows: seq<Change>, i: nat, k: Key)
    requires i < |rows|
    ensures LastOf(rows[..i + 1], k) == if rows[i].key == k then i else LastOf(rows[..i], k)
  {
    assert rows[..i + 1][..i] == rows[..i];
  }

  /** Writing one more row, at a free place or over an older change of the same key, keeps the log absorbed. */
  lemma AbsorbStep(log: seq<Change>, rows: seq<Change>, i: nat, log': seq<Change>, log'': seq<Change>)
    requires i < |rows| && Absorbed(log, rows[..i], log')
    requires rows[i] in log''
    requires forall c | c in log'' :: c in log' || c == rows[i]
    requires forall c | c in log' && c.key != rows[i].key :: c in log''
    ensures Absorbed(log, rows[..i + 1], log'')
  {
    hide LastOf;
    forall k ensures LastOf(rows[..i + 1], k) == if rows[i].key == k then i else LastOf(rows[..i], k) {
      LastOfStep(rows, i, k);
    }
    assert rows[..i + 1] == rows[..i] + [rows[i]];
    forall k {:trigger LastOf(rows[..i + 1], k)} | LastOf(rows[..i + 1], k) >= 0
      ensures rows[..i + 1][LastOf(rows[..i + 1], k)] in log''
    {
      if rows[i].key != k {
        assert rows[..i][LastOf(rows[..i], k)].key == k;
      }
    }
  }

  /** The row to overwrite at place p. */
  lemma ReplacePlace(log: seq<Change>, p: nat, row: Change)
    requires p < |log| && log[p].key == row.key
    ensures row in log[p := row]
    ensures forall c | c in log[p := row] :: c in log || c == row
    ensures forall c | c in log && c.key != row.key :: c in log[p := row]
  {
    var next := log[p := row];
    assert next[p] == row;
    forall c | c in log && c.key != row.key ensures c in next {
      var i :| 0 <= i < |log| && log[i] == c;
      assert next[i] == c;
    }
  }

  lemma ReplaceKeepsIds(log: seq<Change>, p: nat, row: Change)
    requires p < |log| && UniqueIds(log) && forall c | c in log :: c.id != row.id
    ensures UniqueIds(log[p := row])
  {
  }

  lemma PushKeepsIds(log: seq<Change>, row: Change)
    requires UniqueIds(log) && forall c | c in log :: c.id != row.id
    ensures UniqueIds(log + [row])
  {
  }

  /** All ids of the changes are below the row's. */
  ghost predicate OlderThan(log: seq<Change>, id: int) { forall c | c in log :: c.id < id }

  /** The ids of log come from older writes or from the first i rows. */
  lemma FreshId(log: seq<Change>, rows: seq<Change>, i: nat, log': seq<Change>)
    requires i < |rows| && AscendingIds(rows) && Absorbed(log, rows[..i], log') && OlderThan(log, rows[0].id)
    ensures forall c | c in log' :: c.id != rows[i].id
  {
    forall c | c in log' ensures c.id != rows[i].id {
      if c in rows[..i] {
        var j :| 0 <= j < i && rows[j] == c;
      } else {
        assert c in log && rows[0].id <= rows[i].id;
      }
    }
  }

  /** Two absorptions in a row, when the second writes a coalesced form of the rows. */
  lemma AbsorbCoalesced(log: seq<Change>, rows: seq<Change>, out: seq<Change>, log': seq<Change>)
    requires Absorbed([], rows, out) && Absorbed(log, out, log')
    requires UniqueLast(rows, out)
    ensures Absorbed(log, rows, log')
  {
    forall c | c in log && LastOf(rows, c.key) < 0 ensures LastOf(out, c.key) < 0 {
      assert forall x | x in out :: x in rows;
    }
  }

  /** The last change of a key in the coalesced form is the last one of the input. */
  ghost predicate UniqueLast(rows: seq<Change>, out: seq<Change>) {
    forall k {:trigger LastOf(rows, k)} :: LastOf(rows, k) >= 0 ==>
      LastOf(out, k) >= 0 && out[LastOf(out, k)] == rows[LastOf(rows, k)]
  }

  /** The index of the coalescing loop points at the last change of each key in out that is an upsert. */
  ghost predicate OpenUpserts(index: map<Key, int>, out: seq<Change>) {
    forall k ::
      if LastOf(out, k) >= 0 && out[LastOf(out, k)].op.Upsert? then k in index && index[k] == LastOf(out, k)
      else k !in index
  }

  lemma LastOfReplaced(out: seq<Change>, p: nat, row: Change, k: Key)
    requires p < |out| && out[p].key == row.key
    ensures LastOf(out[p := row], k) == LastOf(out, k)
  {
    var next := out[p := row];
    var i, j := LastOf(out, k), LastOf(next, k);
    assert forall q | 0 <= q < |out| :: next[q].key == out[q].key;
    assert i >= 0 ==> next[i].key == k;
    assert j >= 0 ==> out[j].key == k;
  }

  lemma LastOfPushed(out: seq<Change>, row: Change, k: Key)
    ensures LastOf(out + [row], k) == if row.key == k then |out| else LastOf(out, k)
  {
    assert (out + [row])[..|out|] == out;
  }

  /** out stands for the rows: only rows, the last of each key, no id twice. */
  ghost predicate Coalesced(rows: seq<Change>, out: seq<Change>) {
    Absorbed([], rows, out) && UniqueLast(rows, out) && UniqueIds(out)
  }

  lemma CoalesceReplace(rows: seq<Change>, i: nat, out: seq<Change>, p: nat)
    requires i < |rows| && p < |out| && AscendingIds(rows) && Coalesced(rows[..i], out)
    requires out[p].key == rows[i].key && LastOf(out, rows[i].key) == p
    ensures Coalesced(rows[..i + 1], out[p := rows[i]])
  {
    hide LastOf;
    var next := out[p := rows[i]];
    FreshId([], rows, i, out);
    ReplacePlace(out, p, rows[i]);
    ReplaceKeepsIds(out, p, rows[i]);
    AbsorbStep([], rows, i, out, next);
    forall k {:trigger LastOf(rows[..i + 1], k)} ensures LastOf(rows[..i + 1], k) >= 0 ==>
      LastOf(next, k) >= 0 && next[LastOf(next, k)] == rows[..i + 1][LastOf(rows[..i + 1], k)] {
      LastOfStep(rows, i, k);
      LastOfReplaced(out, p, rows[i], k);
      assert LastOf(rows[..i], k) >= 0 ==> LastOf(out, k) >= 0;
    }
  }

  lemma CoalescePush(rows: seq<Change>, i: nat, out: seq<Change>)
    requires i < |rows| && AscendingIds(rows) && Coalesced(rows[..i], out)
    ensures Coalesced(rows[..i + 1], out + [rows[i]])
  {
    hide LastOf;
    var next := out + [rows[i]];
    FreshId([], rows, i, out);
    PushKeepsIds(out, rows[i]);
    AbsorbStep([], rows, i, out, next);
    forall k {:trigger LastOf(rows[..i + 1], k)} ensures LastOf(rows[..i + 1], k) >= 0 ==>
      LastOf(next, k) >= 0 && next[LastOf(next, k)] == rows[..i + 1][LastOf(rows[..i + 1], k)] {
      LastOfStep(rows, i, k);
      LastOfPushed(out, rows[i], k);
      assert LastOf(rows[..i], k) >= 0 ==> LastOf(out, k) >= 0;
    }
  }

  lemma OpenUpsertsReplace(index: map<Key, int>, out: seq<Change>, p: nat, row: Change)
    requires OpenUpserts(index, out) && p < |out| && out[p].key == row.key
    requires LastOf(out, row.key) == p && out[p].op.Upsert? && row.op.Upsert?
    ensures OpenUpserts(index, out[p := row])
  {
    hide LastOf;
    forall k ensures LastOf(out[p := row], k) == LastOf(out, k) {
      LastOfReplaced(out, p, row, k);
    }
  }

  lemma OpenUpsertsPush(index: map<Key, int>, out: seq<Change>, row: Change)
    requires OpenUpserts(index, out)
    ensures OpenUpserts(if row.op.Upsert? then index[row.key := |out|] else index - {row.key}, out + [row])
  {
    hide LastOf;
    var next := if row.op.Upsert? then index[row.key := |out|] else index - {row.key};
    forall k ensures LastOf(out + [row], k) == if row.key == k then |out| else LastOf(out, k) {
      LastOfPushed(out, row, k);
    }
  }

  /** The next row of the key is an upsert that follows this upsert within the window. */
  ghost predicate Collapses(rows: seq<Change>, i: nat, debounceMs: nat)
    requires i < |rows|
  {
    exists j :: i < j < |rows| && IsNextOf(rows, i, j) && Follows(rows[i], rows[j], debounceMs)
  }

  ghost predicate IsNextOf(rows: seq<Change>, i: nat, j: nat)
    requires i < j < |rows|
  {
    rows[j].key == rows[i].key && forall k | i < k < j :: rows[k].key != rows[i].key
  }

  predicate Follows(left: Change, right: Change, debounceMs: nat) {
    left.op.Upsert? && right.op.Upsert? && left.createdAt <= right.createdAt <= left.createdAt + debounceMs
  }

  /** Of the first n rows exactly those are out that do not collapse into the next of their key. */
  ghost predicate OnlyCollapsed(rows: seq<Change>, n: nat, out: seq<Change>, debounceMs: nat)
    requires n <= |rows|
  {
    forall i | 0 <= i < n :: rows[i] in out <==> !Collapses(rows[..n], i, debounceMs)
  }

  /** Of all rows so far the next row lets at most one collapse: the last of its key. */
  lemma CollapsesNext(rows: seq<Change>, n: nat, i: nat, debounceMs: nat)
    requires i < n < |rows|
    ensures Collapses(rows[..n + 1], i, debounceMs) <==>
            || Collapses(rows[..n], i, debounceMs)
            || (LastOf(rows[..n], rows[n].key) == i && Follows(rows[i], rows[n], debounceMs))
  {
    hide LastOf, Follows;
    var a, b := rows[..n], rows[..n + 1];
    forall j | i < j < n ensures IsNextOf(b, i, j) <==> IsNextOf(a, i, j) {
    }
    assert IsNextOf(b, i, n) <==> LastOf(a, rows[n].key) == i by {
      LastIsNext(rows, n, i);
    }
    if Collapses(a, i, debounceMs) {
      var j :| i < j < |a| && IsNextOf(a, i, j) && Follows(a[i], a[j], debounceMs);
      assert IsNextOf(b, i, j);
    }
  }

  lemma LastIsNext(rows: seq<Change>, n: nat, i: nat)
    requires i < n < |rows|
    ensures IsNextOf(rows[..n + 1], i, n) <==> LastOf(rows[..n], rows[n].key) == i
  {
    assert forall k | 0 <= k < n :: rows[..n + 1][k] == rows[k] == rows[..n][k];
    assert rows[..n + 1][n] == rows[n];
  }

  lemma CollapseStep(rows: seq<Change>, n: nat, out: seq<Change>, debounceMs: nat)
    requires n < |rows| && AscendingIds(rows) && Coalesced(rows[..n], out) && OnlyCollapsed(rows, n, out, debounceMs)
    ensures var p := LastOf(out, rows[n].key);
            && (p >= 0 && Follows(out[p], rows[n], debounceMs) ==>
                  OnlyCollapsed(rows, n + 1, out[p := rows[n]], debounceMs))
            && (!(p >= 0 && Follows(out[p], rows[n], debounceMs)) ==>
                  OnlyCollapsed(rows, n + 1, out + [rows[n]], debounceMs))
  {
    hide LastOf, Follows, Collapses, Coalesced, AscendingIds, OnlyCollapsed;
    var row := rows[n];
    var p, l := LastOf(out, row.key), LastOf(rows[..n], row.key);
    LastOfMatch(rows[..n], out, row.key);
    CoalescedIds(rows[..n], out);
    var over := p >= 0 && Follows(out[p], row, debounceMs);
    var next := if over then out[p := row] else out + [row];
    forall i | 0 <= i < n + 1 ensures rows[i] in next <==> !Collapses(rows[..n + 1], i, debounceMs) {
      if i < n {
        CollapsesNext(rows, n, i, debounceMs);
        DistinctRows(rows, i, n);
        StillOut(rows, n, out, debounceMs, i);
        if over {
          InReplaced(out, p, row, rows[i]);
          DistinctRows(rows, i, l);
        }
      } else {
        LastNeverCollapses(rows[..n + 1], debounceMs);
        assert over ==> next[p] == row;
        assert !over ==> next[|out|] == row;
      }
    }
    OutAfter(rows, n + 1, next, debounceMs);
  }

  lemma CoalescedIds(rows: seq<Change>, out: seq<Change>)
    requires Coalesced(rows, out)
    ensures UniqueIds(out)
  {
  }

  lemma DistinctRows(rows: seq<Change>, i: nat, j: nat)
    requires AscendingIds(rows) && i < |rows| && j < |rows|
    ensures rows[i] == rows[j] <==> i == j
  {
  }

  lemma StillOut(rows: seq<Change>, n: nat, out: seq<Change>, debounceMs: nat, i: nat)
    requires i < n <= |rows| && OnlyCollapsed(rows, n, out, debounceMs)
    ensures rows[i] in out <==> !Collapses(rows[..n], i, debounceMs)
  {
  }

  lemma OutAfter(rows: seq<Change>, n: nat, out: seq<Change>, debounceMs: nat)
    requires n <= |rows| && forall i | 0 <= i < n :: rows[i] in out <==> !Collapses(rows[..n], i, debounceMs)
    ensures OnlyCollapsed(rows, n, out, debounceMs)
  {
  }

  lemma LastNeverCollapses(rows: seq<Change>, debounceMs: nat)
    requires rows != []
    ensures !Collapses(rows, |rows| - 1, debounceMs)
  {
  }

  lemma LastOfMatch(rows: seq<Change>, out: seq<Change>, k: Key)
    requires Coalesced(rows, out)
    ensures LastOf(out, k) >= 0 <==> LastOf(rows, k) >= 0
    ensures LastOf(out, k) >= 0 ==> out[LastOf(out, k)] == rows[LastOf(rows, k)]
  {
    if LastOf(out, k) >= 0 {
      var c := out[LastOf(out, k)];
      assert c in rows;
      var j :| 0 <= j < |rows| && rows[j] == c;
      assert j <= LastOf(rows, k);
    }
  }

  lemma InReplaced(out: seq<Change>, p: nat, row: Change, c: Change)
    requires p < |out| && UniqueIds(out) && c != row
    ensures c in out[p := row] <==> c in out && c != out[p]
  {
    if c in out && c != out[p] {
      var i :| 0 <= i < |out| && out[i] == c;
      assert out[p := row][i] == c;
    }
    if c in out[p := row] {
      var i :| 0 <= i < |out| && out[p := row][i] == c;
      assert out[i] == c && out[i].id != out[p].id;
    }
  }

  /** Everything is coalesced, and a row is left out exactly if it collapses into the next of its key. */
  method CoalesceSessionCatalogChangeRowsForWrite(rows: seq<Change>, debounceMs: nat) returns (out: seq<Change>)
    requires AscendingIds(rows)
    ensures Coalesced(rows, out)
    ensures debounceMs == 0 || |rows| <= 1 ==> out == rows
    ensures debounceMs > 0 ==> forall i | 0 <= i < |rows| :: rows[i] in out <==> !Collapses(rows, i, debounceMs)
  {
    hide LastOf, Coalesced, Coalescing, Collapses, AscendingIds;
    if debounceMs == 0 || |rows| <= 1 {
      NothingToCoalesce(rows, debounceMs);
      return rows;
    }
    out := [];
    var indexBySession: map<Key, int> := map[];
    NothingCoalesced(rows, debounceMs);
    for i := 0 to |rows|
      invariant Coalescing(rows, i, out, indexBySession, debounceMs)
    {
      var row := rows[i];
      OpenUpsertAt(rows, i, out, indexBySession, debounceMs);
      if row.op.Upsert? && row.key in indexBySession {
        var existing := out[indexBySession[row.key]];
        if existing.op.Upsert? && WithinDebounce(existing, row, debounceMs) {
          CoalesceOver(rows, i, out, indexBySession, debounceMs);
          out := out[indexBySession[row.key] := row];
          continue;
        }
      }
      CoalesceNew(rows, i, out, indexBySession, debounceMs);
      out := out + [row];
      if row.op.Upsert? {
        indexBySession := indexBySession[row.key := |out| - 1];
      } else {
        indexBySession := indexBySession - {row.key};
      }
    }
    AllCollapsed(rows, out, indexBySession, debounceMs);
  }

  lemma NothingToCoalesce(rows: seq<Change>, debounceMs: nat)
    requires AscendingIds(rows)
    ensures Coalesced(rows, rows)
    ensures |rows| <= 1 ==> forall i | 0 <= i < |rows| :: rows[i] in rows && !Collapses(rows, i, debounceMs)
  {
    hide LastOf;
  }

  /** Where the coalescing loop stands after n rows. */
  ghost predicate Coalescing(rows: seq<Change>, n: nat, out: seq<Change>, index: map<Key, int>, debounceMs: nat)
    requires n <= |rows|
  {
    Coalesced(rows[..n], out) && OpenUpserts(index, out) && OnlyCollapsed(rows, n, out, debounceMs)
  }

  lemma CoalesceOver(rows: seq<Change>, i: nat, out: seq<Change>, index: map<Key, int>, debounceMs: nat)
    requires i < |rows| && AscendingIds(rows) && Coalescing(rows, i, out, index, debounceMs) && rows[i].key in index
    requires 0 <= index[rows[i].key] < |out| && Follows(out[index[rows[i].key]], rows[i], debounceMs)
    ensures Coalescing(rows, i + 1, out[index[rows[i].key] := rows[i]], index, debounceMs)
  {
    hide LastOf, Coalesced, OnlyCollapsed, AscendingIds;
    var p := index[rows[i].key];
    assert LastOf(out, rows[i].key) == p && out[p].key == rows[i].key;
    CollapseStep(rows, i, out, debounceMs);
    CoalesceReplace(rows, i, out, p);
    OpenUpsertsReplace(index, out, p, rows[i]);
  }

  lemma CoalesceNew(rows: seq<Change>, i: nat, out: seq<Change>, index: map<Key, int>, debounceMs: nat)
    requires i < |rows| && AscendingIds(rows) && Coalescing(rows, i, out, index, debounceMs)
    requires rows[i].key in index ==>
               0 <= index[rows[i].key] < |out| && !Follows(out[index[rows[i].key]], rows[i], debounceMs)
    ensures Coalescing(rows, i + 1, out + [rows[i]],
                       if rows[i].op.Upsert? then index[rows[i].key := |out|] else index - {rows[i].key}, debounceMs)
  {
    hide LastOf, Coalesced, OnlyCollapsed, AscendingIds;
    CollapseStep(rows, i, out, debounceMs);
    CoalescePush(rows, i, out);
    OpenUpsertsPush(index, out, rows[i]);
    assert rows[i].key !in index ==>
      !(LastOf(out, rows[i].key) >= 0 && Follows(out[LastOf(out, rows[i].key)], rows[i], debounceMs));
  }

  lemma AllCollapsed(rows: seq<Change>, out: seq<Change>, index: map<Key, int>, debounceMs: nat)
    requires Coalescing(rows, |rows|, out, index, debounceMs)
    ensures Coalesced(rows, out) && forall i | 0 <= i < |rows| :: rows[i] in out <==> !Collapses(rows, i, debounceMs)
  {
    hide Coalesced, OpenUpserts;
    assert rows[..|rows|] == rows;
  }

  lemma NothingCoalesced(rows: seq<Change>, debounceMs: nat)
    ensures Coalescing(rows, 0, [], map[], debounceMs)
  {
  }

  lemma OpenUpsertAt(rows: seq<Change>, n: nat, out: seq<Change>, index: map<Key, int>, debounceMs: nat)
    requires n <= |rows| && Coalescing(rows, n, out, index, debounceMs)
    ensures forall k | k in index :: 0 <= index[k] < |out| && out[index[k]].op.Upsert?
  {
    hide LastOf;
    forall k | k in index ensures LastOf(out, k) == index[k] >= 0 {
    }
  }

  /** The change at the place is of the row's key, and at most the debounce window older. */
  predicate IsRecent(log: seq<Change>, place: int, row: Change, debounceMs: nat)
    requires 0 <= place < |log|
  {
    log[place].key == row.key && row.createdAt - debounceMs <= log[place].createdAt <= row.createdAt
  }

  ghost predicate IsLatestRecent(log: seq<Change>, place: int, row: Change, debounceMs: nat) {
    && 0 <= place < |log| && IsRecent(log, place, row, debounceMs)
    && forall j | place < j < |log| :: !IsRecent(log, j, row, debounceMs)
  }

  /** One row: an upsert takes the place of the latest recent change of its key if that is an upsert as well; any other
      goes to the end. */
  ghost predicate WrittenOne(log: seq<Change>, row: Change, debounceMs: nat, log': seq<Change>) {
    if row.op.Upsert? && debounceMs > 0 && exists p :: IsLatestRecent(log, p, row, debounceMs) && log[p].op.Upsert?
    then exists p :: IsLatestRecent(log, p, row, debounceMs) && log' == log[p := row]
    else log' == log + [row]
  }

  class SessionCatalogChanges {
    var changes: seq<Change>

    constructor ()
      ensures changes == []
    {
      changes := [];
    }

    /** From the newest place backwards: the first change of the row's key inside the debounce window. */
    method FindRecentSessionCatalogChange(row: Change, debounceMs: nat) returns (place: int)
      ensures -1 <= place < |changes|
      ensures place >= 0 ==> IsRecent(changes, place, row, debounceMs)
      ensures forall j | place < j < |changes| :: !IsRecent(changes, j, row, debounceMs)
    {
      var cutoff := row.createdAt - debounceMs;
      place := |changes| - 1;
      while place >= 0
        invariant -1 <= place < |changes|
        invariant forall j | place < j < |changes| :: !IsRecent(changes, j, row, debounceMs)
      {
        var existing := changes[place];
        if existing.key == row.key && existing.createdAt >= cutoff && existing.createdAt <= row.createdAt {
          return;
        }
        place := place - 1;
      }
    }

    /** Append, rewriting in place the recent upsert of a session, then keep the last MAX_LOG places. */
    method AppendSessionCatalogChangeRows(input: seq<Change>, debounceMs: nat) returns (ghost dropped: seq<Change>)
      requires AscendingIds(input) && UniqueIds(changes)
      requires input != [] ==> OlderThan(changes, input[0].id)
      modifies this
      ensures Written(old(changes), input, dropped + changes)
      ensures dropped != [] ==> |changes| == MAX_LOG
      ensures |changes| <= MAX_LOG
      ensures debounceMs == 0 ==> dropped + changes == old(changes) + input
      ensures |input| == 1 ==> WrittenOne(old(changes), input[0], debounceMs, dropped + changes)
    {
      hide LastOf, Written, Coalesced, OlderThan, Collapses, AscendingIds, UniqueIds, WrittenOne, Appending;
      var rows := CoalesceSessionCatalogChangeRowsForWrite(input, debounceMs);
      var recentBySession: map<Key, int> := map[];
      NothingWritten(changes, rows);
      NothingAppended(changes, rows, debounceMs);
      for i := 0 to |rows|
        invariant Written(old(changes), rows[..i], changes)
        invariant Appending(old(changes), rows, i, changes, recentBySession, debounceMs)
        invariant forall k | k in recentBySession ::
                    0 <= recentBySession[k] < |changes| && changes[recentBySession[k]].key == k
      {
        var row := rows[i];
        var recent := -1;
        if row.op.Upsert? && debounceMs > 0 {
          if row.key in recentBySession {
            recent := recentBySession[row.key];
          } else {
            recent := FindRecentSessionCatalogChange(row, debounceMs);
          }
        }
        if recent >= 0 && changes[recent].op.Upsert? {
          WriteOver(old(changes), input, rows, i, changes, recent);
          AppendOver(old(changes), rows, i, changes, recentBySession, debounceMs, recent);
          changes := changes[recent := row];
        } else {
          WriteNew(old(changes), input, rows, i, changes);
          AppendNew(old(changes), rows, i, changes, recentBySession, debounceMs, recent);
          changes := changes + [row];
          recentBySession := recentBySession[row.key := |changes| - 1];
        }
      }
      Appended(old(changes), input, rows, changes, recentBySession, debounceMs);
      WrittenCoalesced(old(changes), input, rows, changes);
      dropped := [];
      assert [] + changes == changes;
      if |changes| > MAX_LOG {
        var cut := |changes| - MAX_LOG;
        dropped := changes[..cut];
        assert changes == dropped + changes[cut..];
        changes := changes[cut..];
      }
    }
  }

  /** What the append loop has written after n rows, where that can be said without the rows themselves. */
  ghost predicate Appending(log: seq<Change>, rows: seq<Change>, n: nat, log': seq<Change>, recent: map<Key, int>,
                            debounceMs: nat)
    requires n <= |rows|
  {
    && (debounceMs == 0 ==> log' == log + rows[..n])
    && (n == 0 ==> log' == log && recent == map[])
    && (n == 1 ==> WrittenOne(log, rows[0], debounceMs, log'))
  }

  lemma NothingAppended(log: seq<Change>, rows: seq<Change>, debounceMs: nat)
    ensures Appending(log, rows, 0, log, map[], debounceMs)
  {
  }

  lemma AppendOver(log: seq<Change>, rows: seq<Change>, i: nat, log': seq<Change>, recent: map<Key, int>,
                   debounceMs: nat, place: nat)
    requires i < |rows| && Appending(log, rows, i, log', recent, debounceMs) && place < |log'| && debounceMs > 0
    requires rows[i].op.Upsert? && log'[place].op.Upsert?
    requires rows[i].key !in recent ==> IsLatestRecent(log', place, rows[i], debounceMs)
    ensures Appending(log, rows, i + 1, log'[place := rows[i]], recent, debounceMs)
  {
  }

  lemma AppendNew(log: seq<Change>, rows: seq<Change>, i: nat, log': seq<Change>, recent: map<Key, int>,
                  debounceMs: nat, place: int)
    requires i < |rows| && Appending(log, rows, i, log', recent, debounceMs)
    requires rows[i].op.Upsert? && debounceMs > 0 && rows[i].key !in recent ==>
               if place >= 0 then IsLatestRecent(log', place, rows[i], debounceMs) && !log'[place].op.Upsert?
               else forall j | 0 <= j < |log'| :: !IsRecent(log', j, rows[i], debounceMs)
    ensures Appending(log, rows, i + 1, log' + [rows[i]], recent[rows[i].key := |log'|], debounceMs)
  {
    assert rows[..i + 1] == rows[..i] + [rows[i]];
  }

  lemma Appended(log: seq<Change>, input: seq<Change>, rows: seq<Change>, log': seq<Change>, recent: map<Key, int>,
                 debounceMs: nat)
    requires Appending(log, rows, |rows|, log', recent, debounceMs)
    requires debounceMs == 0 || |input| <= 1 ==> rows == input
    ensures rows[..|rows|] == rows
    ensures debounceMs == 0 ==> log' == log + input
    ensures |input| == 1 ==> WrittenOne(log, input[0], debounceMs, log')
  {
    hide WrittenOne;
    assert rows[..|rows|] == rows;
  }

  /** What a write promises of the log before truncation. */
  ghost predicate Written(log: seq<Change>, rows: seq<Change>, log': seq<Change>) {
    Absorbed(log, rows, log') && UniqueIds(log')
  }

  lemma NothingWritten(log: seq<Change>, rows: seq<Change>)
    requires UniqueIds(log)
    ensures Written(log, rows[..0], log)
  {
  }

  lemma WriteOver(log: seq<Change>, input: seq<Change>, rows: seq<Change>, i: nat, log': seq<Change>, place: nat)
    requires AscendingIds(input) && (input != [] ==> OlderThan(log, input[0].id)) && Coalesced(input, rows)
    requires i < |rows| && Written(log, rows[..i], log') && place < |log'| && log'[place].key == rows[i].key
    ensures Written(log, rows[..i + 1], log'[place := rows[i]])
  {
    hide LastOf;
    FreshRow(log, input, rows, i, log');
    ReplacePlace(log', place, rows[i]);
    ReplaceKeepsIds(log', place, rows[i]);
    AbsorbStep(log, rows, i, log', log'[place := rows[i]]);
  }

  lemma WriteNew(log: seq<Change>, input: seq<Change>, rows: seq<Change>, i: nat, log': seq<Change>)
    requires AscendingIds(input) && (input != [] ==> OlderThan(log, input[0].id)) && Coalesced(input, rows)
    requires i < |rows| && Written(log, rows[..i], log')
    ensures Written(log, rows[..i + 1], log' + [rows[i]])
  {
    hide LastOf;
    FreshRow(log, input, rows, i, log');
    PushKeepsIds(log', rows[i]);
    AbsorbStep(log, rows, i, log', log' + [rows[i]]);
  }

  lemma WrittenCoalesced(log: seq<Change>, input: seq<Change>, rows: seq<Change>, log': seq<Change>)
    requires Coalesced(input, rows) && Written(log, rows, log')
    ensures Written(log, input, log')
  {
    AbsorbCoalesced(log, input, rows, log');
  }

  lemma FreshRow(log: seq<Change>, input: seq<Change>, rows: seq<Change>, i: nat, log': seq<Change>)
    requires AscendingIds(input) && (input != [] ==> OlderThan(log, input[0].id))
    requires Coalesced(input, rows) && i < |rows|
    requires Written(log, rows[..i], log')
    ensures forall c | c in log' :: c.id != rows[i].id
  {
    hide LastOf;
    assert rows[i] in input;
    forall c | c in log' ensures c.id != rows[i].id {
      if c in rows[..i] {
        var j :| 0 <= j < i && rows[j] == c;
      } else {
        var j :| 0 <= j < |input| && input[j] == rows[i];
        assert c in log && input[0].id <= input[j].id;
      }
    }
  }
}
