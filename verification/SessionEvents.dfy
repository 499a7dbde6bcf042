/** Polling a session's turns: stored turns and transient ones behind a single cursor. */
module SessionEvents {
  import opened NumberedTurns
  import opened SeqSets

  const DEFAULT_LIMIT: nat := 100
  const MAX_LIMIT: nat := 500

  /** The page size. The store and the merge clamp the same request value the same way; 0 stands for none given. */
  function ClampLimit(value: int): (k: nat)
    ensures 1 <= k <= 500 && (1 <= value <= 500 ==> k == value)
    ensures (value < 1 ==> k == 100) && (value > 500 ==> k == 500)
  {
    if value <= 0 then DEFAULT_LIMIT else if value > MAX_LIMIT then MAX_LIMIT else value
  }

  /** Among transient turns the first of a number counts. */
  function FirstOf(turns: seq<NumberedTurn>): map<int, string> {
    if turns == [] then map[]
    else
      var m := FirstOf(turns[..|turns| - 1]);
      var last := turns[|turns| - 1];
      if last.number in m then m else m[last.number := last.payload]
  }

  lemma {:induction false} FirstOfIsFirst(turns: seq<NumberedTurn>, x: int)
    ensures x in FirstOf(turns) <==> exists i :: IsFirst(turns, i, x)
    ensures forall i | IsFirst(turns, i, x) :: x in FirstOf(turns) && FirstOf(turns)[x] == turns[i].payload
  {
    if turns == [] {
    } else {
      var front, n := turns[..|turns| - 1], |turns| - 1;
      FirstOfIsFirst(front, x);
      assert forall i | 0 <= i < n :: IsFirst(front, i, x) <==> IsFirst(turns, i, x);
      if turns[n].number == x && x !in FirstOf(front) {
        forall j | 0 <= j < n ensures turns[j].number != x {
          if turns[j].number == x {
            EarliestOf(front, j, x);
          }
        }
        assert IsFirst(turns, n, x);
      }
    }
  }

  /** Turn i is the first with number x. */
  ghost predicate IsFirst(turns: seq<NumberedTurn>, i: int, x: int) {
    0 <= i < |turns| && turns[i].number == x && forall j | 0 <= j < i :: turns[j].number != x
  }

  lemma {:induction false} EarliestOf(turns: seq<NumberedTurn>, i: nat, x: int)
    requires i < |turns| && turns[i].number == x
    ensures exists k :: IsFirst(turns, k, x)
  {
    if j :| 0 <= j < i && turns[j].number == x {
      EarliestOf(turns, j, x);
    } else {
      assert IsFirst(turns, i, x);
    }
  }

  function After(m: map<int, string>, afterSeq: int): map<int, string> { map x | x in m && x > afterSeq :: m[x] }

  /** All turns past the cursor, stored ones winning. */
  function Combined(stored: map<int, string>, transient: seq<NumberedTurn>, afterSeq: int): map<int, string> {
    After(FirstOf(transient), afterSeq) + After(stored, afterSeq)
  }

  /** out holds the k smallest turns of m, in order, with their payloads. */
  ghost predicate Page(out: seq<NumberedTurn>, m: map<int, string>, k: nat) {
    && FirstK(Numbers(out), m.Keys, k)
    && forall i | 0 <= i < |out| :: out[i].number in m && out[i].payload == m[out[i].number]
  }

  function TurnsAt(q: seq<int>, m: map<int, string>): (out: seq<NumberedTurn>)
    requires forall i | 0 <= i < |q| :: q[i] in m
    ensures Numbers(out) == q
    ensures forall i | 0 <= i < |out| :: out[i].number in m && out[i].payload == m[out[i].number]
  {
    var out := seq(|q|, i requires 0 <= i < |q| => NumberedTurn(q[i], m[q[i]]));
    assert Numbers(out) == q;
    out
  }

  /** Filter, sort ascending and cut. */
  method FirstPage(m: map<int, string>, k: nat) returns (out: seq<NumberedTurn>)
    ensures Page(out, m, k)
  {
    var keys := ListOf(m.Keys);
    var sorted := SortAscending(keys);
    assert Members(sorted) == Members(keys);
    FrontIsFirstK(sorted, k);
    assert forall i | 0 <= i < |sorted| :: sorted[i] in Members(sorted);
    out := TurnsAt(sorted[..(if |sorted| <= k then |sorted| else k)], m);
  }

  method ListSessionTurnsAfter(stored: map<int, string>, afterSeq: int, limit: int) returns (out: seq<NumberedTurn>)
    ensures Page(out, After(stored, afterSeq), ClampLimit(limit))
  {
    out := FirstPage(After(stored, afterSeq), ClampLimit(limit));
  }

  lemma {:induction false} MapOfPage(turns: seq<NumberedTurn>, m: map<int, string>)
    requires forall i | 0 <= i < |turns| :: turns[i].number in m && turns[i].payload == m[turns[i].number]
    ensures MapOf(turns).Keys == Members(Numbers(turns))
    ensures forall x | x in MapOf(turns) :: x in m && MapOf(turns)[x] == m[x]
  {
    if turns == [] {
    } else {
      MapOfPage(turns[..|turns| - 1], m);
      MembersOfFront(Numbers(turns));
      assert Numbers(turns[..|turns| - 1]) == Numbers(turns)[..|turns| - 1];
    }
  }

  /** Stored turns first, transient ones only where no turn is there yet; then sort and cut. */
  method MergeSessionTurnsWithTransientTurns(persisted: seq<NumberedTurn>, transient: seq<NumberedTurn>, afterSeq: int,
                                             limit: int)
    returns (out: seq<NumberedTurn>)
    ensures Page(out, After(FirstOf(transient), afterSeq) + After(MapOf(persisted), afterSeq), ClampLimit(limit))
  {
    hide Page, FirstOf, MapOf;
    var bySeq: map<int, string> := map[];
    NothingYet(persisted, transient, afterSeq);
    for i := 0 to |persisted|
      invariant bySeq == After(MapOf(persisted[..i]), afterSeq)
    {
      MapStep(persisted, i, afterSeq);
      if persisted[i].number > afterSeq {
        bySeq := bySeq[persisted[i].number := persisted[i].payload];
      }
    }
    assert persisted[..|persisted|] == persisted;
    ghost var base := bySeq;
    for i := 0 to |transient|
      invariant bySeq == After(FirstOf(transient[..i]), afterSeq) + base
    {
      FirstStep(transient, i, afterSeq);
      if transient[i].number > afterSeq && transient[i].number !in bySeq {
        bySeq := bySeq[transient[i].number := transient[i].payload];
      }
    }
    assert transient[..|transient|] == transient;
    out := FirstPage(bySeq, ClampLimit(limit));
  }

  lemma NothingYet(persisted: seq<NumberedTurn>, transient: seq<NumberedTurn>, afterSeq: int)
    ensures After(MapOf(persisted[..0]), afterSeq) == map[] && After(FirstOf(transient[..0]), afterSeq) == map[]
  {
  }

  lemma MapStep(turns: seq<NumberedTurn>, i: nat, afterSeq: int)
    requires i < |turns|
    ensures var t, m := turns[i], After(MapOf(turns[..i]), afterSeq);
            After(MapOf(turns[..i + 1]), afterSeq) == if t.number > afterSeq then m[t.number := t.payload] else m
  {
    assert turns[..i + 1][..i] == turns[..i];
  }

  lemma FirstStep(turns: seq<NumberedTurn>, i: nat, afterSeq: int)
    requires i < |turns|
    ensures var t, m := turns[i], After(FirstOf(turns[..i]), afterSeq);
            After(FirstOf(turns[..i + 1]), afterSeq) ==
            if t.number > afterSeq && t.number !in m then m[t.number := t.payload] else m
  {
    assert turns[..i + 1][..i] == turns[..i];
  }

  /** The poll: although the stored side is cut before the merge, the page is the front of all turns past the cursor. */
  method SessionEventsTurns(stored: map<int, string>, transient: seq<NumberedTurn>, afterSeq: int, limit: int)
    returns (turns: seq<NumberedTurn>, nextSeq: int)
    ensures Page(turns, Combined(stored, transient, afterSeq), ClampLimit(limit))
    ensures nextSeq == if turns == [] then afterSeq else turns[|turns| - 1].number
  {
    var persisted := ListSessionTurnsAfter(stored, afterSeq, limit);
    turns := MergeSessionTurnsWithTransientTurns(persisted, transient, afterSeq, limit);
    nextSeq := if |turns| > 0 then turns[|turns| - 1].number else afterSeq;
    CutSideIsEnough(stored, transient, afterSeq, ClampLimit(limit), persisted, turns);
  }

  lemma CutSideIsEnough(stored: map<int, string>, transient: seq<NumberedTurn>, afterSeq: int, k: nat,
                        persisted: seq<NumberedTurn>, turns: seq<NumberedTurn>)
    requires Page(persisted, After(stored, afterSeq), k)
    requires Page(turns, After(FirstOf(transient), afterSeq) + After(MapOf(persisted), afterSeq), k)
    ensures Page(turns, Combined(stored, transient, afterSeq), k)
  {
    hide FirstK, FirstOf, MapOf, After, Page;
    assert PageFacts(persisted, After(stored, afterSeq)) by {
      PageIsFacts(persisted, After(stored, afterSeq), k);
    }
    CutIsPastCursor(persisted, stored, afterSeq);
    MapOfPage(persisted, After(stored, afterSeq));
    CutMerge(persisted, After(stored, afterSeq), After(FirstOf(transient), afterSeq), MapOf(persisted), turns, k);
  }

  /** The turns of a page are turns of the table. */
  ghost predicate PageFacts(out: seq<NumberedTurn>, m: map<int, string>) {
    forall i | 0 <= i < |out| :: out[i].number in m && out[i].payload == m[out[i].number]
  }

  lemma PageIsFacts(out: seq<NumberedTurn>, m: map<int, string>, k: nat)
    requires Page(out, m, k)
    ensures PageFacts(out, m)
  {
  }

  /** Cutting the winning side a of a merge first does not change the merged page. */
  lemma CutMerge(persisted: seq<NumberedTurn>, a: map<int, string>, b: map<int, string>, cut: map<int, string>,
                 turns: seq<NumberedTurn>, k: nat)
    requires Page(persisted, a, k) && Page(turns, b + cut, k)
    requires cut.Keys == Members(Numbers(persisted)) && forall x | x in cut :: x in a && cut[x] == a[x]
    ensures Page(turns, b + a, k)
  {
    hide FirstK, Page, Numbers;
    MergedKeys(b, cut);
    MergedKeys(b, a);
    PageKeys(persisted, a, k);
    PageKeys(turns, b + cut, k);
    FirstKAbsorbs(Numbers(persisted), a.Keys, b.Keys, Numbers(turns), k);
    PageIsFacts(turns, b + cut, k);
    forall i | 0 <= i < |turns| ensures turns[i].number in b + a && turns[i].payload == (b + a)[turns[i].number] {
      if turns[i].number in a {
        StoredIsKept(persisted, a, b + cut, turns, k, i);
      }
    }
    assert Page(turns, b + a, k) by {
      PageFrom(turns, b + a, k);
    }
  }

  lemma MergedKeys(b: map<int, string>, a: map<int, string>)
    ensures (b + a).Keys == a.Keys + b.Keys
  {
  }

  lemma PageKeys(out: seq<NumberedTurn>, m: map<int, string>, k: nat)
    requires Page(out, m, k)
    ensures FirstK(Numbers(out), m.Keys, k)
  {
  }

  lemma PageFrom(out: seq<NumberedTurn>, m: map<int, string>, k: nat)
    requires FirstK(Numbers(out), m.Keys, k) && PageFacts(out, m)
    ensures Page(out, m, k)
  {
  }

  lemma CutIsPastCursor(persisted: seq<NumberedTurn>, stored: map<int, string>, afterSeq: int)
    requires forall i | 0 <= i < |persisted| ::
               persisted[i].number in After(stored, afterSeq)
               && persisted[i].payload == After(stored, afterSeq)[persisted[i].number]
    ensures After(MapOf(persisted), afterSeq) == MapOf(persisted)
  {
    MapOfPage(persisted, After(stored, afterSeq));
  }

  /** A stored turn that makes the page was not cut away, so no transient turn stands in for it. */
  lemma StoredIsKept(persisted: seq<NumberedTurn>, a: map<int, string>, merged: map<int, string>,
                     turns: seq<NumberedTurn>, k: nat, i: nat)
    requires Page(persisted, a, k) && Page(turns, merged, k) && i < |turns|
    requires forall x | x in Members(Numbers(persisted)) :: x in merged
    requires turns[i].number in a
    ensures turns[i].number in Members(Numbers(persisted))
  {
    var p, q := Members(Numbers(persisted)), Members(Numbers(turns));
    var x := turns[i].number;
    assert Numbers(turns)[i] == x;
    AscendingCount(Numbers(persisted));
    AscendingCount(Numbers(turns));
    SubsetSize(p, a.Keys);
    SubsetSize(p, merged.Keys);
    if p <= q {
      SubsetSize(p, q);
    } else {
      var z :| z in p && z !in q;
      assert z in merged.Keys && x in q;
      assert x < z;
    }
  }

  /** The numbers of a page are those of the table up to its last. */
  lemma PageIsFront(turns: seq<NumberedTurn>, c: map<int, string>, k: nat)
    requires k >= 1 && Page(turns, c, k)
    ensures turns == [] ==> forall x :: x !in c
    ensures turns != [] ==> forall x :: x in Numbers(turns) <==> x in c && x <= turns[|turns| - 1].number
  {
    var q := Numbers(turns);
    AscendingCount(q);
    if turns == [] {
    } else {
      var last := q[|q| - 1];
      forall x ensures x in q <==> x in c && x <= last {
        assert last in Members(q);
        assert x in q <==> x in Members(q);
        assert x in c <==> x in c.Keys;
      }
    }
  }

  /** What a page means for the client: it is sorted, holds every turn between the two cursors and nothing else,
      and moves the cursor whenever there is anything to deliver. */
  lemma NoTurnIsSkipped(turns: seq<NumberedTurn>, stored: map<int, string>, transient: seq<NumberedTurn>, afterSeq: int,
                        k: nat, nextSeq: int)
    requires k >= 1 && Page(turns, Combined(stored, transient, afterSeq), k)
    requires nextSeq == if turns == [] then afterSeq else turns[|turns| - 1].number
    ensures forall x :: x in Numbers(turns) <==> afterSeq < x <= nextSeq && (x in stored || x in FirstOf(transient))
    ensures forall i | 0 <= i < |turns| :: turns[i].number in stored ==> turns[i].payload == stored[turns[i].number]
    ensures forall i, j | 0 <= i < |turns| && turns[i].number !in stored && IsFirst(transient, j, turns[i].number) ::
              turns[i].payload == transient[j].payload
    ensures nextSeq == afterSeq <==> forall x | x in stored || x in FirstOf(transient) :: x <= afterSeq
  {
    var c := Combined(stored, transient, afterSeq);
    assert PageFacts(turns, c);
    forall i | 0 <= i < |turns| && turns[i].number !in stored
      ensures forall j | IsFirst(transient, j, turns[i].number) :: turns[i].payload == transient[j].payload
    {
      FirstOfIsFirst(transient, turns[i].number);
    }
    forall x ensures x in c <==> x > afterSeq && (x in stored || x in FirstOf(transient)) {
    }
    PageIsFront(turns, c, k);
    hide FirstOf, FirstK, Page, Combined;
    assert turns != [] ==> turns[|turns| - 1].number in c;
    if turns == [] {
      forall x | x in stored || x in FirstOf(transient) ensures x <= afterSeq {
        assert x !in c;
      }
    }
  }
}
