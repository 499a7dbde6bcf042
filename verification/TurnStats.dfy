/** The turn-window summary cached on a session row, and the set of stored turn numbers
    it stands for.

    `Recount` is what the store's query computes; everything else is a cheaper way to
    the same four numbers, and each is proved to agree with it. */
module TurnStats {
  import opened Maps
  import opened SeqSets

  /** count, min_seq, max_seq and latest_contiguous_min_seq; a missing field reads as 0. */
  datatype Stats = Stats(count: int, minSeq: int, maxSeq: int, latestContiguousMinSeq: int)

  /** What an upload is known by: how many turns, and their extreme numbers. */
  datatype UploadStats = UploadStats(count: int, minSeq: int, maxSeq: int)

  datatype MergeResult = RequiresFullStats | Merged(stats: Stats)

  ghost function Recount(s: set<int>): Stats
    requires Positive(s)
  {
    if s == {} then Stats(0, 0, 0, 0)
    else Stats(|s|, MinOf(s), MaxOf(s), RunStart(s, MaxOf(s)))
  }

  ghost function Summary(u: set<int>): UploadStats {
    if u == {} then UploadStats(0, 0, 0) else UploadStats(|u|, MinOf(u), MaxOf(u))
  }

  function Min(a: int, b: int): int { if a < b then a else b }

  function Max(a: int, b: int): int { if a > b then a else b }

  /** One pass over an upload; turns without a positive number are counted but set no extreme. */
  method SummarizeUpload(seqs: seq<int>) returns (u: UploadStats)
    ensures var p := set x | x in seqs && x > 0;
            u == UploadStats(|seqs|, if p == {} then 0 else MinOf(p), if p == {} then 0 else MaxOf(p))
    ensures Distinct(seqs) && Positive(Members(seqs)) ==> u == Summary(Members(seqs))
  {
    hide MinOf, MaxOf;
    u := UploadStats(0, 0, 0);
    for i := 0 to |seqs|
      invariant u.count == i
      invariant u.minSeq == 0 <==> forall j | 0 <= j < i :: seqs[j] <= 0
      invariant u.minSeq >= 0 && (u.minSeq == 0 <==> u.maxSeq == 0)
      invariant u.minSeq > 0 ==> u.minSeq in seqs[..i] && u.maxSeq in seqs[..i]
      invariant forall j | 0 <= j < i && seqs[j] > 0 :: u.minSeq <= seqs[j] <= u.maxSeq
    {
      var q := seqs[i];
      u := u.(count := u.count + 1);
      if q > 0 {
        u := u.(minSeq := if u.minSeq > 0 then Min(u.minSeq, q) else q, maxSeq := Max(u.maxSeq, q));
      }
    }
    ghost var p := set x | x in seqs && x > 0;
    if u.minSeq == 0 {
      assert p == {};
    } else {
      assert u.minSeq in p && u.maxSeq in p;
      assert MinOf(p) in p && MaxOf(p) in p;
    }
    if Distinct(seqs) && Positive(Members(seqs)) {
      DistinctCount(seqs);
      assert p == Members(seqs);
    }
  }

  // ---- The incremental merge

  function MergeUploadedTurnStats(existing: Stats, uploaded: UploadStats): MergeResult {
    if uploaded.count <= 0 || uploaded.minSeq <= 0 || uploaded.maxSeq <= 0 || uploaded.maxSeq < uploaded.minSeq then
      RequiresFullStats
    else if uploaded.count < uploaded.maxSeq - uploaded.minSeq + 1 then RequiresFullStats
    else
      var currentLatest :=
        if existing.latestContiguousMinSeq != 0 then existing.latestContiguousMinSeq else existing.minSeq;
      if existing.count <= 0 || existing.minSeq <= 0 || existing.maxSeq <= 0 || existing.maxSeq < existing.minSeq then
        Merged(Stats(uploaded.count, uploaded.minSeq, uploaded.maxSeq, uploaded.minSeq))
      else
        var currentSpan := existing.maxSeq - existing.minSeq + 1;
        var currentRangeIsComplete := existing.count >= currentSpan;
        var disjointBelow := uploaded.maxSeq < existing.minSeq;
        var disjointAbove := uploaded.minSeq > existing.maxSeq;
        if !currentRangeIsComplete && !disjointBelow && !disjointAbove then RequiresFullStats
        else
          var below := if uploaded.minSeq < existing.minSeq
                       then Min(uploaded.maxSeq, existing.minSeq - 1) - uploaded.minSeq + 1 else 0;
          var above := if uploaded.maxSeq > existing.maxSeq
                       then uploaded.maxSeq - Max(uploaded.minSeq, existing.maxSeq + 1) + 1 else 0;
          var nextMinSeq := Min(existing.minSeq, uploaded.minSeq);
          var nextMaxSeq := Max(existing.maxSeq, uploaded.maxSeq);
          var nextCount := existing.count + below + above;
          var nextSpan := nextMaxSeq - nextMinSeq + 1;
          var latest :=
            if uploaded.maxSeq > existing.maxSeq then
              if uploaded.minSeq <= existing.maxSeq + 1 then Min(uploaded.minSeq, currentLatest) else uploaded.minSeq
            else if uploaded.minSeq <= currentLatest && uploaded.maxSeq >= existing.maxSeq then uploaded.minSeq
            else if uploaded.maxSeq >= currentLatest - 1 && uploaded.minSeq <= currentLatest
            then Min(uploaded.minSeq, currentLatest)
            else currentLatest;
          Merged(Stats(Min(nextCount, nextSpan), nextMinSeq, nextMaxSeq,
                       if nextCount >= nextSpan then nextMinSeq else latest))
  }

  /** s holds every number from its minimum to its maximum. */
  ghost predicate Gapless(s: set<int>) {
    s != {} ==> s == Interval(MinOf(s), MaxOf(s))
  }

  lemma {:induction false} GaplessByCount(s: set<int>)
    requires s != {}
    ensures |s| >= MaxOf(s) - MinOf(s) + 1 <==> Gapless(s)
    ensures |s| <= MaxOf(s) - MinOf(s) + 1
  {
    WithinInterval(s, MinOf(s), MaxOf(s));
    IntervalSize(MinOf(s), MaxOf(s));
  }

  lemma UnionExtremes(s: set<int>, u: set<int>)
    requires s != {} && u != {}
    ensures MinOf(s + u) == Min(MinOf(s), MinOf(u)) && MaxOf(s + u) == Max(MaxOf(s), MaxOf(u))
  {
    var m, n := MinOf(s + u), MaxOf(s + u);
    assert MinOf(s) in s + u && MinOf(u) in s + u && MaxOf(s) in s + u && MaxOf(u) in s + u;
    assert m in s || m in u;
    assert n in s || n in u;
  }

  lemma OutsideIsTwoIntervals(a: int, b: int, lo: int, hi: int)
    requires a <= b && lo <= hi
    ensures Interval(a, b) - Interval(lo, hi) == Interval(a, Min(b, lo - 1)) + Interval(Max(a, hi + 1), b)
    ensures Interval(a, Min(b, lo - 1)) !! Interval(Max(a, hi + 1), b)
  {
    hide Interval;
  }

  function Below(a: int, b: int, lo: int): int { if a < lo then Min(b, lo - 1) - a + 1 else 0 }

  function Over(a: int, b: int, hi: int): int { if b > hi then b - Max(a, hi + 1) + 1 else 0 }

  /** How many members of the interval a..b lie outside the interval lo..hi. */
  lemma OutsideSize(a: int, b: int, lo: int, hi: int)
    requires a <= b && lo <= hi
    ensures |Interval(a, b) - Interval(lo, hi)| == Below(a, b, lo) + Over(a, b, hi)
  {
    hide Interval;
    OutsideIsTwoIntervals(a, b, lo, hi);
    IntervalSize(a, Min(b, lo - 1));
    IntervalSize(Max(a, hi + 1), b);
  }

  /** How many turns an upload of the full interval a..b adds to s. */
  lemma UnionSize(s: set<int>, a: int, b: int)
    requires s != {} && a <= b
    requires Gapless(s) || b < MinOf(s) || a > MaxOf(s)
    ensures |s + Interval(a, b)| == |s| + Below(a, b, MinOf(s)) + Over(a, b, MaxOf(s))
  {
    hide Interval, MinOf, MaxOf;
    var u := Interval(a, b);
    assert s + u == s + (u - s);
    if Gapless(s) {
      OutsideSize(a, b, MinOf(s), MaxOf(s));
    } else {
      assert u - s == u;
      IntervalSize(a, b);
    }
  }

  /** What the merge is proved against: an upload of the full interval a..b on top of s. */
  ghost predicate Mergeable(s: set<int>, a: int, b: int) {
    Positive(s) && s != {} && 1 <= a <= b && (Gapless(s) || b < MinOf(s) || a > MaxOf(s))
  }

  lemma UnionFacts(s: set<int>, a: int, b: int)
    requires Mergeable(s, a, b)
    ensures var t := s + Interval(a, b);
            && Positive(t) && t != {}
            && MinOf(t) == Min(MinOf(s), a) && MaxOf(t) == Max(MaxOf(s), b)
            && |t| == |s| + Below(a, b, MinOf(s)) + Over(a, b, MaxOf(s))
            && |t| <= MaxOf(t) - MinOf(t) + 1
            && (|t| >= MaxOf(t) - MinOf(t) + 1 <==> Gapless(t))
  {
    hide Interval, MinOf, MaxOf;
    IntervalExtremes(a, b);
    UnionExtremes(s, Interval(a, b));
    UnionSize(s, a, b);
    GaplessByCount(s + Interval(a, b));
  }

  /** The start of the run that ends at the new maximum. */
  lemma {:induction false} UnionRun(s: set<int>, a: int, b: int, r: int)
    requires Mergeable(s, a, b)
    requires var run, hi := RunStart(s, MaxOf(s)), MaxOf(s);
             r == if b > hi then (if a <= hi + 1 then Min(a, run) else a)
                  else if a <= run && b >= hi then a
                  else if b >= run - 1 && a <= run then Min(a, run)
                  else run
    requires Positive(s + Interval(a, b)) && MaxOf(s + Interval(a, b)) == Max(MaxOf(s), b)
    ensures r == RunStart(s + Interval(a, b), Max(MaxOf(s), b))
  {
    hide Interval, MinOf, MaxOf, RunStart;
    var t, top := s + Interval(a, b), Max(MaxOf(s), b);
    assert IsRunStart(t, top, r);
    RunStartIsUnique(t, top, r, RunStart(t, top));
  }

  lemma {:induction false} GaplessRun(t: set<int>)
    requires Positive(t) && t != {} && Gapless(t)
    ensures RunStart(t, MaxOf(t)) == MinOf(t)
  {
    RunStartIsUnique(t, MaxOf(t), RunStart(t, MaxOf(t)), MinOf(t));
  }

  /** One step of interval arithmetic is a recount of the union. */
  lemma MergeOfInterval(s: set<int>, a: int, b: int)
    requires Mergeable(s, a, b)
    ensures Positive(s + Interval(a, b))
    ensures MergeUploadedTurnStats(Recount(s), UploadStats(b - a + 1, a, b)) == Merged(Recount(s + Interval(a, b)))
  {
    hide Interval, MinOf, MaxOf, RunStart, Gapless;
    var t := s + Interval(a, b);
    UnionFacts(s, a, b);
    GaplessByCount(s);
    var lo, hi := MinOf(s), MaxOf(s);
    var run := RunStart(s, hi);
    var r := if b > hi then (if a <= hi + 1 then Min(a, run) else a)
             else if a <= run && b >= hi then a
             else if b >= run - 1 && a <= run then Min(a, run)
             else run;
    UnionRun(s, a, b, r);
    if Gapless(t) {
      GaplessRun(t);
    }
    assert lo in s && hi in s && run in s && |s| > 0;
    MergeArithmetic(Stats(|s|, lo, hi, run), a, b, r, Stats(|t|, MinOf(t), MaxOf(t), RunStart(t, MaxOf(t))));
  }

  /** The merge's case analysis, once its inputs are known to be what they stand for. */
  lemma MergeArithmetic(row: Stats, a: int, b: int, r: int, next: Stats)
    requires row.count > 0 && 1 <= row.minSeq <= row.latestContiguousMinSeq <= row.maxSeq && 1 <= a <= b
    requires row.count >= row.maxSeq - row.minSeq + 1 || b < row.minSeq || a > row.maxSeq
    requires var run, hi := row.latestContiguousMinSeq, row.maxSeq;
             r == if b > hi then (if a <= hi + 1 then Min(a, run) else a)
                  else if a <= run && b >= hi then a
                  else if b >= run - 1 && a <= run then Min(a, run)
                  else run
    requires next.minSeq == Min(row.minSeq, a) && next.maxSeq == Max(row.maxSeq, b)
    requires next.count == row.count + Below(a, b, row.minSeq) + Over(a, b, row.maxSeq) <= next.maxSeq - next.minSeq + 1
    requires next.latestContiguousMinSeq == if next.count == next.maxSeq - next.minSeq + 1 then next.minSeq else r
    ensures MergeUploadedTurnStats(row, UploadStats(b - a + 1, a, b)) == Merged(next)
  {
  }

  lemma IntervalExtremes(a: int, b: int)
    requires a <= b
    ensures Interval(a, b) != {} && MinOf(Interval(a, b)) == a && MaxOf(Interval(a, b)) == b
  {
    assert a in Interval(a, b) && b in Interval(a, b);
  }

  /** The incremental merge refines a recount: on a row faithful to s and an upload of the turns u it either
      asks for the full query, exactly in the cases named, or gives the recount of the union. */
  lemma {:induction false} MergeRefinesRecount(s: set<int>, u: set<int>)
    requires Positive(s) && Positive(u)
    ensures Positive(s + u)
    ensures var m := MergeUploadedTurnStats(Recount(s), Summary(u));
            && (m.Merged? <==> u != {} && Gapless(u) &&
                               (s == {} || Gapless(s) || MaxOf(u) < MinOf(s) || MinOf(u) > MaxOf(s)))
            && (m.Merged? ==> m.stats == Recount(s + u))
  {
    hide Interval, MinOf, MaxOf, RunStart, Gapless;
    if u != {} {
      GaplessByCount(u);
      assert MinOf(u) in u && MaxOf(u) in u && |u| > 0;
      if s == {} {
        assert s + u == u;
        if Gapless(u) {
          GaplessRun(u);
        }
      } else {
        MergeIntoSome(s, u);
      }
    }
  }

  lemma MergeIntoSome(s: set<int>, u: set<int>)
    requires Positive(s) && Positive(u) && s != {} && u != {}
    ensures Positive(s + u)
    ensures var m := MergeUploadedTurnStats(Recount(s), Summary(u));
            && (m.Merged? <==> Gapless(u) && (Gapless(s) || MaxOf(u) < MinOf(s) || MinOf(u) > MaxOf(s)))
            && (m.Merged? ==> m.stats == Recount(s + u))
  {
    hide Interval, MinOf, MaxOf, RunStart, Gapless, MergeUploadedTurnStats, Recount, Summary;
    GaplessByCount(u);
    GaplessByCount(s);
    RecountOfSome(s);
    SummaryOfSome(u);
    if Gapless(u) && (Gapless(s) || MaxOf(u) < MinOf(s) || MinOf(u) > MaxOf(s)) {
      GaplessIsInterval(u);
      MergeOfInterval(s, MinOf(u), MaxOf(u));
    } else {
      NeedsFullStats(Recount(s), Summary(u));
    }
  }

  lemma RecountOfSome(s: set<int>)
    requires Positive(s) && s != {}
    ensures var row := Recount(s);
            row.count == |s| > 0 && row.minSeq == MinOf(s) && row.maxSeq == MaxOf(s) && 1 <= row.minSeq <= row.maxSeq
  {
    assert MinOf(s) in s && MaxOf(s) in s;
  }

  lemma SummaryOfSome(u: set<int>)
    requires Positive(u) && u != {}
    ensures Summary(u) == UploadStats(|u|, MinOf(u), MaxOf(u)) && |u| > 0 && 1 <= MinOf(u) <= MaxOf(u)
  {
    assert MinOf(u) in u && MaxOf(u) in u;
  }

  lemma NeedsFullStats(row: Stats, uploaded: UploadStats)
    requires row.count > 0 && 1 <= row.minSeq <= row.maxSeq && 1 <= uploaded.minSeq <= uploaded.maxSeq
    requires uploaded.count < uploaded.maxSeq - uploaded.minSeq + 1 ||
             (row.count < row.maxSeq - row.minSeq + 1 && uploaded.maxSeq >= row.minSeq && uploaded.minSeq <= row.maxSeq)
    ensures MergeUploadedTurnStats(row, uploaded).RequiresFullStats?
  {
  }

  lemma {:induction false} GaplessIsInterval(u: set<int>)
    requires u != {} && Gapless(u)
    ensures u == Interval(MinOf(u), MaxOf(u)) && |u| == MaxOf(u) - MinOf(u) + 1
  {
    GaplessByCount(u);
  }

  // ---- Syncs, prunes and the live sink, over whole runs

  /** The stored turn numbers of a session and the summary on its row. */
  datatype Session = Session(turns: set<int>, row: Stats)

  ghost predicate Faithful(x: Session) { Positive(x.turns) && x.row == Recount(x.turns) }

  /** One daemon sync whose changed turns of a known session are u: store them, prune to perSession, then update
      the row by the merge or, when it asks, by a query of the pruned store. The record is written when one of its
      fields differs: one of the four numbers, or another one the report sets (metadataChanged). The repair of pruned
      sessions runs last and skips the session when its record was written. */
  ghost function Sync(x: Session, u: set<int>, perSession: nat, metadataChanged: bool): Session
    requires Positive(x.turns) && Positive(u)
  {
    if u == {} then x
    else
      var turns := TopK(x.turns + u, perSession);
      var m := MergeUploadedTurnStats(x.row, Summary(u));
      var row := if m.Merged? then m.stats else Recount(turns);
      var pruned := turns != x.turns + u;
      var recordWritten := row != x.row || metadataChanged;
      Session(turns, if pruned && !recordWritten then Recount(turns) else row)
  }

  /** A sync keeps the row faithful exactly when nothing had to be pruned, the numbers were counted after the prune, or
      only known turns came in, so that the record stayed unwritten and was repaired. */
  lemma SyncStaysFaithfulIff(x: Session, u: set<int>, perSession: nat, metadataChanged: bool)
    requires Faithful(x) && Positive(u)
    ensures Faithful(Sync(x, u, perSession, metadataChanged)) <==>
            u == {} || |x.turns + u| <= perSession || (u <= x.turns && !metadataChanged) ||
            MergeUploadedTurnStats(x.row, Summary(u)).RequiresFullStats?
  {
    hide Interval, MinOf, MaxOf, RunStart, Gapless, MergeUploadedTurnStats, TopK;
    var s, t := x.turns, TopK(x.turns + u, perSession);
    MergeRefinesRecount(s, u);
    TopKSize(s + u, perSession);
    RecountCounts(t);
    RecountCounts(s + u);
    RecountCounts(s);
    SubsetSize(s, s + u);
    assert u <= s + u;
    if u <= s {
      assert s + u == s;
    }
  }

  /** For every window size the next turn after a full window breaks the row. */
  lemma PruneBreaksRow(perSession: nat, metadataChanged: bool)
    requires perSession >= 1
    ensures Positive(Interval(1, perSession)) && Positive({perSession + 1})
    ensures var x := Session(Interval(1, perSession), Recount(Interval(1, perSession)));
            Faithful(x) && !Faithful(Sync(x, {perSession + 1}, perSession, metadataChanged))
  {
    hide MinOf, MaxOf, RunStart, TopK, MergeUploadedTurnStats;
    var s, u := Interval(1, perSession), {perSession + 1};
    var x := Session(s, Recount(s));
    IntervalSize(1, perSession);
    assert perSession in s && perSession + 1 in u;
    assert MinOf(u) in u && MaxOf(u) in u && MaxOf(s) in s;
    MergeRefinesRecount(s, u);
    SyncStaysFaithfulIff(x, u, perSession, metadataChanged);
  }

  lemma RecountCounts(s: set<int>)
    requires Positive(s)
    ensures Recount(s).count == |s|
  {
  }

  /** The uploads of a run, each with whether it changes other fields of the record. */
  ghost function Run(x: Session, uploads: seq<(set<int>, bool)>, perSession: nat): Session
    requires Positive(x.turns) && forall i | 0 <= i < |uploads| :: Positive(uploads[i].0)
    ensures Positive(Run(x, uploads, perSession).turns)
    decreases |uploads|
  {
    if uploads == [] then x
    else
      Run(Sync(x, uploads[0].0, perSession, uploads[0].1), uploads[1..], perSession)
  }

  /** All turn numbers uploaded in a run. */
  ghost function Uploaded(uploads: seq<(set<int>, bool)>): set<int> {
    if uploads == [] then {} else uploads[0].0 + Uploaded(uploads[1..])
  }

  /** Over any run of syncs whose turns all fit in the hot window the row never drifts, and nothing is lost. */
  lemma {:induction false} RunStaysFaithful(x: Session, uploads: seq<(set<int>, bool)>, perSession: nat)
    requires Faithful(x) && forall i | 0 <= i < |uploads| :: Positive(uploads[i].0)
    requires |x.turns + Uploaded(uploads)| <= perSession
    ensures Faithful(Run(x, uploads, perSession))
    ensures Run(x, uploads, perSession).turns == x.turns + Uploaded(uploads)
    decreases |uploads|
  {
    hide Recount, MergeUploadedTurnStats, TopK;
    if uploads == [] {
      assert x.turns + {} == x.turns;
    } else {
      var u := uploads[0].0;
      assert x.turns + Uploaded(uploads) == (x.turns + u) + Uploaded(uploads[1..]);
      SubsetSize(x.turns + u, x.turns + Uploaded(uploads));
      SyncStaysFaithfulIff(x, u, perSession, uploads[0].1);
      TopKSize(x.turns + u, perSession);
      RunStaysFaithful(Sync(x, u, perSession, uploads[0].1), uploads[1..], perSession);
    }
  }

  /** The live event sink stores turns without touching the row. */
  ghost function LiveSink(x: Session, u: set<int>, perSession: nat): Session {
    Session(TopK(x.turns + u, perSession), x.row)
  }

  /** The turns u leave the window as it is exactly when each is stored already, or too old for a full window. */
  ghost predicate NothingNew(s: set<int>, u: set<int>, perSession: nat) {
    forall y | y in u :: y in s || (|s| == perSession && forall z | z in s :: y < z)
  }

  lemma KeptWindowIff(s: set<int>, u: set<int>, perSession: nat)
    requires |s| <= perSession
    ensures TopK(s + u, perSession) == s <==> NothingNew(s, u, perSession)
  {
    var k := perSession;
    var t := TopK(s + u, k);
    TopKSize(s + u, k);
    if t == s {
      forall y | y in u && y !in s ensures |s| == k && forall z | z in s :: y < z {
        assert y in s + u && y !in t;
        forall z | z in s ensures y < z {
          TopKIsUpper(s + u, k, z, y);
        }
      }
    }
    if NothingNew(s, u, k) {
      forall x | x in s ensures x in t {
        forall y | y in Above(s + u, x) ensures y in s - {x} {
        }
        SubsetSize(Above(s + u, x), s - {x});
      }
      forall y | y in s + u && y !in s ensures y !in t {
        SubsetSize(s, Above(s + u, y));
      }
      assert t == s;
    }
  }

  /** So the row stays faithful exactly when the sink has nothing new to store. */
  lemma LiveSinkStaysFaithfulIff(x: Session, u: set<int>, perSession: nat)
    requires Faithful(x) && Positive(u) && |x.turns| <= perSession
    ensures Faithful(LiveSink(x, u, perSession)) <==> NothingNew(x.turns, u, perSession)
  {
    hide RunStart, MinOf, MaxOf, NothingNew;
    var s := x.turns;
    var t := TopK(s + u, perSession);
    KeptWindowIff(s, u, perSession);
    if t != s && Recount(t) == Recount(s) {
      SameCountNewMinimum(s, u, perSession);
    }
  }

  /** One turn is stored, the next one arrives live, and there is room for both: the row still counts one. */
  lemma LiveSinkBreaksRow()
    ensures Positive({1})
    ensures var x := Session({1}, Recount({1}));
            Faithful(x) && !Faithful(LiveSink(x, {2}, 2))
  {
    hide Recount;
    LiveSinkStaysFaithfulIff(Session({1}, Recount({1})), {2}, 2);
    assert 2 in {2} && 2 !in {1};
  }

  lemma SameCountNewMinimum(s: set<int>, u: set<int>, k: nat)
    requires var t := TopK(s + u, k); t != s && |t| == |s| && s != {}
    ensures var t := TopK(s + u, k); t != {} && MinOf(t) != MinOf(s)
  {
    var t := TopK(s + u, k);
    if s <= t {
      SubsetSize(s, t);
    } else {
      var y :| y in s && y !in t;
      assert y in s + u;
      if MinOf(s) in t {
        TopKIsUpper(s + u, k, MinOf(s), y);
      }
    }
  }

  // ---- Where to load older turns from

  function NextBackfillBeforeSeq(row: Stats, total: int, hasOlderTurns: bool): int {
    var latest := if row.latestContiguousMinSeq != 0 then row.latestContiguousMinSeq else row.minSeq;
    if latest > 1 && (hasOlderTurns || total <= 0 || row.count < total) then latest
    else if row.minSeq > 1 && (hasOlderTurns || total <= 0 || row.count < total) then row.minSeq
    else if total > 0 && row.maxSeq > 0 && row.maxSeq < total then total + 1
    else 0
  }

  /** A cursor points just above a turn that is missing, and for turns within 1..total it is 0 exactly when
      all of them are there, whatever the has_older flag says. */
  lemma BackfillPointsAtGap(s: set<int>, total: int, hasOlderTurns: bool)
    requires Positive(s) && s != {}
    ensures var b := NextBackfillBeforeSeq(Recount(s), total, hasOlderTurns);
            && (b != 0 ==> b >= 2 && b - 1 !in s)
            && ((forall x | x in s :: x <= total) ==>
                  b <= total + 1 && (b == 0 <==> s == Interval(1, total)))
  {
    hide Interval, MinOf, MaxOf, RunStart;
    var lo, hi := MinOf(s), MaxOf(s);
    var run := RunStart(s, hi);
    assert lo in s && hi in s && run in s && lo <= run;
    if forall x | x in s :: x <= total {
      WithinInterval(s, 1, total);
      IntervalSize(1, total);
      assert run > 1 ==> run - 1 in Interval(1, total);
      assert hi < total ==> total in Interval(1, total) && total !in s;
      if run <= 1 && hi == total {
        assert s == Interval(1, total);
      }
    }
  }

  /** Which gap that is: below the latest run, while older turns are claimed, the total is unknown or not all are
      stored; else above the stored turns. So the gap below the oldest stored turn is left until the run reaches it. */
  lemma BackfillStartsAtRun(s: set<int>, total: int, hasOlderTurns: bool)
    requires Positive(s) && s != {}
    ensures var run := RunStart(s, MaxOf(s));
            NextBackfillBeforeSeq(Recount(s), total, hasOlderTurns) ==
            if run > 1 && (hasOlderTurns || total <= 0 || |s| < total) then run
            else if 0 < total && MaxOf(s) < total then total + 1
            else 0
  {
    hide MinOf, MaxOf, RunStart;
    var lo, hi := MinOf(s), MaxOf(s);
    assert lo in s && hi in s && RunStart(s, hi) in s && lo <= RunStart(s, hi);
  }

  /** Without the assumption that the catalog's total covers the stored turns, the exact stopping condition. */
  lemma {:induction false} BackfillStopsIff(s: set<int>, total: int, hasOlderTurns: bool)
    requires Positive(s) && s != {}
    ensures NextBackfillBeforeSeq(Recount(s), total, hasOlderTurns) == 0 <==>
            (s == Interval(1, MaxOf(s)) || (!hasOlderTurns && 0 < total <= |s|)) && !(0 < total && MaxOf(s) < total)
  {
    hide Interval, MinOf, MaxOf, RunStart;
    var lo, hi := MinOf(s), MaxOf(s);
    var run := RunStart(s, hi);
    assert lo in s && hi in s && run in s && lo <= run;
    assert run > 1 ==> run - 1 in Interval(1, hi);
    if run == 1 {
      assert s == Interval(1, hi);
    }
  }

  // ---- Answering the cursor

  /** daemonSyncSessionIsDurable: the turns of a session that reports an end below its total are not stored, nor those
      of one that was only catalogued and has just been opened. Numbers that are not reported read as 0. */
  predicate DaemonSyncSessionIsDurable(turnCount: int, maxSeq: int, syncedCount: Option<int>, openedBackfill: bool) {
    if turnCount <= 0 || maxSeq <= 0 then true
    else if maxSeq < turnCount then false
    else if syncedCount.None? then true
    else !(openedBackfill && syncedCount.value <= 0)
  }

  /** A session counts as opened for backfill only while none of its turns is stored. */
  predicate OpenedBackfill(turnCount: int, maxSeq: int, syncedCount: int, hinted: bool) {
    syncedCount <= 0 && turnCount > 0 && maxSeq > 0 && maxSeq >= turnCount && hinted
  }

  /** The guard turns away exactly a session that reports both numbers, and either an end below its total, or that it
      has just been opened without a turn stored. */
  lemma RefusedIff(turnCount: int, maxSeq: int, syncedCount: Option<int>, justOpened: bool, count: int,
                   hinted: bool)
    ensures !DaemonSyncSessionIsDurable(turnCount, maxSeq, syncedCount, justOpened) <==>
            && turnCount > 0 && maxSeq > 0
            && (maxSeq < turnCount || (syncedCount.Some? && syncedCount.value <= 0 && justOpened))
    ensures OpenedBackfill(turnCount, maxSeq, count, hinted) <==>
            hinted && count <= 0 && turnCount > 0 && maxSeq >= turnCount
  {
  }

  /** What a daemon sends for a cursor: the window from start up to the cursor, with turn_count and max_seq or without.
      The row's has_older flag, the open hint and the other fields of the record may be anything. */
  datatype Answer = Answer(start: int, reported: bool, hasOlder: bool, hinted: bool, metadataChanged: bool)

  ghost function Window(b: int, start: int): set<int> {
    if b <= 1 then {} else Interval(Max(1, Min(start, b - 1)), b - 1)
  }

  /** One answered cursor: guard, pre-filter, store, prune and merge. */
  ghost function Answered(x: Session, total: int, perSession: nat, ans: Answer): Session
    requires Positive(x.turns)
  {
    var b := NextBackfillBeforeSeq(x.row, total, ans.hasOlder);
    var turnCount, maxSeq := if ans.reported then total else 0, if ans.reported then b - 1 else 0;
    var atOpening := OpenedBackfill(turnCount, maxSeq, x.row.count, ans.hinted);
    if b != 0 && DaemonSyncSessionIsDurable(turnCount, maxSeq, Some(x.row.count), atOpening)
    then Sync(x, TopK(Window(b, ans.start), perSession) - x.turns, perSession, ans.metadataChanged)
    else x
  }

  ghost function Backfill(x: Session, total: int, perSession: nat, answers: seq<Answer>): Session
    requires Positive(x.turns)
    ensures Positive(Backfill(x, total, perSession, answers).turns)
    decreases |answers|
  {
    if answers == [] then x else Backfill(Answered(x, total, perSession, answers[0]), total, perSession, answers[1..])
  }

  /** A session as the hot window keeps it: a right row, at most perSession turns, none past the total. */
  ghost predicate Hot(x: Session, total: int, perSession: nat) {
    Faithful(x) && x.turns != {} && |x.turns| <= perSession && forall y | y in x.turns :: y <= total
  }

  /** Whether the guard lets the answer to cursor b in. */
  predicate Admits(b: int, total: int, reported: bool) { !reported || total <= 0 || b <= 1 || b > total }

  lemma AdmitsIsTheGuard(x: Session, total: int, perSession: nat, ans: Answer)
    requires Hot(x, total, perSession)
    ensures var b := NextBackfillBeforeSeq(x.row, total, ans.hasOlder);
            Answered(x, total, perSession, ans) ==
            if b != 0 && Admits(b, total, ans.reported)
            then Sync(x, TopK(Window(b, ans.start), perSession) - x.turns, perSession, ans.metadataChanged)
            else x
  {
    hide Recount, Sync, TopK, Window, NextBackfillBeforeSeq;
    RecountCounts(x.turns);
  }

  /** An answer changes what is stored exactly when it is let in and the newest missing turn has a place: there is room,
      or an older turn to give it up. */
  lemma AnswerStoresIff(x: Session, total: int, perSession: nat, ans: Answer)
    requires Hot(x, total, perSession)
    ensures var b := NextBackfillBeforeSeq(x.row, total, ans.hasOlder);
            Answered(x, total, perSession, ans).turns != x.turns <==>
            b != 0 && Admits(b, total, ans.reported) &&
            (|x.turns| < perSession || exists z :: z in x.turns && z < b - 1)
  {
    hide Recount, TopK, NextBackfillBeforeSeq, MergeUploadedTurnStats, Interval;
    AdmitsIsTheGuard(x, total, perSession, ans);
    BackfillPointsAtGap(x.turns, total, ans.hasOlder);
    var b := NextBackfillBeforeSeq(x.row, total, ans.hasOlder);
    if b != 0 {
      NewestOfWindow(b, ans.start, perSession);
      var u := TopK(Window(b, ans.start), perSession) - x.turns;
      assert b - 1 in u;
      KeptWindowIff(x.turns, u, perSession);
    }
  }

  lemma NewestOfWindow(b: int, start: int, perSession: nat)
    requires b >= 2 && perSession >= 1
    ensures b - 1 in TopK(Window(b, start), perSession)
    ensures forall y | y in TopK(Window(b, start), perSession) :: 1 <= y <= b - 1
  {
    assert Above(Window(b, start), b - 1) == {};
  }

  /** Nothing pruned: the window joins what is stored and the row stays right. */
  lemma AnswerFits(x: Session, total: int, perSession: nat, ans: Answer)
    requires Hot(x, total, perSession) && total <= perSession
    ensures var b := NextBackfillBeforeSeq(x.row, total, ans.hasOlder);
            var x' := Answered(x, total, perSession, ans);
            && Hot(x', total, perSession)
            && x'.turns == if b != 0 && Admits(b, total, ans.reported) then x.turns + Window(b, ans.start) else x.turns
  {
    hide Recount, TopK, NextBackfillBeforeSeq, MergeUploadedTurnStats, Interval;
    AdmitsIsTheGuard(x, total, perSession, ans);
    BackfillPointsAtGap(x.turns, total, ans.hasOlder);
    var b := NextBackfillBeforeSeq(x.row, total, ans.hasOlder);
    var w := Window(b, ans.start);
    if b != 0 {
      WithinInterval(w, 1, total);
      TopKSize(w, perSession);
      var u := w - x.turns;
      assert x.turns + u == x.turns + w;
      WithinInterval(x.turns + u, 1, total);
      TopKSize(x.turns + u, perSession);
      SyncStaysFaithfulIff(x, u, perSession, ans.metadataChanged);
    }
  }

  /** With fewer places than turns no series of answers completes the session. */
  lemma {:induction false} SmallWindowNeverCompletes(x: Session, total: int, perSession: nat, answers: seq<Answer>)
    requires Positive(x.turns) && |x.turns| <= perSession < total
    ensures Backfill(x, total, perSession, answers).turns != Interval(1, total)
    decreases |answers|
  {
    hide Recount, TopK, NextBackfillBeforeSeq, MergeUploadedTurnStats, Interval;
    if answers == [] {
      IntervalSize(1, total);
    } else {
      var b := NextBackfillBeforeSeq(x.row, total, answers[0].hasOlder);
      var u := TopK(Window(b, answers[0].start), perSession) - x.turns;
      TopKSize(x.turns + u, perSession);
      SmallWindowNeverCompletes(Answered(x, total, perSession, answers[0]), total, perSession, answers[1..]);
    }
  }

  /** Without reported numbers every answer is let in, and as many answers as turns are missing complete the session
      exactly when the window has a place for every turn. */
  lemma {:induction false} UnreportedBackfillCompletesIff(x: Session, total: int, perSession: nat, answers: seq<Answer>)
    requires Hot(x, total, perSession) && (forall i | 0 <= i < |answers| :: !answers[i].reported)
    requires |answers| >= total - |x.turns|
    ensures Backfill(x, total, perSession, answers).turns == Interval(1, total) <==> total <= perSession
    decreases |answers|
  {
    hide Recount, NextBackfillBeforeSeq, Interval, Answered;
    WithinInterval(x.turns, 1, total);
    if total > perSession {
      SmallWindowNeverCompletes(x, total, perSession, answers);
    } else if answers != [] {
      AnswerFits(x, total, perSession, answers[0]);
      BackfillPointsAtGap(x.turns, total, answers[0].hasOlder);
      var b := NextBackfillBeforeSeq(x.row, total, answers[0].hasOlder);
      if b != 0 {
        SubsetSize(x.turns + {b - 1}, x.turns + Window(b, answers[0].start));
      } else {
        IntervalSize(1, total);
      }
      UnreportedBackfillCompletesIff(Answered(x, total, perSession, answers[0]), total, perSession, answers[1..]);
    }
  }

  /** Where the latest run starts above 1 the cursor is its start, so the window ends below the total and a daemon that
      reports both numbers is turned away, for ever. */
  lemma {:induction false} ReportedBackfillIsRefused(x: Session, total: int, perSession: nat, answers: seq<Answer>)
    requires Hot(x, total, perSession) && (forall i | 0 <= i < |answers| :: answers[i].reported)
    requires x.turns != Interval(1, MaxOf(x.turns))
    ensures Backfill(x, total, perSession, answers) == x
    decreases |answers|
  {
    hide Recount, NextBackfillBeforeSeq, Interval, Answered, MaxOf;
    if answers == [] {
    } else {
      CursorOfRow(x.turns, total, answers[0].hasOlder);
      AdmitsIsTheGuard(x, total, perSession, answers[0]);
      ReportedBackfillIsRefused(x, total, perSession, answers[1..]);
    }
  }

  /** The cursor of turns within 1..total: past the total when only newer turns are missing, else at or below a stored
      turn. */
  lemma {:induction false} CursorOfRow(s: set<int>, total: int, hasOlderTurns: bool)
    requires Positive(s) && s != {} && forall x | x in s :: x <= total
    ensures var b := NextBackfillBeforeSeq(Recount(s), total, hasOlderTurns);
            if s == Interval(1, total) then b == 0
            else if s == Interval(1, MaxOf(s)) then b == total + 1
            else 1 < b <= total
  {
    hide Interval, MinOf, MaxOf, RunStart;
    BackfillPointsAtGap(s, total, hasOlderTurns);
    var hi := MaxOf(s);
    var run := RunStart(s, hi);
    assert hi in s && run in s;
    WithinInterval(s, 1, total);
    assert run == 1 ==> s == Interval(1, hi);
    assert run > 1 ==> run - 1 in Interval(1, hi) && run - 1 !in s;
    if s == Interval(1, hi) {
      assert MinOf(s) in s && MinOf(s) <= 1 by {
        assert 1 in s;
      }
    }
  }

  /** The exact outcome for a daemon that reports its numbers: the session ends complete only if it was, or if only
      newer turns were missing, every turn has a place, and the first answer reaches down to the stored ones. */
  lemma ReportedBackfillCompletesIff(x: Session, total: int, perSession: nat, answers: seq<Answer>)
    requires Hot(x, total, perSession) && forall i | 0 <= i < |answers| :: answers[i].reported
    ensures Backfill(x, total, perSession, answers).turns == Interval(1, total) <==>
            x.turns == Interval(1, total) ||
            (answers != [] && total <= perSession && x.turns == Interval(1, MaxOf(x.turns))
             && Min(answers[0].start, total) <= MaxOf(x.turns) + 1)
  {
    hide Recount, NextBackfillBeforeSeq, Interval, Answered, MaxOf;
    var s := x.turns;
    assert MaxOf(s) in s;
    if s == Interval(1, total) {
      CompleteStaysComplete(x, total, perSession, answers);
    } else if s != Interval(1, MaxOf(s)) {
      ReportedBackfillIsRefused(x, total, perSession, answers);
    } else if total > perSession {
      SmallWindowNeverCompletes(x, total, perSession, answers);
    } else if answers != [] {
      var hi, x' := MaxOf(s), Answered(x, total, perSession, answers[0]);
      CursorOfRow(s, total, answers[0].hasOlder);
      AnswerFits(x, total, perSession, answers[0]);
      var a := Max(1, Min(answers[0].start, total));
      assert x'.turns == s + Interval(a, total);
      if Min(answers[0].start, total) <= hi + 1 {
        assert x'.turns == Interval(1, total);
        CompleteStaysComplete(x', total, perSession, answers[1..]);
      } else {
        assert total in x'.turns && MaxOf(x'.turns) in x'.turns;
        assert hi + 1 in Interval(1, MaxOf(x'.turns)) && hi + 1 !in x'.turns;
        assert hi + 1 in Interval(1, total);
        ReportedBackfillIsRefused(x', total, perSession, answers[1..]);
      }
    }
  }

  lemma {:induction false} CompleteStaysComplete(x: Session, total: int, perSession: nat, answers: seq<Answer>)
    requires Hot(x, total, perSession) && x.turns == Interval(1, total)
    ensures Backfill(x, total, perSession, answers) == x
    decreases |answers|
  {
    hide Recount, NextBackfillBeforeSeq, Interval, Sync;
    if answers == [] {
    } else {
      BackfillPointsAtGap(x.turns, total, answers[0].hasOlder);
      CompleteStaysComplete(x, total, perSession, answers[1..]);
    }
  }

  /** 141..240 of 240 are stored in a window of 100: whatever older windows the daemon sends, nothing is written. */
  lemma OlderWindowsAreRefused(answers: seq<Answer>)
    requires forall i | 0 <= i < |answers| :: answers[i].reported
    ensures Positive(Interval(141, 240))
    ensures var x := Session(Interval(141, 240), Recount(Interval(141, 240)));
            Faithful(x) && NextBackfillBeforeSeq(x.row, 240, true) == 141 && Backfill(x, 240, 100, answers) == x
  {
    hide Interval, MaxOf, MinOf, RunStart;
    var s := Interval(141, 240);
    IntervalSize(141, 240);
    IntervalExtremes(141, 240);
    RunStartIsUnique(s, 240, RunStart(s, 240), 141);
    assert 1 in Interval(1, 240) && 1 !in s && 240 in s;
    ReportedBackfillIsRefused(Session(s, Recount(s)), 240, 100, answers);
  }

  function MergedHasOlderTurns(existingHasOlder: bool, sessionHasOlder: bool, total: int, uploadedCount: int,
                               row: Stats): bool {
    if uploadedCount > 0 || row.count > 0 then
      if !sessionHasOlder && total > 0 && row.count >= total && row.minSeq <= 1 && row.maxSeq >= total then false
      else if total > 0 && (row.minSeq > 1 || row.maxSeq < total || row.count < total) then true
      else sessionHasOlder || existingHasOlder
    else sessionHasOlder || existingHasOlder
  }

  /** With turns stored, "no older turns" is said exactly when the daemon does not claim some and, if the total is
      known, the stored turns reach from 1 to it in number; with turns within 1..total that means all of them. */
  lemma NoOlderTurnsIffComplete(s: set<int>, total: int, existingHasOlder: bool, sessionHasOlder: bool,
                                uploadedCount: int)
    requires Positive(s) && s != {}
    ensures !MergedHasOlderTurns(existingHasOlder, sessionHasOlder, total, uploadedCount, Recount(s)) <==>
            !sessionHasOlder && if total > 0 then 1 in s && total <= |s| else !existingHasOlder
    ensures (forall x | x in s :: x <= total) ==> (1 in s && total <= |s| <==> s == Interval(1, total))
  {
    hide Interval, MinOf, MaxOf, RunStart;
    var lo, hi := MinOf(s), MaxOf(s);
    assert lo in s && hi in s && |s| > 0;
    WithinInterval(s, lo, hi);
    if forall x | x in s :: x <= total {
      WithinInterval(s, 1, total);
      IntervalSize(1, total);
      assert s == Interval(1, total) ==> 1 in s;
    }
  }

  /** Without turns stored: older ones are there if the daemon or the row says so, or if turns were sent of a session
      that has some. */
  lemma OlderTurnsOfNothing(total: int, existingHasOlder: bool, sessionHasOlder: bool, uploadedCount: int)
    ensures MergedHasOlderTurns(existingHasOlder, sessionHasOlder, total, uploadedCount, Recount({})) <==>
            sessionHasOlder || if uploadedCount > 0 && total > 0 then true else existingHasOlder
  {
  }

  // ---- Three ways to find the latest contiguous run

  /** The store's backwards loop. */
  method GetSessionTurnStats(turns: seq<int>) returns (stats: Stats)
    requires Ascending(turns) && Positive(Members(turns))
    ensures stats == Recount(Members(turns))
  {
    ghost var s := Members(turns);
    if |turns| == 0 {
      return Stats(0, 0, 0, 0);
    }
    var n := |turns|;
    var expected := turns[n - 1];
    var latest := expected;
    var i := n - 1;
    while i >= 0
      invariant -1 <= i < n
      invariant expected == turns[n - 1] - (n - 1 - i)
      invariant latest == if i == n - 1 then expected else expected + 1
      invariant forall j | i < j < n :: turns[j] == turns[n - 1] - (n - 1 - j)
    {
      var seq' := turns[i];
      if seq' != expected {
        break;
      }
      latest := seq';
      expected := expected - 1;
      i := i - 1;
    }
    AscendingFacts(turns);
    RunInListing(turns, i, latest);
    stats := Stats(n, turns[0], turns[n - 1], latest);
  }

  /** A listing whose last entries, from i + 1 on, count down by one to start, and whose entry i breaks the run. */
  lemma RunInListing(q: seq<int>, i: int, start: int)
    requires Ascending(q) && Positive(Members(q)) && q != [] && -1 <= i < |q| - 1
    requires start == q[i + 1] && forall j | i < j < |q| :: q[j] == q[|q| - 1] - (|q| - 1 - j)
    requires i >= 0 ==> q[i] != start - 1
    ensures q[|q| - 1] in Members(q) && start == RunStart(Members(q), q[|q| - 1])
  {
    var s, top := Members(q), q[|q| - 1];
    forall x | start <= x <= top ensures x in s {
      assert q[|q| - 1 - (top - x)] == x;
    }
    assert start - 1 !in s by {
      if start - 1 in s {
        var j :| 0 <= j < |q| && q[j] == start - 1;
        assert false;
      }
    }
    RunStartIsUnique(s, top, start, RunStart(s, top));
  }

  /** ROW_NUMBER() OVER (ORDER BY seq DESC) of x in s. */
  ghost function RowNumber(s: set<int>, x: int): nat { 1 + |Above(s, x)| }

  /** SELECT MIN(seq) WHERE seq + rn = max + 1. */
  ghost function SqlRunRows(s: set<int>, top: int): set<int> { set x | x in s && x + RowNumber(s, x) == top + 1 }

  lemma AboveIsInterval(s: set<int>, top: int, x: int)
    requires forall y | y in s :: y <= top
    requires x in s
    ensures |Above(s, x)| <= top - x
    ensures |Above(s, x)| == top - x <==> forall y | x <= y <= top :: y in s
  {
    hide Interval;
    WithinInterval(Above(s, x), x + 1, top);
    if forall y | x <= y <= top :: y in s {
      assert Above(s, x) == Interval(x + 1, top);
      IntervalSize(x + 1, top);
    } else if |Above(s, x)| == top - x {
      forall y | x <= y <= top ensures y in s {
        assert y > x ==> y in Above(s, x);
      }
    }
  }

  /** The SQL form selects exactly the rows of the latest run, so its minimum is the run's start. */
  lemma SqlFindsRun(s: set<int>)
    requires Positive(s) && s != {}
    ensures var rows := SqlRunRows(s, MaxOf(s));
            rows != {} && MinOf(rows) == RunStart(s, MaxOf(s))
  {
    hide MinOf, MaxOf;
    var top := MaxOf(s);
    var r := RunStart(s, top);
    var rows := SqlRunRows(s, top);
    forall x | x in s ensures x in rows <==> x >= r {
      AboveIsInterval(s, top, x);
      assert x < r ==> x <= r - 1 <= top;
    }
    assert r in rows;
    assert MinOf(rows) in rows;
  }

  /** The window answer for a known session: the run of stored turns that ends at maxSeq, lowest first.
      A zero maxSeq means the last stored turn. */
  method LatestContiguousTurnTail(sorted: seq<int>, maxSeq: int) returns (tail: seq<int>)
    requires Ascending(sorted) && Positive(Members(sorted)) && maxSeq >= 0
    ensures var s := Members(sorted);
            var top := if maxSeq != 0 then maxSeq else if s != {} then MaxOf(s) else 0;
            && (top !in s ==> tail == [])
            && (top in s ==> |tail| == top - RunStart(s, top) + 1 &&
                             forall k | 0 <= k < |tail| :: tail[k] == RunStart(s, top) + k)
  {
    hide MaxOf, RunStart, Positive;
    ghost var s := Members(sorted);
    AscendingFacts(sorted);
    var n := |sorted|;
    var expected := if maxSeq != 0 then maxSeq else if n > 0 then sorted[n - 1] else 0;
    ghost var top := expected;
    tail := [];
    var index := n - 1;
    while index >= 0
      invariant -1 <= index < n
      invariant expected == top - |tail|
      invariant forall k | 0 <= k < |tail| :: tail[k] == top - k && tail[k] in sorted
      invariant forall j | index < j < n :: sorted[j] > expected
      invariant |tail| > 0 ==> index + 1 < n && sorted[index + 1] == expected + 1
    {
      var seq' := sorted[index];
      if seq' != expected {
        if |tail| > 0 {
          break;
        }
        if seq' > expected {
          index := index - 1;
          continue;
        }
        break;
      }
      tail := tail + [seq'];
      expected := expected - 1;
      index := index - 1;
    }
    NotListed(sorted, index, expected);
    TailIsRun(s, top, tail);
    tail := Reversed(tail);
  }

  /** A number below all entries past i and above entry i is not in the listing. */
  lemma NotListed(q: seq<int>, i: int, x: int)
    requires Ascending(q) && -1 <= i < |q|
    requires forall j | i < j < |q| :: q[j] > x
    requires i >= 0 ==> q[i] < x
    ensures x !in Members(q)
  {
    assert forall j | 0 <= j < |q| :: q[j] != x;
  }

  lemma TailIsRun(s: set<int>, top: int, tail: seq<int>)
    requires Positive(s) && top - |tail| !in s
    requires forall k | 0 <= k < |tail| :: tail[k] == top - k && tail[k] in s
    ensures top in s <==> tail != []
    ensures top in s ==> |Reversed(tail)| == top - RunStart(s, top) + 1
                         && forall k | 0 <= k < |tail| :: Reversed(tail)[k] == RunStart(s, top) + k
  {
    if tail != [] {
      assert tail[0] == top;
      forall x | top - |tail| + 1 <= x <= top ensures x in s {
        assert tail[top - x] == x;
      }
      RunStartIsUnique(s, top, RunStart(s, top), top - |tail| + 1);
    }
  }

  /** The backwards loop, the SQL query and the window tail agree, for every stored set. */
  method RunsAgree(turns: seq<int>) returns (stats: Stats, tail: seq<int>)
    requires Ascending(turns) && Positive(Members(turns)) && turns != []
    ensures tail != [] && stats.latestContiguousMinSeq == tail[0]
    ensures var rows := SqlRunRows(Members(turns), stats.maxSeq);
            rows != {} && MinOf(rows) == tail[0]
  {
    stats := GetSessionTurnStats(turns);
    AscendingFacts(turns);
    assert turns[0] in Members(turns);
    SqlFindsRun(Members(turns));
    tail := LatestContiguousTurnTail(turns, stats.maxSeq);
  }
}
