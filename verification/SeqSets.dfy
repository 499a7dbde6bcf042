/** Finite sets of turn sequence numbers: intervals, extremes, the run that ends at the
    maximum, and the K largest members. */
module SeqSets {
  predicate Positive(s: set<int>) { forall x | x in s :: x >= 1 }

  // ---- Intervals and cardinality

  function Interval(a: int, b: int): (s: set<int>)
    ensures forall x :: x in s <==> a <= x <= b
    decreases b - a
  {
    if a > b then {} else Interval(a, b - 1) + {b}
  }

  lemma {:induction false} IntervalSize(a: int, b: int)
    ensures |Interval(a, b)| == if a <= b then b - a + 1 else 0
    decreases b - a
  {
    if a <= b {
      IntervalSize(a, b - 1);
    }
  }

  lemma {:induction false} SubsetSize<T>(a: set<T>, b: set<T>)
    requires a <= b
    ensures |a| <= |b|
    ensures |a| == |b| ==> a == b
  {
    assert b == a + (b - a);
    assert |b| == |a| + |b - a|;
  }

  lemma WithinInterval(s: set<int>, a: int, b: int)
    requires a <= b + 1 && forall x | x in s :: a <= x <= b
    ensures |s| <= b - a + 1
    ensures |s| == b - a + 1 ==> s == Interval(a, b)
  {
    IntervalSize(a, b);
    SubsetSize(s, Interval(a, b));
  }

  // ---- Extremes

  lemma SomethingInside(s: set<int>)
    requires s != {}
    ensures exists y: int :: y in s
  {
    if forall y: int :: y !in s {
      assert false;
    }
  }

  ghost function MinOf(s: set<int>): (m: int)
    requires s != {}
    ensures m in s && forall x | x in s :: m <= x
  {
    SomethingInside(s);
    var y: int :| y in s;
    if s == {y} then y
    else
      assert s == (s - {y}) + {y};
      var m := MinOf(s - {y});
      if y < m then y else m
  }

  ghost function MaxOf(s: set<int>): (m: int)
    requires s != {}
    ensures m in s && forall x | x in s :: x <= m
  {
    SomethingInside(s);
    var y: int :| y in s;
    if s == {y} then y
    else
      assert s == (s - {y}) + {y};
      var m := MaxOf(s - {y});
      if y > m then y else m
  }

  // ---- The run of consecutive members that ends at m

  function RunStart(s: set<int>, m: int): (r: int)
    requires Positive(s) && m in s
    ensures IsRunStart(s, m, r)
    decreases m
  {
    if m - 1 in s then RunStart(s, m - 1) else m
  }

  /** r..m is contained in s and cannot be extended downwards. */
  predicate IsRunStart(s: set<int>, m: int, r: int) {
    r <= m && (forall x | r <= x <= m :: x in s) && r - 1 !in s
  }

  lemma RunStartIsUnique(s: set<int>, m: int, r: int, q: int)
    requires IsRunStart(s, m, r) && IsRunStart(s, m, q)
    ensures r == q
  {
    assert r < q ==> r <= q - 1 <= m;
    assert q < r ==> q <= r - 1 <= m;
  }

  // ---- The K largest members

  function Above(s: set<int>, x: int): set<int> { set y | y in s && y > x }

  function TopK(s: set<int>, k: nat): (t: set<int>)
    ensures t <= s
  {
    set x | x in s && |Above(s, x)| < k
  }

  lemma AboveShrinks(s: set<int>, t: set<int>, x: int)
    requires s <= t
    ensures |Above(s, x)| <= |Above(t, x)|
  {
    SubsetSize(Above(s, x), Above(t, x));
  }

  /** A member kept by TopK is larger than every member dropped. */
  lemma TopKIsUpper(s: set<int>, k: nat, x: int, y: int)
    requires x in TopK(s, k) && y in s && y !in TopK(s, k)
    ensures y < x
  {
    if x <= y {
      SubsetSize(Above(s, y), Above(s, x));
    }
  }

  lemma {:induction false} TopKSize(s: set<int>, k: nat)
    ensures |TopK(s, k)| == if |s| <= k then |s| else k
    ensures |s| <= k ==> TopK(s, k) == s
    decreases |s|
  {
    if s == {} {
    } else if |s| <= k {
      forall x | x in s ensures |Above(s, x)| < k {
        SubsetSize(Above(s, x), s);
      }
      assert TopK(s, k) == s;
    } else {
      var m := MinOf(s);
      var r := s - {m};
      TopKSize(r, k);
      forall x | x in r ensures Above(s, x) == Above(r, x) {
      }
      assert Above(s, m) == r;
      assert TopK(s, k) == TopK(r, k);
    }
  }

  /** Trimming early loses nothing: the K largest of a union need only the K largest of one side. */
  lemma TopKAbsorbs(a: set<int>, b: set<int>, k: nat)
    ensures TopK(TopK(a, k) + b, k) == TopK(a + b, k)
  {
    var t := TopK(a, k) + b;
    var u := a + b;
    forall x | x in TopK(u, k) ensures x in TopK(t, k) {
      AboveShrinks(a, u, x);
      AboveShrinks(t, u, x);
    }
    forall x | x in TopK(t, k) ensures x in TopK(u, k) {
      if Above(a, x) <= TopK(a, k) {
        assert Above(t, x) == Above(u, x);
      } else {
        var y :| y in Above(a, x) && y !in TopK(a, k);
        TopKSize(a, k);
        SubsetSize(Above(a, y), a);
        forall z | z in TopK(a, k) ensures z in Above(t, x) {
          TopKIsUpper(a, k, z, y);
        }
        SubsetSize(TopK(a, k), Above(t, x));
      }
    }
  }

  // ---- Listings

  ghost predicate Ascending(q: seq<int>) { forall i, j | 0 <= i < j < |q| :: q[i] < q[j] }

  ghost function Members(q: seq<int>): set<int> { set x | x in q }

  lemma MembersOfFront(q: seq<int>)
    requires q != []
    ensures Members(q) == Members(q[..|q| - 1]) + {q[|q| - 1]}
  {
    assert q == q[..|q| - 1] + [q[|q| - 1]];
  }

  lemma {:induction false} AscendingCount(q: seq<int>)
    requires Ascending(q)
    ensures |Members(q)| == |q|
  {
    if q == [] {
    } else {
      AscendingCount(q[..|q| - 1]);
      MembersOfFront(q);
    }
  }

  lemma AscendingFacts(q: seq<int>)
    requires Ascending(q)
    ensures |Members(q)| == |q|
    ensures q != [] ==> Members(q) != {} && MinOf(Members(q)) == q[0] && MaxOf(Members(q)) == q[|q| - 1]
  {
    hide MinOf, MaxOf;
    AscendingCount(q);
    if q != [] {
      var s := Members(q);
      assert q[0] in s && q[|q| - 1] in s;
      assert MinOf(s) in q && MaxOf(s) in q;
    }
  }

  function Reversed(q: seq<int>): (r: seq<int>)
    ensures |r| == |q| && forall k | 0 <= k < |q| :: r[k] == q[|q| - 1 - k]
  {
    if q == [] then [] else Reversed(q[1..]) + [q[0]]
  }

  predicate Distinct(q: seq<int>) { forall i, j | 0 <= i < j < |q| :: q[i] != q[j] }

  lemma {:induction false} DistinctCount(q: seq<int>)
    requires Distinct(q)
    ensures |Members(q)| == |q|
  {
    if q == [] {
    } else {
      DistinctCount(q[..|q| - 1]);
      MembersOfFront(q);
    }
  }

  function Insert(q: seq<int>, x: int): (r: seq<int>)
    requires Ascending(q) && x !in q
    ensures Ascending(r) && |r| == |q| + 1 && forall y :: y in r <==> y == x || y in q
  {
    if q == [] || x < q[0] then [x] + q
    else
      var r := Insert(q[1..], x);
      assert forall y :: y in q <==> y == q[0] || y in q[1..];
      assert forall i | 0 <= i < |r| :: q[0] < r[i] by {
        forall i | 0 <= i < |r| ensures q[0] < r[i] {
          assert r[i] in r;
        }
      }
      [q[0]] + r
  }

  /** The ascending sort of distinct numbers. */
  function SortAscending(q: seq<int>): (r: seq<int>)
    requires Distinct(q)
    ensures Ascending(r) && |r| == |q| && forall y :: y in r <==> y in q
  {
    if q == [] then []
    else
      assert q[0] !in q[1..];
      assert forall y :: y in q <==> y == q[0] || y in q[1..];
      Insert(SortAscending(q[1..]), q[0])
  }

  /** In an ascending listing the entries above position i are those after it. */
  lemma RankInListing(q: seq<int>, i: nat)
    requires Ascending(q) && i < |q|
    ensures |Above(Members(q), q[i])| == |q| - 1 - i
  {
    var rest := q[i + 1..];
    assert Above(Members(q), q[i]) == Members(rest) by {
      assert forall x :: x in rest <==> x in q && x > q[i];
    }
    AscendingCount(rest);
  }

  /** The members of a set as a list, in no particular order. */
  method ListOf(s: set<int>) returns (q: seq<int>)
    ensures Distinct(q) && Members(q) == s
  {
    q := [];
    var rest := s;
    while rest != {}
      invariant rest <= s && Distinct(q)
      invariant forall x :: x in q <==> x in s && x !in rest
      decreases |rest|
    {
      SomethingInside(rest);
      var x :| x in rest;
      q := q + [x];
      rest := rest - {x};
    }
    SameMembers(Members(q), s);
  }

  lemma SameMembers(a: set<int>, b: set<int>)
    requires forall x :: x in a <==> x in b
    ensures a == b
  {
    assert a - b == {} by {
      if a - b != {} {
        SomethingInside(a - b);
      }
    }
    assert b - a == {} by {
      if b - a != {} {
        SomethingInside(b - a);
      }
    }
  }

  // ---- The k smallest, listed

  /** q lists the k smallest members of s in ascending order. */
  ghost predicate FirstK(q: seq<int>, s: set<int>, k: nat) {
    && Ascending(q)
    && Members(q) <= s
    && |q| == (if |s| <= k then |s| else k)
    && forall x, y | x in s && x !in Members(q) && y in Members(q) :: y < x
  }

  lemma FrontIsFirstK(q: seq<int>, k: nat)
    requires Ascending(q)
    ensures FirstK(q[..(if |q| <= k then |q| else k)], Members(q), k)
  {
    AscendingCount(q);
    var front := q[..(if |q| <= k then |q| else k)];
    forall x, y | x in Members(q) && x !in Members(front) && y in Members(front) ensures y < x {
      var i :| 0 <= i < |q| && q[i] == x;
      var j :| 0 <= j < |front| && front[j] == y;
      assert q[j] == y;
      assert forall h | 0 <= h < |front| :: front[h] == q[h] && q[h] in Members(front);
    }
  }

  /** The k smallest of a union need only the k smallest of one side. */
  lemma FirstKAbsorbs(p: seq<int>, a: set<int>, b: set<int>, q: seq<int>, k: nat)
    requires FirstK(p, a, k) && FirstK(q, Members(p) + b, k)
    ensures FirstK(q, a + b, k)
  {
    var s, u := Members(p) + b, a + b;
    AscendingCount(p);
    AscendingCount(q);
    SubsetSize(s, u);
    if |a| <= k {
      SubsetSize(Members(p), a);
    } else {
      SubsetSize(Members(p), s);
      forall x, y | x in u && x !in Members(q) && y in Members(q) ensures y < x {
        if x !in s {
          if Members(p) <= Members(q) {
            SubsetSize(Members(p), Members(q));
          } else {
            var z :| z in Members(p) && z !in Members(q);
            assert z in s && z < x;
          }
        }
      }
    }
  }
}
