/** When cutting a PTY stream into reads does not change the stripped text.

    `Good` is a grammar of streams on which every way of cutting is harmless.
    `InvariantIffFits` is exact on well-formed streams: all cuttings agree with the
    whole-buffer strip if and only if every escape sequence fits the carry window, or sticks
    out of it without leaving text. For an ESC in the wrong place `DoubleEscChangesIff` and
    `EscInBodyChangesIff` say when the cut after it changes the text, and `AllCuttingsAgreeIff`
    decides every stream there is by the states of its reader. */
module AnsiChunks {
  import opened Bytes
  import opened AnsiStrip

  /** The text produced by reading the chunks one after the other, the last held tail flushed at the end. */
  ghost function Feed(pending: seq<byte>, chunks: seq<seq<byte>>): seq<byte>
    decreases |chunks|
  {
    if chunks == [] then Strip(pending)
    else
      var all := pending + chunks[0];
      var cut := |all| - Hold(all);
      Strip(all[..cut]) + Feed(all[cut..], chunks[1..])
  }

  ghost function Concat(chunks: seq<seq<byte>>): seq<byte> {
    if chunks == [] then [] else chunks[0] + Concat(chunks[1..])
  }

  lemma FeedStep(text: seq<byte>, pending: seq<byte>, chunks: seq<seq<byte>>, piece: seq<byte>, tail: seq<byte>)
    requires chunks != []
    requires var all := pending + chunks[0];
             tail == all[|all| - Hold(all)..] && piece == Strip(all[..|all| - Hold(all)])
    ensures (text + piece) + Feed(tail, chunks[1..]) == text + Feed(pending, chunks)
  {
    hide Strip, Hold;
    assert (text + piece) + Feed(tail, chunks[1..]) == text + (piece + Feed(tail, chunks[1..]));
  }

  /** The reader of the program: one StripANSIChunk a read. */
  method ReadAll(chunks: seq<seq<byte>>) returns (text: seq<byte>)
    ensures text == Feed([], chunks)
  {
    hide Strip, Hold, Feed;
    text := [];
    var pending: seq<byte> := [];
    assert chunks[0..] == chunks;
    for i := 0 to |chunks|
      invariant text + Feed(pending, chunks[i..]) == Feed([], chunks)
    {
      var piece, tail := StripANSIChunk(pending, chunks[i]);
      assert chunks[i..][1..] == chunks[i + 1..] && chunks[i..][0] == chunks[i];
      FeedStep(text, pending, chunks[i..], piece, tail);
      text, pending := text + piece, tail;
    }
    assert chunks[|chunks|..] == [];
    var flushed := StripANSICore(pending);
    text := text + flushed;
    FeedNothing(pending);
  }

  lemma FeedNothing(pending: seq<byte>)
    ensures Feed(pending, []) == Strip(pending)
  {
  }

  // ---- The grammar

  /** The end of a control string's body: the first ESC or BEL, or the end of the stream. */
  function BodyEnd(s: seq<byte>, j: nat): (r: nat)
    requires j <= |s|
    ensures j <= r <= |s|
    ensures forall i | j <= i < r :: s[i] != ESC && s[i] != BEL
    ensures r < |s| ==> s[r] == ESC || s[r] == BEL
    decreases |s| - j
  {
    if j < |s| && s[j] != ESC && s[j] != BEL then BodyEnd(s, j + 1) else j
  }

  predicate Plain(c: byte) { c < 0x80 && c != CR }

  /** The control string at the front ends with BEL, ESC \ or the stream. */
  predicate EndsProperly(s: seq<byte>)
    requires |s| >= 2
  {
    var e := BodyEnd(s, 2);
    e == |s| || s[e] == BEL || e + 1 == |s| || s[e + 1] == BACKSLASH
  }

  /** A byte that leaves no text wherever it stands. */
  predicate Dropped(c: byte) { DroppedControl(c) && c != CR && c != ESC }

  /** What the end of v alone holds back: a CR, or an unfinished rune. */
  function EndHold(v: seq<byte>): nat
    requires v != []
  {
    if v[|v| - 1] == CR then 1 else Utf8Tail(v, 1)
  }

  /** The body of the control string fits the carry window, or what sticks out leaves no text. */
  predicate FitsBody(s: seq<byte>)
    requires |s| >= 2
  {
    var e, n := BodyEnd(s, 2), CARRY_LIMIT + 1;
    e < n || (EndHold(s[..n]) == 0 && forall i | n <= i < e :: Dropped(s[i]))
  }

  predicate GoodToken(s: seq<byte>)
    requires s != []
  {
    s[0] == ESC && |s| >= 2 ==>
      if s[1] == LBRACKET then TokenLen(s) <= CARRY_LIMIT + 1
      else if Introducer(s[1]) then EndsProperly(s) && FitsBody(s)
      else s[1] != ESC && !Leader(s[1]) && (s[1] == CR ==> |s| > 2 && s[2] == LF)
  }

  predicate Good(s: seq<byte>) {
    s == [] || (GoodToken(s) && Good(s[TokenLen(s)..]))
  }

  // ---- Token boundaries

  /** a starts a token of s, or ends s. */
  ghost predicate Boundary(s: seq<byte>, a: nat)
    requires a <= |s|
  {
    a == 0 || (s != [] && TokenLen(s) <= a && Boundary(s[TokenLen(s)..], a - TokenLen(s)))
  }

  lemma {:induction false} SpanOfPrefix(s: seq<byte>, n: nat, j: nat, lo: byte, hi: byte)
    requires j <= n <= |s|
    ensures Span(s[..n], j, lo, hi) == if Span(s, j, lo, hi) <= n then Span(s, j, lo, hi) else n
    decreases n - j
  {
    if j < n && lo <= s[j] <= hi {
      SpanOfPrefix(s, n, j + 1, lo, hi);
    }
  }

  lemma CsiOfPrefix(s: seq<byte>, n: nat)
    requires 2 <= n <= |s|
    ensures CsiBody(s[..n]) == if CsiBody(s) <= n then CsiBody(s) else n
  {
    SpanOfPrefix(s, n, 2, 0x30, 0x3f);
    var j := Span(s, 2, 0x30, 0x3f);
    if j <= n {
      SpanOfPrefix(s, n, j, 0x20, 0x2f);
    }
  }

  lemma {:induction false} StringEndOfPrefix(s: seq<byte>, n: nat, j: nat)
    requires j <= n <= |s|
    requires StringEnd(s, j) <= n
    ensures StringEnd(s[..n], j) == StringEnd(s, j)
    decreases n - j
  {
    if j < |s| && s[j] != BEL && !(s[j] == ESC && j + 1 < |s| && s[j + 1] == BACKSLASH) {
      StringEndOfPrefix(s, n, j + 1);
    }
  }

  /** Cutting after a token does not change the token. */
  lemma TokenOfPrefix(s: seq<byte>, n: nat)
    requires s != [] && TokenLen(s) <= n <= |s|
    ensures TokenLen(s[..n]) == TokenLen(s) && TokenOut(s[..n]) == TokenOut(s)
  {
    if s[0] == ESC && |s| >= 2 {
      if s[1] == LBRACKET {
        CsiOfPrefix(s, n);
      } else if Introducer(s[1]) {
        StringEndOfPrefix(s, n, 2);
      }
    }
  }

  /** One token off the front. */
  lemma StripUnfold(s: seq<byte>, n: nat)
    requires s != [] && TokenLen(s) <= n <= |s|
    ensures Strip(s[..n]) == TokenOut(s) + Strip(s[TokenLen(s)..n])
  {
    TokenOfPrefix(s, n);
    assert s[..n][TokenLen(s)..] == s[TokenLen(s)..n];
  }

  /** At a token boundary the strip splits, of the whole and of every longer prefix. */
  lemma {:induction false} StripSplitsAtBoundary(s: seq<byte>, a: nat, n: nat)
    requires a <= n <= |s| && Boundary(s, a)
    ensures Strip(s[..n]) == Strip(s[..a]) + Strip(s[a..n])
  {
    hide Strip, TokenOut, TokenLen;
    if a > 0 {
      var t := TokenLen(s);
      StripSplitsAtBoundary(s[t..], a - t, n - t);
      SplitStep(s, t, a, n);
    } else {
      assert s[0..n] == s[..n];
      assert Strip(s[..0]) == [] by {
        StripOfNothing(s);
      }
    }
  }

  lemma StripOfNothing(s: seq<byte>)
    ensures Strip(s[..0]) == []
  {
  }

  lemma SplitStep(s: seq<byte>, t: nat, a: nat, n: nat)
    requires s != [] && t == TokenLen(s) <= a <= n <= |s|
    requires Strip(s[t..][..n - t]) == Strip(s[t..][..a - t]) + Strip(s[t..][a - t..n - t])
    ensures Strip(s[..n]) == Strip(s[..a]) + Strip(s[a..n])
  {
    hide Strip, TokenOut, TokenLen;
    StripUnfold(s, n);
    StripUnfold(s, a);
    assert s[t..][..n - t] == s[t..n] && s[t..][..a - t] == s[t..a] && s[t..][a - t..n - t] == s[a..n];
    assert TokenOut(s) + (Strip(s[t..a]) + Strip(s[a..n])) == (TokenOut(s) + Strip(s[t..a])) + Strip(s[a..n]);
  }

  lemma {:induction false} GoodAtBoundary(s: seq<byte>, a: nat)
    requires a <= |s| && Good(s) && Boundary(s, a)
    ensures Good(s[a..])
  {
    hide TokenLen, GoodToken;
    if a > 0 {
      var t := TokenLen(s);
      GoodAtBoundary(s[t..], a - t);
      assert s[t..][a - t..] == s[a..];
    } else {
      assert s[0..] == s;
    }
  }

  /** The start of the token that holds position i. */
  ghost function TokenStart(s: seq<byte>, i: nat): (a: nat)
    requires i < |s|
    ensures a <= i && Boundary(s, a) && i < a + TokenLen(s[a..])
  {
    var t := TokenLen(s);
    if i < t then assert s[0..] == s; 0
    else
      var a := TokenStart(s[t..], i - t);
      LaterToken(s, t, a);
      t + a
  }

  lemma LaterToken(s: seq<byte>, t: nat, a: nat)
    requires s != [] && t == TokenLen(s) && t + a <= |s| && Boundary(s[t..], a)
    ensures Boundary(s, t + a) && s[t..][a..] == s[t + a..]
  {
    hide TokenLen;
  }

  // ---- Safe cuts

  /** Cutting s at p splits the strip and leaves a good stream. */
  ghost predicate SafeCut(s: seq<byte>, p: nat)
    requires p <= |s|
  {
    Strip(s) == Strip(s[..p]) + Strip(s[p..]) && Good(s[p..])
  }

  lemma BoundaryIsSafe(s: seq<byte>, a: nat)
    requires a <= |s| && Good(s) && Boundary(s, a)
    ensures SafeCut(s, a)
  {
    StripSplitsAtBoundary(s, a, |s|);
    GoodAtBoundary(s, a);
    assert s[..|s|] == s && s[a..|s|] == s[a..];
  }

  /** A cut inside the token at boundary a is safe if it is safe in the stream from a on. */
  lemma {:induction false} SafeInside(s: seq<byte>, a: nat, q: nat)
    requires a + q <= |s| && Good(s) && Boundary(s, a)
    requires SafeCut(s[a..], q)
    ensures SafeCut(s, a + q)
  {
    hide Strip, Good, Boundary;
    var u := s[a..];
    StripSplitsAtBoundary(s, a, |s|);
    StripSplitsAtBoundary(s, a, a + q);
    assert s[..|s|] == s && s[a..|s|] == u && s[a..a + q] == u[..q] && s[a + q..] == u[q..];
    assert Strip(s[..a]) + (Strip(u[..q]) + Strip(u[q..])) == (Strip(s[..a]) + Strip(u[..q])) + Strip(u[q..]);
  }

  // ---- Control strings

  lemma {:induction false} StringEndFromBody(s: seq<byte>, j: nat)
    requires j <= |s|
    ensures StringEnd(s, j) == StringEnd(s, BodyEnd(s, j))
    decreases |s| - j
  {
    if j < |s| && s[j] != ESC && s[j] != BEL {
      StringEndFromBody(s, j + 1);
    }
  }

  /** A token that is a control string with a proper end. */
  ghost predicate ProperString(s: seq<byte>) {
    |s| >= 2 && s[0] == ESC && Introducer(s[1]) && EndsProperly(s)
  }

  lemma ProperStringToken(s: seq<byte>)
    requires ProperString(s)
    ensures var e := BodyEnd(s, 2);
            TokenLen(s) == if e == |s| || e + 1 == |s| then |s| else if s[e] == BEL then e + 1 else e + 2
  {
    StringEndFromBody(s, 2);
  }

  lemma BodyEndOfPrefix(s: seq<byte>, n: nat, j: nat)
    requires j <= n <= |s| && n <= BodyEnd(s, j)
    ensures BodyEnd(s[..n], j) == n && StringEnd(s[..n], j) == n && !HasTerminator(s[..n], j)
    decreases n - j
  {
    if j < n {
      BodyEndOfPrefix(s, n, j + 1);
    }
  }

  /** Inside a control string's body the sequence is still incomplete, and nothing is kept of it. */
  lemma InsideBody(s: seq<byte>, n: nat)
    requires ProperString(s) && 2 <= n <= BodyEnd(s, 2)
    ensures Incomplete(s[..n]) && Strip(s[..n]) == []
  {
    BodyEndOfPrefix(s, n, 2);
    assert s[..n][n..] == [];
  }

  /** What follows the body is dropped on its own as well. */
  lemma AfterBody(s: seq<byte>)
    requires ProperString(s)
    ensures var e := BodyEnd(s, 2);
            Strip(s[e..]) == Strip(s[TokenLen(s)..]) && Strip(s) == Strip(s[e..])
  {
    ProperStringToken(s);
    var e := BodyEnd(s, 2);
    var t := s[e..];
    if t != [] {
      assert t[TokenLen(t)..] == s[TokenLen(s)..];
    }
  }

  lemma GoodAfterBody(s: seq<byte>)
    requires ProperString(s) && Good(s[TokenLen(s)..])
    ensures Good(s[BodyEnd(s, 2)..])
  {
    ProperStringToken(s);
    var t := s[BodyEnd(s, 2)..];
    if t != [] {
      assert t[TokenLen(t)..] == s[TokenLen(s)..];
    }
  }

  lemma GoodParts(s: seq<byte>)
    requires Good(s) && s != []
    ensures GoodToken(s) && Good(s[TokenLen(s)..])
  {
  }

  /** The end of the body is a safe cut, although no token starts there. */
  lemma BodyEndIsSafe(s: seq<byte>)
    requires Good(s) && ProperString(s)
    ensures SafeCut(s, BodyEnd(s, 2))
  {
    hide Strip, Good, TokenLen;
    var e := BodyEnd(s, 2);
    InsideBody(s, e);
    AfterBody(s);
    GoodParts(s);
    GoodAfterBody(s);
    assert Strip(s) == [] + Strip(s[e..]);
  }

  /** The bytes of a body, read as text: what follows stays good, and something is kept unless all of them are
      dropped. */
  lemma {:induction false} BodyAsText(t: seq<byte>, r: nat)
    requires r <= |t| && (forall i | 0 <= i < r :: t[i] != ESC) && (r < |t| ==> t[r] != LF)
    ensures Good(t[r..]) ==> Good(t)
    ensures |Strip(t)| >= |Strip(t[r..])|
    ensures (exists i :: 0 <= i < r && !Dropped(t[i])) ==> |Strip(t)| > |Strip(t[r..])|
    ensures (forall i | 0 <= i < r :: Dropped(t[i])) ==> Strip(t) == Strip(t[r..])
    decreases r
  {
    hide Strip, Good, TokenLen, TokenOut;
    if r == 0 {
      assert t[0..] == t;
    } else {
      var k := TokenLen(t);
      var u := t[k..];
      TextToken(t, r);
      assert u[r - k..] == t[r..];
      assert forall i | 0 <= i < r - k :: u[i] == t[i + k];
      BodyAsText(u, r - k);
      StripOfText(t);
      if i :| 0 <= i < r && !Dropped(t[i]) && i >= k {
        assert !Dropped(u[i - k]);
      }
    }
  }

  /** One text token of a body lies inside it. */
  lemma TextToken(t: seq<byte>, r: nat)
    requires 0 < r <= |t| && t[0] != ESC && (r < |t| ==> t[r] != LF)
    ensures 1 <= TokenLen(t) <= r && GoodToken(t)
  {
  }

  lemma StripOfText(t: seq<byte>)
    requires t != [] && t[0] != ESC
    ensures Strip(t) == TokenOut(t) + Strip(t[TokenLen(t)..])
    ensures Good(t[TokenLen(t)..]) ==> Good(t)
    ensures TokenOut(t) == [] <==> Dropped(t[0])
    ensures TokenOut(t) == [] ==> TokenLen(t) == 1
    ensures TokenLen(t) == 2 ==> TokenOut(t) != []
  {
  }

  /** From the edge of the window to the end of the body every cut is safe. */
  lemma LongBodyIsSafe(s: seq<byte>, q: nat)
    requires Good(s) && ProperString(s) && CARRY_LIMIT < q <= BodyEnd(s, 2)
    ensures SafeCut(s, q)
  {
    hide Strip, Good;
    var e := BodyEnd(s, 2);
    InsideBody(s, q);
    AfterBody(s);
    BodyEndIsSafe(s);
    var t := s[q..];
    assert t[e - q..] == s[e..];
    GoodParts(s);
    BodyAsText(t, e - q);
    assert Strip(s) == [] + Strip(t);
  }

  /** A dropped ESC CR before LF: cutting between them is safe. */
  lemma EscCrIsSafe(s: seq<byte>)
    requires Good(s) && |s| > 2 && s[0] == ESC && s[1] == CR && s[2] == LF
    ensures SafeCut(s, 1)
  {
    var u := s[1..];
    assert u[2..] == s[3..] && s[2..][1..] == s[3..];
    assert Strip(s[..1]) == [] by { assert s[..1][1..] == []; }
    assert Strip(s) == Strip(s[2..]) == [LF] + Strip(s[3..]);
    assert Strip(u) == [LF] + Strip(s[3..]);
  }

  // ---- The hold rule always picks a safe cut

  /** The token that holds position i, with what a good stream says of it. */
  lemma TokenAt(s: seq<byte>, i: nat) returns (a: nat, u: seq<byte>)
    requires Good(s) && i < |s|
    ensures a <= i < a + TokenLen(s[a..]) && u == s[a..] && Boundary(s, a) && SafeCut(s, a)
    ensures Good(u) && GoodToken(u) && u[i - a] == s[i]
  {
    hide Strip, Good, GoodToken, TokenLen, Boundary;
    a := TokenStart(s, i);
    u := s[a..];
    BoundaryIsSafe(s, a);
    GoodParts(u);
  }

  /** Inside a good token, an ESC can only be that of a string terminator. */
  lemma EscInToken(u: seq<byte>, q: nat)
    requires u != [] && GoodToken(u) && 0 < q < TokenLen(u) && u[q] == ESC
    ensures ProperString(u) && q == BodyEnd(u, 2)
  {
    hide FitsBody;
    if |u| >= 2 && u[0] == ESC && Introducer(u[1]) {
      ProperStringToken(u);
    }
  }

  /** Inside a good token, a CR or a UTF-8 leader is in a string body, or is the CR of ESC CR LF. */
  lemma TextInToken(u: seq<byte>, q: nat)
    requires u != [] && GoodToken(u) && 0 < q < TokenLen(u) && (u[q] == CR || Leader(u[q]))
    ensures (ProperString(u) && 2 <= q < BodyEnd(u, 2)) ||
            (q == 1 && |u| > 2 && u[0] == ESC && u[1] == CR && u[2] == LF)
  {
    hide FitsBody;
    if |u| >= 2 && u[0] == ESC && Introducer(u[1]) {
      ProperStringToken(u);
    }
  }

  /** Every ESC starts a token, except the one in a string terminator. */
  lemma EscIsSafe(s: seq<byte>, k: nat)
    requires Good(s) && k < |s| && s[k] == ESC
    ensures SafeCut(s, k)
  {
    hide Strip, Boundary, Good, GoodToken, TokenLen, SafeCut, EndsProperly;
    var a, u := TokenAt(s, k);
    if a < k {
      EscInToken(u, k - a);
      BodyEndIsSafe(u);
      SafeInside(s, a, k - a);
    }
  }

  lemma LastEscIs(b: seq<byte>, k: nat, a: nat)
    requires a < k <= |b| && b[a] == ESC && a + CARRY_LIMIT >= |b|
    requires forall i | a < i < k :: b[i] != ESC
    ensures LastEsc(b, k) == a
  {
  }

  /** The last ESC before n, when it opens a token that is still incomplete at n, is where the tail is cut. */
  lemma HoldFromEsc(s: seq<byte>, a: nat, n: nat)
    requires a < n <= |s| && n - a <= CARRY_LIMIT && s[a] == ESC
    requires forall i | a < i < n :: s[i] != ESC
    requires Incomplete(s[a..n])
    ensures Hold(s[..n]) == n - a
  {
    var b := s[..n];
    assert LastEsc(b, n) == a by {
      assert b[a] == ESC;
      LastEscIs(b, n, a);
    }
    assert b[a..] == s[a..n];
  }

  /** A cut inside a control string's body is held back to the string's start, if that start is in the window. */
  lemma BodyIsHeld(s: seq<byte>, a: nat, n: nat)
    requires a + 2 <= n <= |s| && n - a <= CARRY_LIMIT
    requires ProperString(s[a..]) && n - a <= BodyEnd(s[a..], 2)
    ensures Hold(s[..n]) == n - a
  {
    var u := s[a..];
    InsideBody(u, n - a);
    assert u[..n - a] == s[a..n];
    forall i | a < i < n ensures s[i] != ESC {
      assert s[i] == u[i - a];
    }
    HoldFromEsc(s, a, n);
  }

  /** Incomplete CSI. */
  lemma CsiIsHeld(s: seq<byte>, a: nat, n: nat)
    requires a + 2 <= n <= |s| && n - a <= CARRY_LIMIT
    requires s[a] == ESC && s[a + 1] == LBRACKET && n - a < TokenLen(s[a..])
    ensures Hold(s[..n]) == n - a
  {
    var u := s[a..];
    CsiOfPrefix(u, n - a);
    assert u[..n - a] == s[a..n];
    forall i | a < i < n ensures s[i] != ESC {
      assert s[i] == u[i - a];
      CsiBytes(u, i - a);
    }
    HoldFromEsc(s, a, n);
  }

  lemma CsiBytes(s: seq<byte>, i: nat)
    requires |s| >= 2 && s[0] == ESC && s[1] == LBRACKET && 1 <= i < TokenLen(s)
    ensures 0x20 <= s[i] <= 0x7e
  {
  }

  /** A rune is judged by its last four bytes. */
  lemma {:induction false} Utf8TailLocal(x: seq<byte>, v: seq<byte>, i: nat)
    requires i >= 1 && |v| >= 4 && i <= 5 && forall p | |v| - i < p < |v| && p >= 0 :: Continuation(v[p])
    requires i <= |v| + 1
    ensures forall p | |x + v| - i < p < |x + v| :: Continuation((x + v)[p])
    ensures Utf8Tail(x + v, i) == Utf8Tail(v, i)
    decreases 5 - i
  {
    var b := x + v;
    forall p | |b| - i < p < |b| ensures Continuation(b[p]) {
      assert b[p] == v[p - |x|];
    }
    if i <= 4 {
      assert b[|b| - i] == v[|v| - i];
      if 0x80 <= v[|v| - i] < 0xc0 {
        Utf8TailLocal(x, v, i + 1);
      }
    }
  }

  /** Once the start of a control string has left the window, only the end of the read holds anything back. */
  lemma HoldPastWindow(s: seq<byte>, a: nat, n: nat)
    requires a + CARRY_LIMIT < n <= |s| && ProperString(s[a..]) && n - a <= BodyEnd(s[a..], 2)
    ensures Hold(s[..n]) == EndHold(s[a..n])
  {
    var u, b := s[a..], s[..n];
    forall i | a < i < n ensures s[i] != ESC {
      assert s[i] == u[i - a];
    }
    assert LastEsc(b, n) < 0;
    assert b == s[..a] + s[a..n];
    Utf8TailLocal(s[..a], s[a..n], 1);
  }

  /** A body that has run out of the window: the cut is past the window's edge, and what is left of the body leaves no
      text. */
  lemma LongBodyFits(s: seq<byte>, a: nat, n: nat)
    requires a + 2 < n <= |s| && ProperString(s[a..]) && GoodToken(s[a..])
    requires n - a <= BodyEnd(s[a..], 2) && Hold(s[..n]) < n - a
    ensures n - a > CARRY_LIMIT
    ensures n - a == CARRY_LIMIT + 1 ==> Hold(s[..n]) == 0
    ensures n - a > CARRY_LIMIT + 1 ==> Dropped(s[n - 1])
  {
    hide Hold, Strip;
    var u := s[a..];
    if n - a <= CARRY_LIMIT {
      BodyIsHeld(s, a, n);
    } else {
      HoldPastWindow(s, a, n);
      assert s[a..n] == u[..n - a];
      assert u[n - a - 1] == s[n - 1];
    }
  }

  /** The body of a good control string does not end a read with text that is held back. */
  lemma HeldTextIsNotInBody(s: seq<byte>, a: nat, p: nat, n: nat)
    requires a + 2 <= p < n <= |s| && ProperString(s[a..]) && GoodToken(s[a..]) && p - a < BodyEnd(s[a..], 2)
    requires (s[p] == CR || Leader(s[p])) && forall i | p < i < n :: Continuation(s[i])
    ensures Hold(s[..n]) != n - p
  {
    hide Strip, GoodToken, EndsProperly, Hold;
    if Hold(s[..n]) == n - p {
      var u := s[a..];
      var e := BodyEnd(u, 2);
      assert e < |u| ==> u[e] == s[a + e];
      LongBodyFits(s, a, n);
    }
  }

  /** A held CR or UTF-8 leader is a safe place to cut. */
  lemma TextIsSafe(s: seq<byte>, p: nat, n: nat)
    requires Good(s) && p < n <= |s|
    requires s[p] == CR || Leader(s[p])
    requires forall i | p < i < n :: Continuation(s[i])
    requires Hold(s[..n]) == n - p
    ensures SafeCut(s, p)
  {
    hide Strip, Boundary, Good, GoodToken, TokenLen, SafeCut, EndsProperly, Hold, BodyEnd;
    var a, u := TokenAt(s, p);
    if a < p {
      TextInToken(u, p - a);
      if u[1] == CR {
        EscCrIsSafe(u);
        SafeInside(s, a, 1);
      } else {
        HeldTextIsNotInBody(s, a, p, n);
      }
    }
  }

  /** A trailing ESC or CR is never given away. */
  lemma EscOrCrIsHeld(s: seq<byte>, n: nat)
    requires 0 < n <= |s| && (s[n - 1] == ESC || s[n - 1] == CR)
    ensures Hold(s[..n]) > 0
  {
    var b := s[..n];
    assert b[n - 1] == s[n - 1];
    if s[n - 1] == ESC {
      assert LastEsc(b, n) == n - 1;
    }
  }

  /** A cut inside a token at which nothing is held is in the part of a string body that is past the window. */
  lemma NothingHeldInToken(s: seq<byte>, a: nat, n: nat)
    requires a < n < |s| && GoodToken(s[a..]) && n - a < TokenLen(s[a..]) && Hold(s[..n]) == 0
    ensures ProperString(s[a..]) && CARRY_LIMIT < n - a <= BodyEnd(s[a..], 2)
  {
    hide Hold, Strip;
    var u := s[a..];
    assert u[n - a - 1] == s[n - 1];
    if s[n - 1] == ESC || s[n - 1] == CR {
      EscOrCrIsHeld(s, n);
    } else if u[0] == ESC && u[1] == LBRACKET {
      CsiIsHeld(s, a, n);
    } else {
      ProperStringToken(u);
      if n - a == 2 {
        BodyIsHeld(s, a, n);
      } else if n - a <= BodyEnd(u, 2) {
        LongBodyFits(s, a, n);
      }
    }
  }

  lemma WholeIsSafe(s: seq<byte>)
    ensures SafeCut(s, |s|)
  {
    assert s[..|s|] == s && s[|s|..] == [];
  }

  /** When nothing is held, the cut is a token boundary or past the window in a body. */
  lemma NothingHeldIsSafe(s: seq<byte>, n: nat)
    requires Good(s) && n <= |s| && Hold(s[..n]) == 0
    ensures SafeCut(s, n)
  {
    hide Strip, Boundary, Good, GoodToken, TokenLen, SafeCut, EndsProperly, Hold;
    if n == |s| {
      WholeIsSafe(s);
    } else {
      var a, u := TokenAt(s, n);
      if a < n {
        NothingHeldInToken(s, a, n);
        LongBodyIsSafe(u, n - a);
        SafeInside(s, a, n - a);
      }
    }
  }

  /** On a good stream, whatever has arrived, the cut the hold rule picks is safe. */
  lemma HoldCutsSafely(s: seq<byte>, n: nat)
    requires Good(s) && n <= |s|
    ensures SafeCut(s, n - Hold(s[..n]))
  {
    hide Strip, Good, SafeCut;
    var b := s[..n];
    var h := Hold(b);
    if h == 0 {
      NothingHeldIsSafe(s, n);
    } else {
      var p := n - h;
      assert s[p] == b[p];
      if s[p] == ESC {
        EscIsSafe(s, p);
      } else {
        forall i | p < i < n ensures Continuation(s[i]) {
          assert s[i] == b[i];
        }
        TextIsSafe(s, p, n);
      }
    }
  }

  /** Chunk invariance: on a good stream every way of cutting gives the whole-buffer strip. */
  lemma {:induction false} ChunkingIsInvariant(pending: seq<byte>, chunks: seq<seq<byte>>)
    requires Good(pending + Concat(chunks))
    ensures Feed(pending, chunks) == Strip(pending + Concat(chunks))
    decreases |chunks|
  {
    hide Strip, Good, Hold;
    var s := pending + Concat(chunks);
    if chunks == [] {
      assert s == pending;
    } else {
      var all := pending + chunks[0];
      var cut := |all| - Hold(all);
      var tail := all[cut..];
      assert s == all + Concat(chunks[1..]);
      assert s[..|all|] == all;
      HoldCutsSafely(s, |all|);
      assert s[cut..] == tail + Concat(chunks[1..]);
      assert s[..cut] == all[..cut];
      ChunkingIsInvariant(tail, chunks[1..]);
    }
  }

  // ---- The exact condition on well-formed streams

  predicate Visible(c: byte) { 0x20 <= c <= 0x7e }

  /** No ESC directly after ESC, and control strings in which ESC only starts the terminator. Lengths and the other
      bytes of a body are free. */
  predicate WellFormedToken(s: seq<byte>)
    requires s != []
  {
    s[0] == ESC && |s| >= 2 ==>
      && s[1] != ESC
      && (Introducer(s[1]) ==> EndsProperly(s))
  }

  predicate WellFormed(s: seq<byte>) {
    s == [] || (WellFormedToken(s) && WellFormed(s[TokenLen(s)..]))
  }

  /** A CSI fits the window, a control string does or sticks out without leaving text, and a two-byte escape does not
      end in a UTF-8 leader, nor in a CR without its LF. */
  predicate FitsToken(s: seq<byte>)
    requires s != []
  {
    s[0] == ESC && |s| >= 2 ==>
      if s[1] == LBRACKET then TokenLen(s) <= CARRY_LIMIT + 1
      else if Introducer(s[1]) then FitsBody(s)
      else !Leader(s[1]) && (s[1] == CR ==> |s| > 2 && s[2] == LF)
  }

  predicate Fits(s: seq<byte>) {
    s == [] || (FitsToken(s) && Fits(s[TokenLen(s)..]))
  }

  lemma {:induction false} FittingIsGood(s: seq<byte>)
    requires WellFormed(s) && Fits(s)
    ensures Good(s)
  {
    if s == [] {
    } else {
      FittingIsGood(s[TokenLen(s)..]);
    }
  }

  /** Some escape of s does not fit: the last such one starts at a, and the rest after it fits. */
  lemma {:induction false} LastMisfit(s: seq<byte>) returns (a: nat)
    requires WellFormed(s) && !Fits(s)
    ensures a < |s| && Boundary(s, a) && WellFormedToken(s[a..]) && !FitsToken(s[a..])
    ensures Good(s[a..][TokenLen(s[a..])..])
  {
    hide TokenLen, FitsToken, WellFormedToken, Good;
    var rest := s[TokenLen(s)..];
    if Fits(rest) {
      a := 0;
      assert s[0..] == s;
      FittingIsGood(rest);
    } else {
      var b := LastMisfit(rest);
      a := TokenLen(s) + b;
      assert rest[b..] == s[a..];
    }
  }

  lemma VisibleByte(s: seq<byte>)
    requires s != [] && (Visible(s[0]) || Leader(s[0]))
    ensures Strip(s) == [s[0]] + Strip(s[1..])
    ensures Good(s[1..]) ==> Good(s)
  {
  }

  /** Printable bytes at the front are kept as they are. */
  lemma {:induction false} VisiblePrefix(s: seq<byte>, r: nat)
    requires r <= |s| && forall i | 0 <= i < r :: Visible(s[i])
    ensures Strip(s) == s[..r] + Strip(s[r..])
    ensures Good(s[r..]) ==> Good(s)
    decreases r
  {
    hide Strip, Good;
    if r > 0 {
      var u := s[1..];
      VisiblePrefix(u, r - 1);
      VisibleByte(s);
      assert u[r - 1..] == s[r..] && s[..r] == [s[0]] + u[..r - 1];
      assert [s[0]] + (u[..r - 1] + Strip(s[r..])) == s[..r] + Strip(s[r..]);
    } else {
      assert s[0..] == s;
    }
  }

  /** Two reads, cut at n where the first holds h bytes back. */
  lemma TwoReads(s: seq<byte>, n: nat)
    requires n <= |s|
    requires Good(s[n - Hold(s[..n])..])
    ensures var p := n - Hold(s[..n]);
            Feed([], [s[..n], s[n..]]) == Strip(s[..p]) + Strip(s[p..])
    ensures Concat([s[..n], s[n..]]) == s
  {
    hide Strip, Good, Hold;
    var c := [s[..n], s[n..]];
    var p := n - Hold(s[..n]);
    assert [] + c[0] == s[..n] && c[1..] == [s[n..]] && Concat([s[n..]]) == s[n..];
    assert s[..n][p..] + s[n..] == s[p..] && s[..n][..p] == s[..p] && s[..n] + s[n..] == s;
    ChunkingIsInvariant(s[..n][p..], c[1..]);
  }

  /** What the strip makes of a whole CSI: at most a space, and never its own last byte. */
  lemma CsiStrip(s: seq<byte>)
    requires |s| >= 2 && s[0] == ESC && s[1] == LBRACKET
    ensures var t := TokenLen(s);
            Strip(s) == Strip(s[t..]) || (Strip(s) == [SPACE] + Strip(s[t..]) && s[t - 1] != SPACE)
  {
    hide Strip;
    StripUnfold(s, |s|);
    assert s[..|s|] == s;
  }

  lemma CsiPrefixStrip(s: seq<byte>, n: nat)
    requires |s| >= 2 && s[0] == ESC && s[1] == LBRACKET && 2 <= n < TokenLen(s)
    ensures Strip(s[..n]) == []
  {
    CsiOfPrefix(s, n);
    assert s[..n][n..] == [];
  }

  /** Cutting a CSI that is too long after CARRY_LIMIT + 1 bytes leaks its rest as text. */
  lemma LongCsiLeaks(s: seq<byte>)
    requires |s| >= 2 && s[0] == ESC && s[1] == LBRACKET && TokenLen(s) > CARRY_LIMIT + 1
    requires Good(s[TokenLen(s)..])
    ensures var n := CARRY_LIMIT + 1;
            Strip(s[..n]) == [] && Strip(s[n..]) != Strip(s) && Good(s[n..])
  {
    hide Strip, Good, TokenLen;
    var n := CARRY_LIMIT + 1;
    var t := TokenLen(s);
    CsiPrefixStrip(s, n);
    CsiStrip(s);
    forall i | n <= i < t ensures Visible(s[i]) {
      CsiBytes(s, i);
    }
    LeakDiffers(s, n, t);
  }

  /** A printable run n..t of s that the strip keeps, against at most one space for the whole token. */
  lemma LeakDiffers(s: seq<byte>, n: nat, t: nat)
    requires n < t <= |s| && forall i | n <= i < t :: Visible(s[i])
    requires Strip(s) == Strip(s[t..]) || (Strip(s) == [SPACE] + Strip(s[t..]) && s[t - 1] != SPACE)
    requires Good(s[t..])
    ensures Strip(s[n..]) != Strip(s) && Good(s[n..])
  {
    hide Strip, Good;
    var u := s[n..];
    VisiblePrefix(u, t - n);
    assert u[t - n..] == s[t..];
    var kept := u[..t - n];
    assert kept[t - n - 1] == s[t - 1];
    if t - n == 1 {
      assert (kept + Strip(s[t..]))[0] == s[t - 1];
    }
  }

  /** The same for a control string whose body does not fit: cut CARRY_LIMIT + 1 bytes into it, less what the end of
      that read holds back. */
  lemma LongStringLeaks(s: seq<byte>)
    requires ProperString(s) && !FitsBody(s)
    requires Good(s[TokenLen(s)..])
    ensures var n := CARRY_LIMIT + 1;
            && n <= BodyEnd(s, 2) && EndHold(s[..n]) <= 3
            && var q := n - EndHold(s[..n]);
            Strip(s[..q]) == [] && Strip(s[q..]) != Strip(s) && Good(s[q..])
  {
    hide Strip, Good, TokenLen;
    var n, e := CARRY_LIMIT + 1, BodyEnd(s, 2);
    var q := n - EndHold(s[..n]);
    InsideBody(s, q);
    AfterBody(s);
    GoodAfterBody(s);
    var t := s[q..];
    assert t[e - q..] == s[e..];
    if q < n {
      assert s[..n][q] == s[q] == t[0];
      assert !Dropped(t[0]);
    } else {
      var i :| n <= i < e && !Dropped(s[i]);
      assert t[i - q] == s[i];
    }
    BodyAsText(t, e - q);
  }

  /** At a cut with no ESC in the window and a plain last byte, nothing is held. */
  lemma NothingHeld(b: seq<byte>)
    requires b != [] && Plain(b[|b| - 1])
    requires forall i | 0 <= i < |b| && i + CARRY_LIMIT >= |b| :: b[i] != ESC
    ensures Hold(b) == 0
  {
    var k := LastEsc(b, |b|);
    assert k < 0;
  }

  /** An escape too long for the window: cut CARRY_LIMIT + 1 bytes into it. */
  lemma {:induction false} LongCsiBreaks(s: seq<byte>, a: nat)
    requires a + 2 <= |s| && Boundary(s, a) && s[a] == ESC && s[a + 1] == LBRACKET
    requires TokenLen(s[a..]) > CARRY_LIMIT + 1 && Good(s[a..][TokenLen(s[a..])..])
    ensures var n := a + CARRY_LIMIT + 1;
            n <= |s| && Feed([], [s[..n], s[n..]]) != Strip(s) && Concat([s[..n], s[n..]]) == s
  {
    hide Strip, Good, Hold, Boundary, TokenOut;
    var u := s[a..];
    var n := a + CARRY_LIMIT + 1;
    LongCsiLeaks(u);
    forall i | a < i < n ensures 0x20 <= s[i] <= 0x7e {
      assert s[i] == u[i - a];
      CsiBytes(u, i - a);
    }
    NothingHeld(s[..n]);
    assert u[CARRY_LIMIT + 1..] == s[n..] && u[..CARRY_LIMIT + 1] == s[a..n];
    TwoReads(s, n);
    CutChangesStrip(s, a, n);
  }

  lemma LongStringBreaks(s: seq<byte>, a: nat)
    requires a + 2 <= |s| && Boundary(s, a) && ProperString(s[a..]) && !FitsBody(s[a..])
    requires Good(s[a..][TokenLen(s[a..])..])
    ensures var n := a + CARRY_LIMIT + 1;
            n <= |s| && Feed([], [s[..n], s[n..]]) != Strip(s) && Concat([s[..n], s[n..]]) == s
  {
    hide Strip, Good, Hold, Boundary, TokenLen, Feed, Concat, EndHold;
    var u := s[a..];
    var n := a + CARRY_LIMIT + 1;
    LongStringLeaks(u);
    HoldPastWindow(s, a, n);
    assert s[a..n] == u[..CARRY_LIMIT + 1];
    var q := CARRY_LIMIT + 1 - EndHold(u[..CARRY_LIMIT + 1]);
    assert u[q..] == s[a + q..] && u[..q] == s[a..a + q];
    assert [] + Strip(u[q..]) == Strip(u[q..]);
    TwoReads(s, n);
    CutChangesStrip(s, a, a + q);
  }

  /** If the strip of the part after boundary a changes under a cut, so does the whole. */
  lemma {:induction false} CutChangesStrip(s: seq<byte>, a: nat, n: nat)
    requires a <= n <= |s| && Boundary(s, a)
    requires Strip(s[a..n]) + Strip(s[n..]) != Strip(s[a..])
    ensures Strip(s[..n]) + Strip(s[n..]) != Strip(s)
  {
    hide Strip;
    StripSplitsAtBoundary(s, a, n);
    StripSplitsAtBoundary(s, a, |s|);
    assert s[..|s|] == s && s[a..|s|] == s[a..];
    var x, y, z, w := Strip(s[..a]), Strip(s[a..n]), Strip(s[n..]), Strip(s[a..]);
    if (x + y) + z == x + w {
      CancelPrefix(x, y, z, w);
    }
  }

  lemma CancelPrefix(x: seq<byte>, y: seq<byte>, z: seq<byte>, w: seq<byte>)
    requires (x + y) + z == x + w
    ensures y + z == w
  {
    assert w == (x + w)[|x|..];
    assert y + z == ((x + y) + z)[|x|..];
  }

  /** A two-byte escape ending in a UTF-8 leader, or in a CR without LF: its second byte is held and leaks. */
  lemma SecondByteLeaks(s: seq<byte>)
    requires |s| >= 2 && s[0] == ESC && WellFormedToken(s) && Good(s[2..])
    requires Leader(s[1]) || (s[1] == CR && !(|s| > 2 && s[2] == LF))
    ensures Strip(s[..1]) == [] && Strip(s[1..]) != Strip(s) && Good(s[1..])
  {
    var u := s[1..];
    assert u[1..] == s[2..];
    assert s[..1][1..] == [];
    assert Strip(s) == Strip(s[2..]);
    assert |Strip(u)| == 1 + |Strip(s[2..])|;
  }

  lemma SecondByteIsHeld(s: seq<byte>, a: nat)
    requires a + 2 <= |s| && s[a] == ESC && (Leader(s[a + 1]) || s[a + 1] == CR)
    ensures Hold(s[..a + 2]) == 1
  {
    var b := s[..a + 2];
    LastEscIs(b, a + 2, a);
    assert b[a..] == [ESC, s[a + 1]];
    assert b[a + 1] == s[a + 1];
  }

  lemma TwoByteEscapeBreaks(s: seq<byte>, a: nat)
    requires a + 2 <= |s| && Boundary(s, a) && s[a] == ESC && WellFormedToken(s[a..])
    requires Leader(s[a + 1]) || (s[a + 1] == CR && !(a + 2 < |s| && s[a + 2] == LF))
    requires Good(s[a + 2..])
    ensures Feed([], [s[..a + 2], s[a + 2..]]) != Strip(s) && Concat([s[..a + 2], s[a + 2..]]) == s
  {
    hide Strip, Good, Hold, Boundary, TokenOut;
    var u := s[a..];
    assert u[2..] == s[a + 2..] && u[1..] == s[a + 1..] && u[..1] == s[a..a + 1];
    SecondByteLeaks(u);
    SecondByteIsHeld(s, a);
    TwoReads(s, a + 2);
    CutChangesStrip(s, a, a + 1);
  }

  /** Wherever an escape does not fit, some cut into two reads changes the text. */
  lemma MisfitBreaks(s: seq<byte>) returns (n: nat)
    requires WellFormed(s) && !Fits(s)
    ensures n <= |s| && Feed([], [s[..n], s[n..]]) != Strip(s) && Concat([s[..n], s[n..]]) == s
  {
    hide Strip, Good, Boundary, WellFormed, Fits, Feed, Concat;
    var a := LastMisfit(s);
    var u := s[a..];
    if u[1] == LBRACKET {
      LongCsiBreaks(s, a);
      n := a + CARRY_LIMIT + 1;
    } else if Introducer(u[1]) {
      LongStringBreaks(s, a);
      n := a + CARRY_LIMIT + 1;
    } else {
      assert TokenLen(u) == 2 && u[2..] == s[a + 2..];
      TwoByteEscapeBreaks(s, a);
      n := a + 2;
    }
  }

  /** On well-formed streams: every cutting into reads agrees with the whole-buffer strip exactly when
      every escape fits. */
  lemma InvariantIffFits(s: seq<byte>)
    requires WellFormed(s)
    ensures (forall chunks | Concat(chunks) == s :: Feed([], chunks) == Strip(s)) <==> Fits(s)
  {
    hide Strip, Good, WellFormed, Fits, Feed, Concat, Hold;
    if Fits(s) {
      FittingIsGood(s);
      forall chunks | Concat(chunks) == s ensures Feed([], chunks) == Strip(s) {
        assert [] + Concat(chunks) == s;
        ChunkingIsInvariant([], chunks);
      }
    } else {
      var n := MisfitBreaks(s);
    }
  }

  // ---- Outside the well-formed streams

  lemma EscHeld(s: seq<byte>, n: nat)
    requires 0 < n <= |s| && s[n - 1] == ESC
    ensures Hold(s[..n]) == 1
  {
    var b := s[..n];
    assert b[n - 1] == ESC && b[n - 1..] == [ESC];
    LastEscIs(b, n, n - 1);
  }

  /** A cut just after an ESC inside a token gives the text of the two parts around that ESC. */
  lemma CutAfterInnerEsc(s: seq<byte>, a: nat, q: nat)
    requires a < q < |s| && Boundary(s, a) && s[q] == ESC && Good(s[q..])
    ensures Concat([s[..q + 1], s[q + 1..]]) == s
    ensures Feed([], [s[..q + 1], s[q + 1..]]) == Strip(s) <==> Strip(s[a..q]) + Strip(s[q..]) == Strip(s[a..])
  {
    hide Strip, Good, Hold, Boundary, Feed, Concat;
    EscHeld(s, q + 1);
    TwoReads(s, q + 1);
    if Strip(s[a..q]) + Strip(s[q..]) != Strip(s[a..]) {
      CutChangesStrip(s, a, q);
    } else {
      StripSplitsAtBoundary(s, a, q);
      StripSplitsAtBoundary(s, a, |s|);
      assert s[..|s|] == s && s[a..|s|] == s[a..];
      assert (Strip(s[..a]) + Strip(s[a..q])) + Strip(s[q..]) == Strip(s[..a]) + (Strip(s[a..q]) + Strip(s[q..]));
    }
  }

  /** Two ESC in a row, with a good stream from the second on: the cut between them and what follows changes the text
      exactly when it matters whether the second ESC is there. */
  lemma DoubleEscChangesIff(s: seq<byte>, a: nat)
    requires a + 2 <= |s| && Boundary(s, a) && s[a] == ESC && s[a + 1] == ESC && Good(s[a + 1..])
    ensures Concat([s[..a + 2], s[a + 2..]]) == s
    ensures Feed([], [s[..a + 2], s[a + 2..]]) != Strip(s) <==> Strip(s[a + 1..]) != Strip(s[a + 2..])
  {
    hide Good, Hold, Boundary, Feed, Concat, Strip;
    CutAfterInnerEsc(s, a, a + 1);
    var u := s[a..];
    assert s[a..a + 1] == [ESC];
    assert u[2..] == s[a + 2..];
    StripEscEsc(u);
    assert [] + Strip(s[a + 1..]) == Strip(s[a + 1..]);
  }

  lemma StripEscEsc(u: seq<byte>)
    requires |u| >= 2 && u[0] == ESC && u[1] == ESC
    ensures Strip(u) == Strip(u[2..]) && Strip([ESC]) == []
  {
    assert [ESC][1..] == [];
    assert TokenLen(u) == 2 && TokenOut(u) == [];
  }

  /** So two ESC before a CSI always break. */
  lemma DoubleEscBeforeCsiBreaks(s: seq<byte>, a: nat)
    requires a + 3 <= |s| && Boundary(s, a) && s[a] == ESC && s[a + 1] == ESC && s[a + 2] == LBRACKET
    requires Good(s[a + 1..])
    ensures Concat([s[..a + 2], s[a + 2..]]) == s && Feed([], [s[..a + 2], s[a + 2..]]) != Strip(s)
  {
    hide Strip, Hold, Boundary, Feed, Concat, TokenLen;
    DoubleEscChangesIff(s, a);
    var u := s[a + 1..];
    var t := TokenLen(u);
    CsiStrip(u);
    CsiLength(u);
    forall i | 1 <= i < t ensures Visible(u[i]) {
      if i >= 2 {
        CsiBytes(u, i);
      }
    }
    LeakDiffers(u, 1, t);
    assert u[1..] == s[a + 2..];
  }

  lemma CsiLength(u: seq<byte>)
    requires |u| >= 2 && u[0] == ESC && u[1] == LBRACKET
    ensures TokenLen(u) >= 2
  {
  }

  /** A control string whose body holds an ESC that ends nothing, with a good stream from that ESC on: the cut after it
      changes the text exactly when the stream from it strips to something else than what follows the whole string. */
  lemma EscInBodyChangesIff(s: seq<byte>, a: nat)
    requires a + 2 <= |s| && Boundary(s, a) && s[a] == ESC && Introducer(s[a + 1])
    requires var q := a + BodyEnd(s[a..], 2); q < |s| && s[q] == ESC && Good(s[q..])
    ensures var q, t := a + BodyEnd(s[a..], 2), a + TokenLen(s[a..]);
            && Concat([s[..q + 1], s[q + 1..]]) == s
            && (Feed([], [s[..q + 1], s[q + 1..]]) != Strip(s) <==> Strip(s[q..]) != Strip(s[t..]))
  {
    hide Good, Hold, Boundary, Feed, Concat, Strip;
    var u := s[a..];
    var e, t := BodyEnd(u, 2), TokenLen(u);
    CutAfterInnerEsc(s, a, a + e);
    assert s[a..a + e] == u[..e] && s[a + e..] == u[e..] && s[a + t..] == u[t..];
    UnendedBody(u);
    StripUnfold(u, |u|);
    assert u[..|u|] == u && u[t..|u|] == u[t..];
    assert [] + Strip(s[a + e..]) == Strip(s[a + e..]) && [] + Strip(u[t..]) == Strip(u[t..]);
  }

  /** The part of a control string before its first ESC or BEL is dropped whole. */
  lemma UnendedBody(u: seq<byte>)
    requires |u| >= 2 && u[0] == ESC && Introducer(u[1])
    ensures var e := BodyEnd(u, 2);
            2 <= e <= |u| && Strip(u[..e]) == []
  {
    var e := BodyEnd(u, 2);
    var v := u[..e];
    StringRunsOut(v, 2);
    assert v[|v|..] == [];
    assert TokenLen(v) == |v| && TokenOut(v) == [];
  }

  lemma {:induction false} StringRunsOut(v: seq<byte>, j: nat)
    requires j <= |v| && forall i | j <= i < |v| :: v[i] != ESC && v[i] != BEL
    ensures StringEnd(v, j) == |v|
    decreases |v| - j
  {
    if j < |v| {
      StringRunsOut(v, j + 1);
    }
  }

  /** A colour change after a stray ESC. */
  lemma DoubleEscBreaks(s: seq<byte>)
    requires s == [ESC, ESC, LBRACKET, 0x6d]
    ensures Feed([], [s[..2], s[2..]]) != Strip(s)
  {
    hide Feed, Strip, Hold;
    var u := s[1..];
    assert TokenLen(u) == 3 && u[3..] == [] && Good(u);
    DoubleEscBeforeCsiBreaks(s, 0);
  }

  /** A title that holds an ESC. */
  lemma EscInBodyBreaks(s: seq<byte>)
    requires s == [ESC, 0x5d, ESC, 0x41, 0x42, BEL]
    ensures Feed([], [s[..3], s[3..]]) != Strip(s)
  {
    hide Strip, Good, Hold, Feed, Concat;
    WholeStringDropped(s);
    LeakedTail(s[2..]);
    EscHeld(s, 3);
    TwoReads(s, 3);
  }

  lemma WholeStringDropped(s: seq<byte>)
    requires s == [ESC, 0x5d, ESC, 0x41, 0x42, BEL]
    ensures Strip(s) == []
  {
    assert StringEnd(s, 5) == 6 && StringEnd(s, 4) == 6 && StringEnd(s, 3) == 6 && StringEnd(s, 2) == 6;
    assert s[6..] == [];
  }

  lemma LeakedTail(u: seq<byte>)
    requires u == [ESC, 0x41, 0x42, BEL]
    ensures Good(u) && Strip(u) != []
  {
    var v := u[2..];
    assert v[1..] == [BEL] && v[1..][1..] == [];
    assert Good(v[1..]);
    VisibleByte(v);
    assert TokenLen(u) == 2 && Strip(u) == Strip(v);
  }

  // ---- Any stream

  /** With t[..m] pending and t[m..] still to come, every way of reading on gives z: wherever the next read ends, what
      is not held of it is the front of z, and the rest agrees with the rest of z. Decides a stream by the states its
      reader can be in, each a pair of places in it. */
  predicate Agrees(t: seq<byte>, m: nat, z: seq<byte>)
    requires m <= |t|
    decreases |t|, |t| - m
  {
    && (m == |t| ==> Strip(t) == z)
    && forall n | m <= n <= |t| :: NextRead(t, m, n, z)
  }

  predicate NextRead(t: seq<byte>, m: nat, n: nat, z: seq<byte>)
    requires m <= n <= |t|
    decreases |t|, |t| - m, 0
  {
    var p := n - Hold(t[..n]);
    if p == 0 then n > m ==> Agrees(t, n, z)
    else Strip(t[..p]) <= z && Agrees(t[p..], n - p, z[|Strip(t[..p])|..])
  }

  /** One read of the fold, seen from the stream. */
  lemma FeedNext(t: seq<byte>, m: nat, n: nat, rest: seq<seq<byte>>)
    requires m <= n <= |t| && Concat(rest) == t[n..]
    ensures var p := n - Hold(t[..n]);
            && Feed(t[..m], [t[m..n]] + rest) == Strip(t[..p]) + Feed(t[p..n], rest)
            && Concat([t[m..n]] + rest) == t[m..]
            && t[p..][..n - p] == t[p..n] && t[p..][n - p..] == t[n..]
  {
    hide Strip, Hold;
    var chunks := [t[m..n]] + rest;
    assert chunks[1..] == rest && t[..m] + t[m..n] == t[..n] && t[m..n] + t[n..] == t[m..];
    FeedSlices(t, n);
  }

  lemma FeedSlices(t: seq<byte>, n: nat)
    requires n <= |t|
    ensures forall p | 0 <= p <= n ::
              t[..n][..p] == t[..p] && t[..n][p..] == t[p..n] == t[p..][..n - p] && t[p..][n - p..] == t[n..]
  {
  }

  lemma {:induction false} AgreeingReads(t: seq<byte>, m: nat, z: seq<byte>, chunks: seq<seq<byte>>)
    requires m <= |t| && Agrees(t, m, z) && Concat(chunks) == t[m..]
    ensures Feed(t[..m], chunks) == z
    decreases |chunks|
  {
    hide Strip, Hold;
    if chunks == [] {
      assert t[..m] == t;
    } else {
      var n, rest := m + |chunks[0]|, chunks[1..];
      assert chunks[0] == t[m..n] && Concat(rest) == t[n..];
      assert chunks == [t[m..n]] + rest && NextRead(t, m, n, z);
      FeedNext(t, m, n, rest);
      var p := n - Hold(t[..n]);
      StripOfNothing(t);
      if p == 0 {
        assert t[0..n] == t[..n];
        AgreeingReads(t, n, z, rest);
      } else {
        AgreeingReads(t[p..], n - p, z[|Strip(t[..p])|..], rest);
      }
    }
  }

  /** Where the question has the answer no, a cutting with another text. */
  lemma {:induction false} DisagreeingReads(t: seq<byte>, m: nat, z: seq<byte>) returns (chunks: seq<seq<byte>>)
    requires m <= |t| && !Agrees(t, m, z)
    ensures Concat(chunks) == t[m..] && Feed(t[..m], chunks) != z
    decreases |t|, |t| - m
  {
    hide Strip, Hold;
    if m == |t| && Strip(t) != z {
      chunks := [];
      assert t[..m] == t;
    } else {
      var n :| m <= n <= |t| && !NextRead(t, m, n, z);
      var p := n - Hold(t[..n]);
      var kept := Strip(t[..p]);
      var rest: seq<seq<byte>>;
      StripOfNothing(t);
      if p == 0 {
        rest := DisagreeingReads(t, n, z);
        assert t[0..n] == t[..n];
      } else if kept <= z {
        rest := DisagreeingReads(t[p..], n - p, z[|kept|..]);
        assert t[p..][n - p..] == t[n..];
      } else {
        rest := [t[n..]];
      }
      FeedNext(t, m, n, rest);
      chunks := [t[m..n]] + rest;
    }
  }

  /** For every stream: all cuttings agree with the whole-buffer strip exactly when this question has the answer yes. */
  lemma AllCuttingsAgreeIff(s: seq<byte>)
    ensures (forall chunks | Concat(chunks) == s :: Feed([], chunks) == Strip(s)) <==> Agrees(s, 0, Strip(s))
  {
    hide Strip, Hold, Agrees, Feed, Concat;
    assert s[0..] == s && s[..0] == [];
    if Agrees(s, 0, Strip(s)) {
      forall chunks | Concat(chunks) == s ensures Feed([], chunks) == Strip(s) {
        AgreeingReads(s, 0, Strip(s), chunks);
      }
    } else {
      var chunks := DisagreeingReads(s, 0, Strip(s));
    }
  }
}
