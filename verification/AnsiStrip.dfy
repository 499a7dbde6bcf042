/** The escape stripper of the wrapper's PTY reader: a whole-buffer strip, and the
    rule that decides how many trailing bytes a chunk must hold back.

    Every loop of the program is a method here, proved against a recursive function on
    the bytes that are left. `AnsiChunks` proves what those functions promise. */
module AnsiStrip {
  import opened Bytes

  const ESC: byte := 0x1b
  const BEL: byte := 0x07
  const TAB: byte := 0x09
  const DEL: byte := 0x7f
  const SPACE: byte := 0x20
  const LBRACKET: byte := 0x5b
  const BACKSLASH: byte := 0x5c
  const CARRY_LIMIT: nat := 128

  /** The second byte of OSC, DCS, SOS, PM and APC. */
  predicate Introducer(c: byte) {
    c == 0x5d || c == 0x50 || c == 0x58 || c == 0x5e || c == 0x5f
  }

  predicate Final(c: byte) { 0x40 <= c <= 0x7e }

  predicate DroppedControl(c: byte) { (c < 0x20 && c != LF && c != TAB) || c == DEL }

  // ---- One token at the front of the buffer

  /** The first position from j on whose byte is outside lo..hi. */
  function Span(s: seq<byte>, j: nat, lo: byte, hi: byte): (r: nat)
    requires j <= |s|
    ensures j <= r <= |s|
    ensures forall i | j <= i < r :: lo <= s[i] <= hi
    ensures r < |s| ==> !(lo <= s[r] <= hi)
    decreases |s| - j
  {
    if j < |s| && lo <= s[j] <= hi then Span(s, j + 1, lo, hi) else j
  }

  /** Where the parameter and intermediate bytes of a CSI end. */
  function CsiBody(s: seq<byte>): (r: nat)
    requires |s| >= 2
    ensures 2 <= r <= |s|
  {
    Span(s, Span(s, 2, 0x30, 0x3f), 0x20, 0x2f)
  }

  /** The position just past the terminator of a control string, or |s| without one. */
  function StringEnd(s: seq<byte>, j: nat): (r: nat)
    requires j <= |s|
    ensures j <= r <= |s|
    decreases |s| - j
  {
    if j >= |s| then j
    else if s[j] == BEL then j + 1
    else if s[j] == ESC && j + 1 < |s| && s[j + 1] == BACKSLASH then j + 2
    else StringEnd(s, j + 1)
  }

  function TokenLen(s: seq<byte>): (r: nat)
    requires s != []
    ensures 1 <= r <= |s|
  {
    if s[0] == ESC then
      if |s| == 1 then 1
      else if s[1] == LBRACKET then
        var j := CsiBody(s);
        if j < |s| && Final(s[j]) then j + 1 else j
      else if Introducer(s[1]) then StringEnd(s, 2)
      else 2
    else if s[0] == CR && |s| > 1 && s[1] == LF then 2
    else 1
  }

  function TokenOut(s: seq<byte>): (r: seq<byte>)
    requires s != []
  {
    if s[0] == ESC then
      if |s| >= 2 && s[1] == LBRACKET && CsiBody(s) < |s| && (s[CsiBody(s)] == 0x47 || s[CsiBody(s)] == 0x43)
      then [SPACE] else []
    else if s[0] == CR then [LF]
    else if DroppedControl(s[0]) then []
    else [s[0]]
  }

  /** What the whole-buffer strip keeps. */
  function Strip(s: seq<byte>): (r: seq<byte>)
  {
    if s == [] then [] else TokenOut(s) + Strip(s[TokenLen(s)..])
  }

  /** One turn of the scan: the text kept so far grows by the token's output. */
  lemma StripStep(b: seq<byte>, i: nat, j: nat, before: seq<byte>, out: seq<byte>)
    requires i < j <= |b| && j - i == TokenLen(b[i..])
    requires out == before + TokenOut(b[i..])
    ensures out + Strip(b[j..]) == before + Strip(b[i..])
  {
    assert b[i..][j - i..] == b[j..];
    assert before + (TokenOut(b[i..]) + Strip(b[j..])) == out + Strip(b[j..]);
  }

  method StripANSICore(b: seq<byte>) returns (out: seq<byte>)
    ensures out == Strip(b)
  {
    out := [];
    var i := 0;
    while i < |b|
      invariant i <= |b|
      invariant out + Strip(b[i..]) == Strip(b)
    {
      var ch := b[i];
      ghost var start, before := i, out;
      if ch == ESC {
        if i + 1 >= |b| {
          StripStep(b, start, i + 1, before, out);
          return;
        }
        var next := b[i + 1];
        if next == LBRACKET {
          var j, spaced := SkipCsi(b, i);
          if spaced {
            out := out + [SPACE];
          }
          i := j;
        } else if Introducer(next) {
          i := SkipString(b, i);
        } else {
          i := i + 2;
        }
      } else if ch == CR {
        out := out + [LF];
        i := i + 1;
        if i < |b| && b[i] == LF {
          i := i + 1;
        }
      } else if ch < 0x20 && ch != LF && ch != TAB {
        i := i + 1;
      } else if ch == DEL {
        i := i + 1;
      } else {
        out := out + [ch];
        i := i + 1;
      }
      StripStep(b, start, i, before, out);
    }
  }

  /** The CSI scanner; a final G or C leaves one space behind. */
  method SkipCsi(b: seq<byte>, i: nat) returns (j: nat, spaced: bool)
    requires i + 2 <= |b| && b[i] == ESC && b[i + 1] == LBRACKET
    ensures i <= j <= |b| && j - i == TokenLen(b[i..])
    ensures TokenOut(b[i..]) == if spaced then [SPACE] else []
  {
    ghost var s := b[i..];
    j := i + 2;
    while j < |b| && 0x30 <= b[j] <= 0x3f
      invariant i + 2 <= j <= |b|
      invariant Span(s, j - i, 0x30, 0x3f) == Span(s, 2, 0x30, 0x3f)
    {
      j := j + 1;
    }
    while j < |b| && 0x20 <= b[j] <= 0x2f
      invariant i + 2 <= j <= |b|
      invariant Span(s, j - i, 0x20, 0x2f) == CsiBody(s)
    {
      j := j + 1;
    }
    spaced := false;
    if j < |b| && Final(b[j]) {
      spaced := b[j] == 0x47 || b[j] == 0x43;
      j := j + 1;
    }
  }

  /** The scanner shared by OSC, DCS, SOS, PM and APC. */
  method SkipString(b: seq<byte>, i: nat) returns (j: nat)
    requires i + 2 <= |b|
    ensures i <= j <= |b| && j - i == StringEnd(b[i..], 2)
  {
    ghost var s := b[i..];
    j := i + 2;
    while j < |b|
      invariant i + 2 <= j <= |b|
      invariant StringEnd(s, j - i) == StringEnd(s, 2)
    {
      if b[j] == BEL {
        j := j + 1;
        return;
      }
      if b[j] == ESC && j + 1 < |b| && b[j + 1] == BACKSLASH {
        j := j + 2;
        return;
      }
      j := j + 1;
    }
  }

  // ---- How many trailing bytes a chunk holds back

  /** Whether a string terminator occurs at or after j. */
  function HasTerminator(s: seq<byte>, j: nat): (r: bool)
    ensures r <==> exists i :: j <= i < |s| && (s[i] == BEL || (s[i] == ESC && i + 1 < |s| && s[i + 1] == BACKSLASH))
    decreases |s| - j
  {
    j < |s| &&
    (s[j] == BEL || (s[j] == ESC && j + 1 < |s| && s[j + 1] == BACKSLASH) || HasTerminator(s, j + 1))
  }

  /** An escape sequence that has not received its last byte yet. */
  predicate Incomplete(s: seq<byte>)
    requires s != []
  {
    if |s| < 2 then true
    else if s[1] == LBRACKET then !(CsiBody(s) < |s| && Final(s[CsiBody(s)]))
    else if Introducer(s[1]) then !HasTerminator(s, 2)
    else false
  }

  method EscapeIncomplete(s: seq<byte>) returns (r: bool)
    requires s != []
    ensures r == Incomplete(s)
  {
    if |s| < 2 {
      return true;
    }
    if s[1] == LBRACKET {
      var j := 2;
      while j < |s| && 0x30 <= s[j] <= 0x3f
        invariant 2 <= j <= |s|
        invariant Span(s, j, 0x30, 0x3f) == Span(s, 2, 0x30, 0x3f)
      {
        j := j + 1;
      }
      while j < |s| && 0x20 <= s[j] <= 0x2f
        invariant 2 <= j <= |s|
        invariant Span(s, j, 0x20, 0x2f) == CsiBody(s)
      {
        j := j + 1;
      }
      return !(j < |s| && Final(s[j]));
    } else if Introducer(s[1]) {
      for j := 2 to |s|
        invariant HasTerminator(s, 2) == HasTerminator(s, j)
      {
        if s[j] == BEL {
          return false;
        }
        if s[j] == ESC && j + 1 < |s| && s[j + 1] == BACKSLASH {
          return false;
        }
      }
      return true;
    } else {
      return false;
    }
  }

  predicate Leader(c: byte) { 0xc0 <= c < 0xf8 }

  predicate Continuation(c: byte) { 0x80 <= c < 0xc0 }

  function LeadLen(c: byte): nat {
    if c < 0xc0 then 0 else if c < 0xe0 then 2 else if c < 0xf0 then 3 else if c < 0xf8 then 4 else 0
  }

  /** The unfinished UTF-8 rune at the end of s, looking from the i-th byte from the end. */
  function Utf8Tail(s: seq<byte>, i: nat): (r: nat)
    requires i >= 1
    requires i <= |s| + 1 && forall p | |s| - i < p < |s| :: Continuation(s[p])
    ensures r <= 3 && r <= |s|
    ensures r > 0 ==> Leader(s[|s| - r]) && forall p | |s| - r < p < |s| :: Continuation(s[p])
    decreases 5 - i
  {
    if i > 4 || i > |s| then 0
    else
      var c := s[|s| - i];
      if c < 0x80 then 0
      else if c >= 0xc0 then
        if LeadLen(c) == 0 then 0 else if i < LeadLen(c) then i else 0
      else Utf8Tail(s, i + 1)
  }

  method IncompleteUTF8TailLen(b: seq<byte>) returns (r: nat)
    ensures r == Utf8Tail(b, 1)
  {
    var i := 1;
    while i <= 4 && i <= |b|
      invariant 1 <= i <= |b| + 1 && forall p | |b| - i < p < |b| :: Continuation(b[p])
      invariant Utf8Tail(b, i) == Utf8Tail(b, 1)
      decreases 5 - i
    {
      var c := b[|b| - i];
      if c < 0x80 {
        return 0;
      }
      if c >= 0xc0 {
        var size := LeadLen(c);
        if size == 0 {
          return 0;
        }
        if i < size {
          return i;
        }
        return 0;
      }
      i := i + 1;
    }
    return 0;
  }

  /** The last ESC among the CARRY_LIMIT bytes before position k, or -1. */
  function LastEsc(s: seq<byte>, k: nat): (r: int)
    requires k <= |s|
    ensures -1 <= r < k
    ensures r >= 0 ==> s[r] == ESC && r + CARRY_LIMIT >= |s| && forall i | r < i < k :: s[i] != ESC
    ensures r < 0 ==> forall i | 0 <= i < k && i + CARRY_LIMIT >= |s| :: s[i] != ESC
  {
    if k == 0 || k - 1 + CARRY_LIMIT < |s| then -1
    else if s[k - 1] == ESC then k - 1
    else LastEsc(s, k - 1)
  }

  function Hold(s: seq<byte>): (r: nat)
    ensures r <= |s|
  {
    if s == [] then 0
    else
      var k := LastEsc(s, |s|);
      if k >= 0 && Incomplete(s[k..]) then |s| - k
      else if s[|s| - 1] == CR then 1
      else Utf8Tail(s, 1)
  }

  /** A held tail never exceeds the carry window. */
  lemma HoldIsBounded(s: seq<byte>)
    ensures Hold(s) <= CARRY_LIMIT
  {
  }

  method IncompleteTailLen(b: seq<byte>) returns (r: nat)
    ensures r == Hold(b)
  {
    var n := |b|;
    if n == 0 {
      return 0;
    }
    var lo := n - CARRY_LIMIT;
    if lo < 0 {
      lo := 0;
    }
    var k := n - 1;
    while k >= lo
      invariant lo - 1 <= k < n
      invariant LastEsc(b, k + 1) == LastEsc(b, n)
    {
      if b[k] == ESC {
        var open := EscapeIncomplete(b[k..]);
        if open {
          return n - k;
        }
        break;
      }
      k := k - 1;
    }
    if b[n - 1] == CR {
      return 1;
    }
    r := IncompleteUTF8TailLen(b);
  }

  // ---- The chunked strip

  method StripANSIChunk(pending: seq<byte>, chunk: seq<byte>) returns (text: seq<byte>, tail: seq<byte>)
    ensures var all := pending + chunk;
            && tail == all[|all| - Hold(all)..]
            && text == Strip(all[..|all| - Hold(all)])
  {
    hide Strip, Hold;
    var combined := chunk;
    if |pending| > 0 {
      combined := pending + chunk;
    }
    assert combined == pending + chunk;
    tail := [];
    var hold := IncompleteTailLen(combined);
    ghost var all := combined;
    if hold > 0 {
      tail := combined[|combined| - hold..];
      combined := combined[..|combined| - hold];
    }
    assert combined == all[..|all| - Hold(all)];
    text := StripANSICore(combined);
  }

  // ---- Stripped text is clean, no longer, and stable

  predicate CleanByte(c: byte) { (c >= 0x20 && c != DEL) || c == LF || c == TAB }

  predicate Clean(s: seq<byte>) { forall i | 0 <= i < |s| :: CleanByte(s[i]) }

  /** Output of the strip holds no ESC, CR, DEL or other C0 byte, and is never longer than the input. */
  lemma {:induction false} StripIsClean(s: seq<byte>)
    ensures Clean(Strip(s)) && |Strip(s)| <= |s|
  {
    if s == [] {
    } else {
      StripIsClean(s[TokenLen(s)..]);
    }
  }

  /** Clean text passes through unchanged. */
  lemma {:induction false} StripKeepsClean(s: seq<byte>)
    requires Clean(s)
    ensures Strip(s) == s
  {
    if s == [] {
    } else {
      assert CleanByte(s[0]);
      StripKeepsClean(s[1..]);
      assert s == [s[0]] + s[1..];
    }
  }

  /** A second strip changes nothing. */
  lemma StripIsStable(s: seq<byte>)
    ensures Strip(Strip(s)) == Strip(s)
  {
    StripIsClean(s);
    StripKeepsClean(Strip(s));
  }

  // ---- What each kind of token leaves, byte by byte

  ghost predicate Within(s: seq<byte>, lo: byte, hi: byte) { forall i | 0 <= i < |s| :: lo <= s[i] <= hi }

  /** A run of bytes in lo..hi ends where it ends in any buffer that goes on with another byte. */
  lemma {:induction false} SpanIsRun(s: seq<byte>, j: nat, n: nat, lo: byte, hi: byte)
    requires j <= n <= |s| && (forall i | j <= i < n :: lo <= s[i] <= hi) && (n < |s| ==> !(lo <= s[n] <= hi))
    ensures Span(s, j, lo, hi) == n
    decreases n - j
  {
    if j < n {
      SpanIsRun(s, j + 1, n, lo, hi);
    }
  }

  /** Where parameters p and intermediates q end. */
  lemma CsiBodyIs(p: seq<byte>, q: seq<byte>, t: seq<byte>)
    requires Within(p, 0x30, 0x3f) && Within(q, 0x20, 0x2f)
    requires t != [] ==> !(0x20 <= t[0] <= 0x2f) && (q == [] ==> !(0x30 <= t[0] <= 0x3f))
    ensures CsiBody([ESC, LBRACKET] + p + q + t) == 2 + |p| + |q|
  {
    var s := [ESC, LBRACKET] + p + q + t;
    assert forall i | 0 <= i < |p| :: s[2 + i] == p[i];
    assert forall i | 0 <= i < |q| :: s[2 + |p| + i] == q[i];
    assert t != [] ==> s[2 + |p| + |q|] == t[0];
    SpanIsRun(s, 2, 2 + |p|, 0x30, 0x3f);
    SpanIsRun(s, 2 + |p|, 2 + |p| + |q|, 0x20, 0x2f);
  }

  lemma StripOfCsi(s: seq<byte>)
    requires |s| >= 2 && s[0] == ESC && s[1] == LBRACKET
    ensures var j := CsiBody(s);
            Strip(s) ==
            if j < |s| && 0x40 <= s[j] <= 0x7e
            then (if s[j] == 0x43 || s[j] == 0x47 then [0x20] else []) + Strip(s[j + 1..])
            else Strip(s[j..])
  {
    hide CsiBody;
  }

  /** A finished CSI: moving the cursor along the line, final C or G, leaves one space, every other one nothing. */
  lemma CsiLeaves(p: seq<byte>, q: seq<byte>, f: byte, t: seq<byte>)
    requires Within(p, 0x30, 0x3f) && Within(q, 0x20, 0x2f) && 0x40 <= f <= 0x7e
    ensures Strip([0x1b, 0x5b] + p + q + [f] + t) == (if f == 0x43 || f == 0x47 then [0x20] else []) + Strip(t)
  {
    hide CsiBody, Strip;
    CsiBodyIs(p, q, [f] + t);
    var s := [ESC, LBRACKET] + p + q + [f] + t;
    StripOfCsi(s);
    assert s == [ESC, LBRACKET] + p + q + ([f] + t);
    assert s[2 + |p| + |q|] == f && s[3 + |p| + |q|..] == t;
  }

  /** A CSI that meets another byte, or the end, before its final one is dropped up to there. */
  lemma CsiCutShort(p: seq<byte>, q: seq<byte>, t: seq<byte>)
    requires Within(p, 0x30, 0x3f) && Within(q, 0x20, 0x2f)
    requires t != [] ==> !(0x20 <= t[0] <= 0x2f) && !(0x40 <= t[0] <= 0x7e) && (q == [] ==> !(0x30 <= t[0] <= 0x3f))
    ensures Strip([0x1b, 0x5b] + p + q + t) == Strip(t)
  {
    hide CsiBody, Strip;
    CsiBodyIs(p, q, t);
    var s := [ESC, LBRACKET] + p + q + t;
    StripOfCsi(s);
    assert s[2 + |p| + |q|..] == t;
    assert t != [] ==> s[2 + |p| + |q|] == t[0];
  }

  /** No BEL and no ESC \ in the body of a control string. */
  ghost predicate Unterminated(body: seq<byte>) {
    forall i | 0 <= i < |body| :: body[i] != 0x07 && !(body[i] == 0x1b && i + 1 < |body| && body[i + 1] == 0x5c)
  }

  predicate StartsString(c: byte) { c in [0x5d, 0x50, 0x58, 0x5e, 0x5f] }

  lemma IntroducerStarts(c: byte)
    ensures StartsString(c) <==> Introducer(c)
  {
  }

  lemma {:induction false} StringEndIs(s: seq<byte>, j: nat, n: nat)
    requires j <= n <= |s|
    requires forall i | j <= i < n :: s[i] != BEL && !(s[i] == ESC && i + 1 < |s| && s[i + 1] == BACKSLASH)
    ensures StringEnd(s, j) == StringEnd(s, n)
    decreases n - j
  {
    if j < n {
      StringEndIs(s, j + 1, n);
    }
  }

  lemma StringEndAt(s: seq<byte>, n: nat)
    requires n <= |s|
    ensures n == |s| ==> StringEnd(s, n) == n
    ensures n < |s| && s[n] == BEL ==> StringEnd(s, n) == n + 1
    ensures n + 1 < |s| && s[n] == ESC && s[n + 1] == BACKSLASH ==> StringEnd(s, n) == n + 2
  {
  }

  lemma StripOfEmpty()
    ensures Strip([]) == []
  {
  }

  lemma StripOfString(s: seq<byte>)
    requires |s| >= 2 && s[0] == ESC && StartsString(s[1])
    ensures Strip(s) == Strip(s[StringEnd(s, 2)..])
  {
    hide StringEnd, StartsString;
    IntroducerStarts(s[1]);
    assert TokenLen(s) == StringEnd(s, 2) && TokenOut(s) == [];
  }

  /** A control string, OSC, DCS, SOS, PM or APC, is dropped with its terminator, BEL or ESC \, or to the end of the
      buffer without one. */
  lemma ControlStringLeavesNothing(c: byte, body: seq<byte>, t: seq<byte>)
    requires StartsString(c) && Unterminated(body)
    ensures Strip([0x1b, c] + body) == []
    ensures Strip([0x1b, c] + body + [0x07] + t) == Strip(t)
    ensures Strip([0x1b, c] + body + [0x1b, 0x5c] + t) == Strip(t)
  {
    hide Strip, StringEnd;
    var a, b, n := [ESC, c] + body + [BEL] + t, [ESC, c] + body + [ESC, BACKSLASH] + t, 2 + |body|;
    var open := [ESC, c] + body;
    StringEndIs(open, 2, n);
    StringEndIs(a, 2, n);
    StringEndIs(b, 2, n);
    StringEndAt(open, n);
    StringEndAt(a, n);
    StringEndAt(b, n);
    StripOfEmpty();
    StripOfString(open);
    StripOfString(a);
    StripOfString(b);
    assert open[n..] == [] && a[n + 1..] == t && b[n + 2..] == t;
  }

  /** Every other two-byte escape is dropped, and so is an ESC with nothing behind it. */
  lemma TwoByteEscapeLeavesNothing(c: byte, t: seq<byte>)
    requires c != 0x5b && !StartsString(c)
    ensures Strip([0x1b, c] + t) == Strip(t) && Strip([0x1b]) == []
  {
    assert ([ESC, c] + t)[2..] == t && [ESC][1..] == [];
  }

  /** CR and CR LF become LF. */
  lemma LineEndLeavesLf(t: seq<byte>)
    ensures Strip([0x0d, 0x0a] + t) == [0x0a] + Strip(t)
    ensures t == [] || t[0] != 0x0a ==> Strip([0x0d] + t) == [0x0a] + Strip(t)
  {
    assert ([CR, LF] + t)[2..] == t && ([CR] + t)[1..] == t;
  }

  /** The other control bytes are dropped, all the rest is kept. */
  lemma OtherByteLeaves(c: byte, t: seq<byte>)
    requires c != 0x1b && c != 0x0d
    ensures Strip([c] + t) == (if (c < 0x20 && c != 0x0a && c != 0x09) || c == 0x7f then [] else [c]) + Strip(t)
  {
    assert ([c] + t)[1..] == t;
  }

  // ---- What is held back, byte by byte

  /** A CSI waits for its final byte, and goes on waiting if another byte came instead. */
  lemma CsiWaits(p: seq<byte>, q: seq<byte>, t: seq<byte>)
    requires Within(p, 0x30, 0x3f) && Within(q, 0x20, 0x2f)
    requires t != [] ==> !(0x20 <= t[0] <= 0x2f) && (q == [] ==> !(0x30 <= t[0] <= 0x3f))
    ensures Incomplete([0x1b, 0x5b] + p + q + t) <==> !(t != [] && 0x40 <= t[0] <= 0x7e)
  {
    hide CsiBody;
    CsiBodyIs(p, q, t);
    var s := [ESC, LBRACKET] + p + q + t;
    assert t != [] ==> s[2 + |p| + |q|] == t[0];
  }

  /** An ESC waits for its second byte, a control string for its terminator, and no other escape for anything. */
  lemma EscapeWaits(c: byte, t: seq<byte>)
    requires c != 0x5b
    ensures Incomplete([0x1b]) && (Incomplete([0x1b, c] + t) <==> StartsString(c) && Unterminated(t))
  {
    var s := [ESC, c] + t;
    assert forall i | 0 <= i < |t| :: s[2 + i] == t[i];
    if HasTerminator(s, 2) {
      var i :| 2 <= i < |s| && (s[i] == BEL || (s[i] == ESC && i + 1 < |s| && s[i + 1] == BACKSLASH));
      assert t[i - 2] == s[i];
    }
  }

  /** The last r bytes are the start of a longer rune: its leader and r - 1 continuation bytes. */
  ghost predicate RuneStart(s: seq<byte>, r: nat) {
    && 1 <= r <= |s| && (forall p | |s| - r < p < |s| :: 0x80 <= s[p] <= 0xbf)
    && var lead := s[|s| - r];
       (if r == 1 then 0xc0 <= lead else if r == 2 then 0xe0 <= lead else r == 3 && 0xf0 <= lead) && lead <= 0xf7
  }

  lemma RuneWaits(s: seq<byte>, r: nat)
    ensures r > 0 ==> (Utf8Tail(s, 1) == r <==> RuneStart(s, r))
  {
    assert Utf8Tail(s, 1) == 0 ==> forall n :: !RuneStart(s, n) by {
      forall n ensures Utf8Tail(s, 1) == 0 ==> !RuneStart(s, n) {
        if RuneStart(s, n) {
          RuneIsHeld(s, 1, n);
        }
      }
    }
  }

  lemma {:induction false} RuneIsHeld(s: seq<byte>, i: nat, r: nat)
    requires RuneStart(s, r) && 1 <= i <= r && forall p | |s| - i < p < |s| :: Continuation(s[p])
    ensures Utf8Tail(s, i) == r
    decreases r - i
  {
    if i < r {
      assert Continuation(s[|s| - i]);
      RuneIsHeld(s, i + 1, r);
    }
  }

  /** Held back is the last escape of the window if it waits, else a CR at the end, else the start of a rune. */
  lemma HeldIs(s: seq<byte>, k: nat)
    requires k < |s| <= k + 128 && s[k] == 0x1b && forall i | k < i < |s| :: s[i] != 0x1b
    ensures Hold(s) == if Incomplete(s[k..]) then |s| - k else if s[|s| - 1] == 0x0d then 1 else Utf8Tail(s, 1)
  {
    hide Incomplete, Utf8Tail;
    assert LastEsc(s, |s|) == k;
  }

  lemma HeldWithoutEscape(s: seq<byte>)
    requires s != [] && forall i | 0 <= i < |s| && |s| <= i + 128 :: s[i] != 0x1b
    ensures Hold(s) == if s[|s| - 1] == 0x0d then 1 else Utf8Tail(s, 1)
  {
    hide Incomplete, Utf8Tail;
    assert LastEsc(s, |s|) < 0;
  }
}
