/** Following a growing jsonl file: each tick reads what was appended, delivers the complete
    lines that hold a record, and remembers how far it got. */
module JsonlTailer {
  import opened Maps
  import opened Bytes

  type Path = string
  type Line = seq<byte>

  /** The scanner's buffer: a line and its newline must fit. */
  const SCANNER_CAP: nat := 4 * 1024 * 1024

  // ---- Lines

  function NextNewline(d: seq<byte>, i: nat): (r: nat)
    requires i <= |d|
    ensures i <= r <= |d| && (r < |d| ==> d[r] == LF) && forall j | i <= j < r :: d[j] != LF
    decreases |d| - i
  {
    if i < |d| && d[i] != LF then NextNewline(d, i + 1) else i
  }

  /** The newline-terminated lines of d; an unfinished last line is not one of them. */
  function Lines(d: seq<byte>): seq<Line> {
    var n := NextNewline(d, 0);
    if n == |d| then [] else [d[..n]] + Lines(d[n + 1..])
  }

  /** How many bytes those lines and their newlines take. */
  function CompleteLen(d: seq<byte>): (r: nat)
    ensures r <= |d|
  {
    var n := NextNewline(d, 0);
    if n == |d| then 0 else n + 1 + CompleteLen(d[n + 1..])
  }

  predicate AtLineStart(d: seq<byte>, offset: nat) { offset <= |d| && (offset > 0 ==> d[offset - 1] == LF) }

  lemma NewlineOfPrefix(a: seq<byte>, b: seq<byte>)
    requires a != [] && a[|a| - 1] == LF
    ensures NextNewline(a + b, 0) == NextNewline(a, 0) < |a|
  {
    var n, m := NextNewline(a, 0), NextNewline(a + b, 0);
    assert (a + b)[|a| - 1] == LF;
    assert n < |a| ==> (a + b)[n] == LF;
  }

  lemma FirstLine(d: seq<byte>)
    requires NextNewline(d, 0) < |d|
    ensures var n := NextNewline(d, 0);
            Lines(d) == [d[..n]] + Lines(d[n + 1..]) && CompleteLen(d) == n + 1 + CompleteLen(d[n + 1..])
  {
    hide NextNewline;
  }

  lemma NoLine(d: seq<byte>)
    requires NextNewline(d, 0) == |d|
    ensures Lines(d) == [] && CompleteLen(d) == 0
  {
  }

  /** Cutting after a newline cuts the list of lines. */
  lemma {:induction false} LinesSplit(a: seq<byte>, b: seq<byte>)
    requires a != [] ==> a[|a| - 1] == LF
    ensures Lines(a + b) == Lines(a) + Lines(b)
    ensures CompleteLen(a + b) == |a| + CompleteLen(b)
  {
    hide Lines, CompleteLen;
    if a == [] {
      NoLine(a);
      assert [] + b == b && [] + Lines(b) == Lines(b);
    } else {
      NewlineOfPrefix(a, b);
      var n := NextNewline(a, 0);
      var rest := a[n + 1..];
      FirstLine(a);
      FirstLine(a + b);
      LinesSplit(rest, b);
      assert (a + b)[n + 1..] == rest + b && (a + b)[..n] == a[..n];
      assert [a[..n]] + (Lines(rest) + Lines(b)) == ([a[..n]] + Lines(rest)) + Lines(b);
    }
  }

  /** The complete part ends a line and leaves no newline behind. */
  lemma {:induction false} CompletePart(d: seq<byte>)
    ensures var n := CompleteLen(d);
            && AtLineStart(d, n) && (forall j | n <= j < |d| :: d[j] != LF)
            && Lines(d[..n]) == Lines(d) && Lines(d[n..]) == []
  {
    hide Lines, CompleteLen;
    var i := NextNewline(d, 0);
    if i < |d| {
      var rest := d[i + 1..];
      FirstLine(d);
      CompletePart(rest);
      var m := CompleteLen(rest);
      var n := i + 1 + m;
      assert forall j | n <= j < |d| :: d[j] == rest[j - (i + 1)];
      assert m > 0 ==> d[n - 1] == rest[m - 1];
      assert d[n..] == rest[m..];
      LinesSplit(d[..i + 1], rest[..m]);
      LinesSplit(d[..i + 1], rest);
      assert d[..n] == d[..i + 1] + rest[..m] && d == d[..i + 1] + rest;
    } else {
      NoLine(d);
      NoLine(d[..0]);
      assert d[0..] == d;
    }
  }

  // ---- One tick

  function DropCR(line: Line): Line { if line != [] && line[|line| - 1] == CR then line[..|line| - 1] else line }

  function IsSpace(c: byte): bool { c == 0x20 || 0x09 <= c <= 0x0d }

  predicate Blank(line: Line) { forall i | 0 <= i < |line| :: IsSpace(line[i]) }

  predicate Fits(line: Line) { |line| + 1 <= SCANNER_CAP }

  /** The records among lines; parses says which texts are JSON objects. */
  function Records(lines: seq<Line>, parses: Line -> bool): seq<Line> {
    if lines == [] then []
    else
      var rest := Records(lines[..|lines| - 1], parses);
      var line := DropCR(lines[|lines| - 1]);
      if !Blank(line) && parses(line) then rest + [line] else rest
  }

  lemma RecordsOfLast(lines: seq<Line>, parses: Line -> bool)
    requires lines != []
    ensures var line := DropCR(lines[|lines| - 1]);
            Records(lines, parses) ==
              Records(lines[..|lines| - 1], parses) + (if !Blank(line) && parses(line) then [line] else [])
  {
  }

  lemma {:induction false} RecordsSplit(a: seq<Line>, b: seq<Line>, parses: Line -> bool)
    ensures Records(a + b, parses) == Records(a, parses) + Records(b, parses)
  {
    hide Records;
    if b == [] {
      assert a + b == a;
      NoRecords(parses);
    } else {
      var front, last := b[..|b| - 1], b[|b| - 1];
      RecordsSplit(a, front, parses);
      RecordsOfLast(b, parses);
      RecordsOfLast(a + b, parses);
      assert (a + b)[..|a + b| - 1] == a + front;
    }
  }

  predicate AllFit(lines: seq<Line>) { forall i | 0 <= i < |lines| :: Fits(lines[i]) }

  /** How many lines come before the first one the scanner cannot hold. */
  function Scanned(lines: seq<Line>): (k: nat)
    ensures k <= |lines| && (forall i | 0 <= i < k :: Fits(lines[i])) && (k < |lines| ==> !Fits(lines[k]))
  {
    if lines == [] || !Fits(lines[0]) then 0 else 1 + Scanned(lines[1..])
  }

  datatype TickResult = TickResult(records: seq<Line>, offset: nat, failed: bool)

  /** What a tick delivers of a file of this content, and the offset it leaves. A shrunk file is read from the start. */
  function Tick(offset: nat, content: seq<byte>, parses: Line -> bool): TickResult {
    var prev := if |content| < offset then 0 else offset;
    var data := content[prev..];
    if CompleteLen(data) == 0 then TickResult([], offset, false)
    else
      var lines := Lines(data);
      var k := Scanned(lines);
      if k < |lines| then TickResult(Records(lines[..k], parses), offset, true)
      else TickResult(Records(lines, parses), prev + CompleteLen(data), false)
  }

  /** The scanner holds a line together with its newline in 4 MiB. */
  lemma FitsIff(line: Line)
    ensures Fits(line) <==> |line| < 4194304
  {
  }

  predicate WhiteSpace(c: byte) { c in [0x20, 0x09, 0x0a, 0x0b, 0x0c, 0x0d] }

  /** What one line delivers: its text, less the CR of a CR LF, if that is JSON and not all white space. */
  lemma LineDelivers(text: Line, parses: Line -> bool)
    ensures var record := if (exists i :: 0 <= i < |text| && !WhiteSpace(text[i])) && parses(text) then [text] else [];
            && Records([text + [CR]], parses) == record
            && (text == [] || text[|text| - 1] != CR ==> Records([text], parses) == record)
  {
    assert (text + [CR])[..|text|] == text;
    assert forall i | 0 <= i < |text| :: WhiteSpace(text[i]) <==> IsSpace(text[i]);
    RecordsOfLast([text + [CR]], parses);
    RecordsOfLast([text], parses);
  }

  /** A tick fails exactly when a line it reads does not fit; then the offset stays. */
  lemma TickFailsIff(offset: nat, content: seq<byte>, parses: Line -> bool)
    ensures var lines := Lines(content[if |content| < offset then 0 else offset..]);
            Tick(offset, content, parses).failed <==> exists i :: 0 <= i < |lines| && !Fits(lines[i])
    ensures Tick(offset, content, parses).failed ==> Tick(offset, content, parses).offset == offset
  {
    hide Records, Fits;
    var data := content[if |content| < offset then 0 else offset..];
    NoLinesIff(data);
    var k := Scanned(Lines(data));
  }

  lemma NoLinesIff(data: seq<byte>)
    ensures CompleteLen(data) == 0 <==> Lines(data) == []
  {
  }

  lemma LastNewline(data: seq<byte>, last: int)
    requires -1 <= last < |data| && (last >= 0 ==> data[last] == LF)
    requires forall j | last < j < |data| :: data[j] != LF
    ensures CompleteLen(data) == last + 1
  {
    CompletePart(data);
    var n := CompleteLen(data);
    assert n > 0 ==> data[n - 1] == LF;
  }

  class Tailer {
    var offsets: map<Path, nat>

    constructor ()
      ensures offsets == map[] && forall p :: OffsetOf(p) == 0
    {
      offsets := map[];
    }

    function OffsetOf(path: Path): nat
      reads this
    {
      if path in offsets then offsets[path] else 0
    }

    /** file is None when it cannot be opened or read. */
    method Tail(path: Path, file: Option<seq<byte>>, parses: Line -> bool) returns (records: seq<Line>, failed: bool)
      modifies this
      ensures file.None? ==> failed && records == [] && offsets == old(offsets)
      ensures file.Some? ==>
                var t := Tick(old(OffsetOf(path)), file.value, parses);
                records == t.records && failed == t.failed && OffsetOf(path) == t.offset
      ensures forall p | p != path :: OffsetOf(p) == old(OffsetOf(p))
    {
      hide Lines, CompleteLen, Records, Scanned;
      records, failed := [], false;
      var prev := OffsetOf(path);
      if file.None? {
        failed := true;
        return;
      }
      var content := file.value;
      var size := |content|;
      if size < prev {
        prev := 0;
      }
      if size == prev {
        assert content[prev..] == [];
        NoLine([]);
        return;
      }
      var data := content[prev..];
      var lastNL := |data| - 1;
      while lastNL >= 0 && data[lastNL] != LF
        invariant -1 <= lastNL < |data|
        invariant forall j | lastNL < j < |data| :: data[j] != LF
      {
        lastNL := lastNL - 1;
      }
      LastNewline(data, lastNL);
      if lastNL < 0 {
        return;
      }
      var full := data[..lastNL + 1];
      CompletePart(data);
      NoRecords(parses);
      records, failed := Scan(full, parses);
      if failed {
        return;
      }
      assert Lines(full)[..|Lines(full)|] == Lines(full);
      offsets := offsets[path := prev + lastNL + 1];
    }

    method Reset(path: Path)
      modifies this
      ensures OffsetOf(path) == 0 && forall p | p != path :: OffsetOf(p) == old(OffsetOf(p))
    {
      offsets := offsets - {path};
    }
  }

  lemma ScanStep(rest: seq<byte>, done: seq<Line>, parses: Line -> bool)
    requires NextNewline(rest, 0) < |rest|
    ensures var n := NextNewline(rest, 0);
            var line := DropCR(rest[..n]);
            && done + Lines(rest) == (done + [rest[..n]]) + Lines(rest[n + 1..])
            && Records(done + [rest[..n]], parses) ==
               Records(done, parses) + (if !Blank(line) && parses(line) then [line] else [])
  {
    var n := NextNewline(rest, 0);
    assert (done + [rest[..n]])[..|done|] == done;
  }

  lemma ScannedIs(lines: seq<Line>, k: nat)
    requires k <= |lines| && (forall i | 0 <= i < k :: Fits(lines[i])) && (k < |lines| ==> !Fits(lines[k]))
    ensures Scanned(lines) == k
  {
    var m := Scanned(lines);
    assert !(m < k) && !(k < m);
  }

  /** The line scanner over newline-terminated input: it stops with an error at a line it cannot hold. */
  method Scan(full: seq<byte>, parses: Line -> bool) returns (records: seq<Line>, failed: bool)
    requires full != [] ==> full[|full| - 1] == LF
    ensures var lines := Lines(full);
            records == Records(lines[..Scanned(lines)], parses) && failed == (Scanned(lines) < |lines|)
  {
    hide Lines, Records, Scanned;
    records := [];
    var rest := full;
    ghost var done: seq<Line> := [];
    ghost var all := Lines(full);
    assert Records([], parses) == [] by {
      NoRecords(parses);
    }
    assert [] + all == all;
    while rest != []
      invariant rest != [] ==> rest[|rest| - 1] == LF
      invariant all == done + Lines(rest)
      invariant forall i | 0 <= i < |done| :: Fits(done[i])
      invariant records == Records(done, parses)
      decreases |rest|
    {
      var n := NextNewline(rest, 0);
      ScanStep(rest, done, parses);
      if n + 1 > SCANNER_CAP {
        assert all[|done|] == rest[..n];
        ScannedIs(all, |done|);
        assert all[..|done|] == done;
        return records, true;
      }
      var line := DropCR(rest[..n]);
      if !Blank(line) && parses(line) {
        records := records + [line];
      }
      done := done + [rest[..n]];
      rest := rest[n + 1..];
    }
    NoLines();
    assert done == all;
    ScannedIs(all, |done|);
    assert all[..|done|] == all;
    failed := false;
  }

  lemma NoRecords(parses: Line -> bool)
    ensures Records([], parses) == []
  {
  }

  lemma NoLines()
    ensures Lines([]) == []
  {
  }

  // ---- Runs on a growing file

  datatype State = State(content: seq<byte>, offset: nat, delivered: seq<Line>)

  datatype Event = Append(bytes: seq<byte>) | Poll

  function Step(st: State, e: Event, parses: Line -> bool): State {
    match e
    case Append(bytes) => st.(content := st.content + bytes)
    case Poll =>
      var t := Tick(st.offset, st.content, parses);
      st.(offset := t.offset, delivered := st.delivered + t.records)
  }

  function Run(st: State, events: seq<Event>, parses: Line -> bool): State {
    if events == [] then st else Step(Run(st, events[..|events| - 1], parses), events[|events| - 1], parses)
  }

  /** The offset is at the start of a line, and what was delivered is what lies before it. */
  ghost predicate Inv(st: State, parses: Line -> bool) {
    AtLineStart(st.content, st.offset) && st.delivered == Records(Lines(st.content[..st.offset]), parses)
  }

  /** The complete lines that a tick will find. */
  function Pending(st: State): seq<Line>
    requires st.offset <= |st.content|
  {
    Lines(st.content[st.offset..])
  }

  lemma PendingLines(st: State)
    requires AtLineStart(st.content, st.offset)
    ensures Lines(st.content) == Lines(st.content[..st.offset]) + Pending(st)
    ensures CompleteLen(st.content[st.offset..]) == 0 <==> Pending(st) == []
  {
    LinesSplit(st.content[..st.offset], st.content[st.offset..]);
    assert st.content == st.content[..st.offset] + st.content[st.offset..];
  }

  /** A tick keeps the account straight exactly when every pending line fits the scanner, or nothing deliverable
      comes before the first that does not: that part is delivered again and again. */
  lemma PollKeepsInvIff(st: State, parses: Line -> bool)
    requires Inv(st, parses)
    ensures var lines := Pending(st);
            Inv(Step(st, Poll, parses), parses) <==>
            Scanned(lines) == |lines| || Records(lines[..Scanned(lines)], parses) == []
  {
    hide Lines, CompleteLen, Records, Scanned;
    var lines := Pending(st);
    var k := Scanned(lines);
    PendingLines(st);
    if k < |lines| {
      var r := Records(lines[..k], parses);
      assert |st.delivered + r| == |st.delivered| + |r|;
      assert r == [] ==> st.delivered + r == st.delivered;
    } else {
      PollDelivers(st, parses);
    }
  }

  /** r, n times. */
  function Times(r: seq<Line>, n: nat): seq<Line> { if n == 0 then [] else Times(r, n - 1) + r }

  function Polls(n: nat): (events: seq<Event>)
    ensures |events| == n && forall i | 0 <= i < n :: events[i] == Poll
  {
    seq(n, i => Poll)
  }

  /** A line the scanner cannot hold is never passed: every tick delivers the records before it once more. */
  lemma {:induction false} StuckTicks(st: State, n: nat, parses: Line -> bool)
    requires AtLineStart(st.content, st.offset) && Scanned(Pending(st)) < |Pending(st)|
    ensures var lines := Pending(st);
            Run(st, Polls(n), parses) ==
            st.(delivered := st.delivered + Times(Records(lines[..Scanned(lines)], parses), n))
  {
    hide Lines, CompleteLen, Records, Scanned;
    var lines := Pending(st);
    var r := Records(lines[..Scanned(lines)], parses);
    PendingLines(st);
    if n == 0 {
      assert st.delivered + [] == st.delivered;
    } else {
      StuckTicks(st, n - 1, parses);
      assert Polls(n)[..n - 1] == Polls(n - 1);
      var mid := Run(st, Polls(n - 1), parses);
      assert Pending(mid) == lines;
      assert (st.delivered + Times(r, n - 1)) + r == st.delivered + Times(r, n);
    }
  }

  /** A record and a line that does not fit after it: the record is delivered at every tick. */
  lemma LongLineRepeatsRecord(r: Line, long: Line, n: nat, parses: Line -> bool)
    requires (forall i | 0 <= i < |r| :: r[i] != LF) && (forall i | 0 <= i < |long| :: long[i] != LF)
    requires Fits(r) && !Fits(long) && DropCR(r) == r && !Blank(r) && parses(r)
    ensures Run(State(r + [LF] + long + [LF], 0, []), Polls(n), parses).delivered == Times([r], n)
  {
    hide Lines, Blank, DropCR, Fits, Run, CompleteLen;
    var content := r + [LF] + long + [LF];
    var st := State(content, 0, []);
    TwoLines(r, long, content);
    assert content[0..] == content;
    var lines := Pending(st);
    assert lines == [r, long] && lines[1..] == [long];
    assert Scanned([long]) == 0 && Scanned(lines) == 1;
    assert lines[..1] == [r] && [r][..0] == [];
    RecordsOfLast([r], parses);
    NoRecords(parses);
    assert Records([r], parses) == [] + [r] == [r];
    assert lines[..Scanned(lines)] == [r];
    StuckTicks(st, n, parses);
    assert [] + Times([r], n) == Times([r], n);
  }

  /** A digit, and as many letters as the scanner's buffer holds. */
  lemma LongLineRepeatsDigit(n: nat, parses: Line -> bool)
    requires parses([0x31])
    ensures var long := seq(SCANNER_CAP, i => 0x61 as byte);
            Run(State([0x31] + [LF] + long + [LF], 0, []), Polls(n), parses).delivered == Times([[0x31]], n)
  {
    hide Run, Times, Records, Lines;
    var long := seq(SCANNER_CAP, i => 0x61 as byte);
    var r: Line := [0x31];
    assert !IsSpace(r[0]);
    LongLineRepeatsRecord(r, long, n, parses);
  }

  lemma NewlineAt(d: seq<byte>, n: nat)
    requires n < |d| && d[n] == LF && forall i | 0 <= i < n :: d[i] != LF
    ensures NextNewline(d, 0) == n
  {
  }

  lemma TwoLines(a: Line, b: Line, content: seq<byte>)
    requires (forall i | 0 <= i < |a| :: a[i] != LF) && (forall i | 0 <= i < |b| :: b[i] != LF)
    requires content == a + [LF] + b + [LF]
    ensures Lines(content) == [a, b]
  {
    hide Lines, NextNewline, CompleteLen;
    NewlineAt(content, |a|);
    FirstLine(content);
    var rest := content[|a| + 1..];
    assert rest == b + [LF];
    NewlineAt(rest, |b|);
    FirstLine(rest);
    assert rest[|b| + 1..] == [];
    NoLines();
    assert content[..|a|] == a && rest[..|b|] == b;
  }

  /** With every pending line within the scanner's cap, a tick delivers all of them and moves past them. */
  lemma PollDelivers(st: State, parses: Line -> bool)
    requires Inv(st, parses) && Scanned(Pending(st)) == |Pending(st)|
    ensures var st' := Step(st, Poll, parses);
            Inv(st', parses) && st'.delivered == Records(Lines(st.content), parses) && Pending(st') == []
  {
    hide Lines, CompleteLen, Records, Scanned;
    var before, data := st.content[..st.offset], st.content[st.offset..];
    var n := CompleteLen(data);
    PendingLines(st);
    CompletePart(data);
    RecordsSplit(Lines(before), Lines(data), parses);
    NoRecords(parses);
    LinesSplit(before, data[..n]);
    assert st.content[..st.offset + n] == before + data[..n];
    assert st.content[st.offset + n..] == data[n..];
    assert n > 0 ==> st.content[st.offset + n - 1] == data[n - 1];
    if n == 0 {
      assert st.delivered + [] == st.delivered && data[0..] == data;
    }
  }

  /** A file that shrank is read again from its start, and the account goes on with it. */
  lemma ShrunkFileIsReadAgain(st: State, content: seq<byte>, parses: Line -> bool)
    requires |content| < st.offset && AllFit(Lines(content)) && Lines(content) != []
    ensures var st' := Step(st.(content := content), Poll, parses);
            && st'.delivered == st.delivered + Records(Lines(content), parses)
            && Inv(st'.(delivered := Records(Lines(content), parses)), parses) && Pending(st') == []
  {
    hide Lines, CompleteLen, Records, Tick;
    ReadFromStart(st.offset, content, parses);
    CompletePart(content);
  }

  lemma ReadFromStart(offset: nat, content: seq<byte>, parses: Line -> bool)
    requires |content| < offset && AllFit(Lines(content)) && Lines(content) != []
    ensures Tick(offset, content, parses) == TickResult(Records(Lines(content), parses), CompleteLen(content), false)
  {
    hide Lines, CompleteLen, Records, Scanned;
    assert content[0..] == content;
    NoLinesIff(content);
    ScannedIs(Lines(content), |Lines(content)|);
  }

  /** Without a complete line it stays so for the next tick. But a file that is replaced and has grown past the old
      offset before the next tick is taken for the old one: of a record across the offset nothing is delivered. */
  lemma ReplacedFileCanLoseRecord(parses: Line -> bool)
    requires parses([0x31, 0x32])
    ensures var content: seq<byte> := [0x31, 0x32, LF];
            && Lines(content) == [[0x31, 0x32]] && Records(Lines(content), parses) == [[0x31, 0x32]]
            && forall delivered :: Step(State(content, 2, delivered), Poll, parses) == State(content, 3, delivered)
  {
    hide Lines, CompleteLen, Records, Scanned;
    var line: Line := [0x31, 0x32];
    var content: seq<byte> := [0x31, 0x32, LF];
    NewlineAt(content, 2);
    FirstLine(content);
    assert content[..2] == line && content[3..] == [];
    NoLines();
    assert !WhiteSpace(line[0]);
    LineDelivers(line, parses);
    var rest := content[2..];
    assert rest == [LF];
    NewlineAt(rest, 0);
    FirstLine(rest);
    assert rest[..0] == [] && rest[1..] == [];
    NoLine(rest[1..]);
    var blank: Line := [];
    LineDelivers(blank, parses);
    ScannedIs([blank], 1);
    assert Lines(rest) == [blank] && CompleteLen(rest) == 1;
    assert Records([blank], parses) == [];
    assert Tick(2, content, parses) == TickResult([], 3, false);
    hide Tick;
    forall delivered ensures Step(State(content, 2, delivered), Poll, parses) == State(content, 3, delivered) {
      assert delivered + [] == delivered;
    }
  }

  lemma AppendKeepsInv(st: State, bytes: seq<byte>, parses: Line -> bool)
    requires Inv(st, parses)
    ensures Inv(Step(st, Append(bytes), parses), parses)
  {
    assert (st.content + bytes)[..st.offset] == st.content[..st.offset];
  }

  /** Exactly once: for any interleaving of appends, cut anywhere, and ticks on a file whose complete lines all
      fit the scanner, what was delivered is at every moment the records of a prefix of the complete lines, in
      order, and right after a tick the records of all of them. */
  lemma {:induction false} DeliversExactlyOnce(st: State, events: seq<Event>, parses: Line -> bool)
    requires Inv(st, parses)
    requires var end := Run(st, events, parses); AllFit(Lines(end.content))
    ensures var end := Run(st, events, parses);
            && Inv(end, parses)
            && (events != [] && events[|events| - 1].Poll? ==> end.delivered == Records(Lines(end.content), parses))
  {
    hide Lines, Records, Scanned, Inv, Tick;
    if events == [] {
    } else {
      var front, e := events[..|events| - 1], events[|events| - 1];
      var mid := Run(st, front, parses);
      match e
      case Append(bytes) =>
        PrefixFits(mid.content, bytes);
        DeliversExactlyOnce(st, front, parses);
        AppendKeepsInv(mid, bytes, parses);
      case Poll =>
        DeliversExactlyOnce(st, front, parses);
        PollFits(mid, parses);
        PollDelivers(mid, parses);
    }
  }

  lemma PollFits(st: State, parses: Line -> bool)
    requires Inv(st, parses) && AllFit(Lines(st.content))
    ensures Scanned(Pending(st)) == |Pending(st)|
  {
    hide Lines, Records, Scanned;
    PendingLines(st);
    var front, tail := Lines(st.content[..st.offset]), Pending(st);
    forall i | 0 <= i < |tail| ensures Fits(tail[i]) {
      assert Lines(st.content)[|front| + i] == tail[i];
    }
    ScannedIs(tail, |tail|);
  }

  /** The complete lines of a file stay its lines when it grows. */
  lemma {:induction false} PrefixFits(content: seq<byte>, bytes: seq<byte>)
    requires AllFit(Lines(content + bytes))
    ensures AllFit(Lines(content))
  {
    hide Lines, CompleteLen;
    var n := CompleteLen(content);
    CompletePart(content);
    LinesSplit(content[..n], content[n..] + bytes);
    assert content[..n] + (content[n..] + bytes) == content + bytes;
    forall i | 0 <= i < |Lines(content)| ensures Fits(Lines(content)[i]) {
      assert Lines(content + bytes)[i] == Lines(content)[i];
    }
  }
}
