/** Which session a wrapped invocation is bound to, and the argv rewritten so that it cannot end up
    anywhere else. */
module ArgvLocking {
  type Token = string

  // ---- Strings

  /** Unicode white space. */
  predicate IsSpace(c: char) {
    var u := c as int;
    0x09 <= u <= 0x0d || u == 0x20 || u == 0x85 || u == 0xa0 || u == 0x1680 || 0x2000 <= u <= 0x200a
    || u == 0x2028 || u == 0x2029 || u == 0x202f || u == 0x205f || u == 0x3000
  }

  function TrimLeft(s: Token): (r: Token)
    ensures r != [] ==> !IsSpace(r[0])
  {
    if s != [] && IsSpace(s[0]) then TrimLeft(s[1..]) else s
  }

  function TrimRight(s: Token): (r: Token)
    ensures r != [] ==> !IsSpace(r[|r| - 1])
    ensures r <= s
  {
    if s != [] && IsSpace(s[|s| - 1]) then TrimRight(s[..|s| - 1]) else s
  }

  function TrimSpace(s: Token): Token { TrimRight(TrimLeft(s)) }

  predicate HasPrefix(s: Token, prefix: Token) { prefix <= s }

  predicate Dashed(s: Token) { HasPrefix(s, "-") }

  // ---- Parsing

  datatype Scan = Scan(sessionID: Token, resume: bool, cont: bool, fork: bool, sessionFlag: bool)

  const NOTHING: Scan := Scan("", false, false, false, false)

  /** How the token at i is read: with a session value, which may be the next token, or as a mere flag. */
  datatype Reading = Plain | Resume | Continue | Fork
    | SessionNext | SessionInline(id: Token) | ResumeNext | ResumeInline(id: Token)

  function Read(args: seq<Token>, i: nat): (r: Reading)
    requires i < |args|
    ensures TakesNext(r) ==> i + 1 < |args|
  {
    var arg := TrimSpace(args[i]);
    var more := i + 1 < |args|;
    if arg == "--session-id" && more then SessionNext
    else if HasPrefix(arg, "--session-id=") then SessionInline(TrimSpace(arg[|"--session-id="|..]))
    else if arg == "--resume" && more && !Dashed(args[i + 1]) then ResumeNext
    else if arg == "--resume" then Resume
    else if HasPrefix(arg, "--resume=") then ResumeInline(TrimSpace(arg[|"--resume="|..]))
    else if arg == "-r" && more && !Dashed(args[i + 1]) then ResumeNext
    else if arg == "-r" then Resume
    else if arg == "--continue" || arg == "-c" then Continue
    else if arg == "--fork-session" then Fork
    else Plain
  }

  function TakesNext(r: Reading): bool { r.SessionNext? || r.ResumeNext? }

  /** The scan after one reading; next is the token behind it, for the readings that take it. */
  function Noted(s: Scan, r: Reading, next: Token): Scan {
    match r
    case SessionNext => s.(sessionID := TrimSpace(next), sessionFlag := true)
    case SessionInline(id) => s.(sessionID := id, sessionFlag := true)
    case ResumeNext => s.(sessionID := TrimSpace(next), resume := true)
    case ResumeInline(id) => s.(sessionID := id, resume := true)
    case Resume => s.(resume := true)
    case Continue => s.(cont := true)
    case Fork => s.(fork := true)
    case Plain => s
  }

  function Note(s: Scan, args: seq<Token>, i: nat): Scan
    requires i < |args|
  {
    Noted(s, Read(args, i), if i + 1 < |args| then args[i + 1] else "")
  }

  /** The scan of the tokens from i on. */
  function ScanFrom(args: seq<Token>, i: nat, s: Scan): Scan
    requires i <= |args|
    decreases |args| - i
  {
    if i == |args| then s
    else ScanFrom(args, After(args, i), Note(s, args, i))
  }

  datatype Invocation = Invocation(sessionID: Token, lockable: bool, injectFlag: bool)

  /** What a scan means; uuid is the id generated for a bare invocation. */
  function Decide(s: Scan, uuid: Token): Invocation {
    if s.fork then Invocation("", false, false)
    else if s.sessionFlag && s.sessionID != "" then Invocation(s.sessionID, true, false)
    else if s.resume && s.sessionID != "" then Invocation(s.sessionID, true, false)
    else if s.resume || s.cont then Invocation("", false, false)
    else Invocation(uuid, true, true)
  }

  function Parse(args: seq<Token>, uuid: Token): Invocation { Decide(ScanFrom(args, 0, NOTHING), uuid) }

  method ParseClaudeInvocation(args: seq<Token>, uuid: Token) returns (inv: Invocation)
    ensures inv == Parse(args, uuid)
  {
    var s := NOTHING;
    var i := 0;
    while i < |args|
      invariant i <= |args| && ScanFrom(args, i, s) == ScanFrom(args, 0, NOTHING)
    {
      var arg := TrimSpace(args[i]);
      var step := 1;
      if arg == "--session-id" && i + 1 < |args| {
        s := s.(sessionID := TrimSpace(args[i + 1]), sessionFlag := true);
        step := 2;
      } else if HasPrefix(arg, "--session-id=") {
        s := s.(sessionID := TrimSpace(arg[|"--session-id="|..]), sessionFlag := true);
      } else if arg == "--resume" && i + 1 < |args| && !Dashed(args[i + 1]) {
        s := s.(sessionID := TrimSpace(args[i + 1]), resume := true);
        step := 2;
      } else if arg == "--resume" {
        s := s.(resume := true);
      } else if HasPrefix(arg, "--resume=") {
        s := s.(sessionID := TrimSpace(arg[|"--resume="|..]), resume := true);
      } else if arg == "-r" && i + 1 < |args| && !Dashed(args[i + 1]) {
        s := s.(sessionID := TrimSpace(args[i + 1]), resume := true);
        step := 2;
      } else if arg == "-r" {
        s := s.(resume := true);
      } else if arg == "--continue" || arg == "-c" {
        s := s.(cont := true);
      } else if arg == "--fork-session" {
        s := s.(fork := true);
      }
      i := i + step;
    }
    if s.fork {
      return Invocation("", false, false);
    }
    if s.sessionFlag && s.sessionID != "" {
      return Invocation(s.sessionID, true, false);
    }
    if s.resume && s.sessionID != "" {
      return Invocation(s.sessionID, true, false);
    }
    if s.resume || s.cont {
      return Invocation("", false, false);
    }
    return Invocation(uuid, true, true);
  }

  // ---- Rewriting

  const RESUME_FLAGS: set<Token> := {"--continue", "-c", "--resume", "-r"}

  predicate ContainsFlag(args: seq<Token>, name: Token) {
    exists i :: 0 <= i < |args| && (args[i] == name || HasPrefix(args[i], name + "="))
  }

  predicate Stripped(names: set<Token>, a: Token) { a in names || exists n :: n in names && HasPrefix(a, n + "=") }

  /** Whether the token at i survives the strip: it is no named flag, and no value standing right after one. */
  predicate Kept(args: seq<Token>, names: set<Token>, i: nat)
    requires i < |args|
  {
    !Stripped(names, args[i]) && !(i > 0 && args[i - 1] in names && !Dashed(args[i]))
  }

  /** The kept tokens from i on, in order. */
  function KeptFrom(args: seq<Token>, names: set<Token>, i: nat): seq<Token>
    requires i <= |args|
    decreases |args| - i
  {
    if i == |args| then []
    else if Kept(args, names, i) then [args[i]] + KeptFrom(args, names, i + 1)
    else KeptFrom(args, names, i + 1)
  }

  /** The loop that consumes a flag's value together with the flag keeps exactly the tokens that are kept one by one. */
  method StripFlags(args: seq<Token>, names: set<Token>) returns (out: seq<Token>)
    requires forall n | n in names :: Dashed(n)
    ensures out == KeptFrom(args, names, 0)
  {
    out := [];
    var i := 0;
    while i < |args|
      invariant i <= |args|
      invariant i > 0 && i < |args| && args[i - 1] in names ==> Dashed(args[i])
      invariant out + KeptFrom(args, names, i) == KeptFrom(args, names, 0)
    {
      var a := args[i];
      if a in names {
        if i + 1 < |args| && !Dashed(args[i + 1]) {
          assert !Kept(args, names, i) && !Kept(args, names, i + 1);
          i := i + 1;
        }
        i := i + 1;
        continue;
      }
      if Stripped(names, a) {
        i := i + 1;
        continue;
      }
      assert out + ([a] + KeptFrom(args, names, i + 1)) == (out + [a]) + KeptFrom(args, names, i + 1);
      out := out + [a];
      i := i + 1;
    }
  }

  /** The id of the newest session file; None when the project has none. */
  datatype Found = NoSession | Newest(sid: Token)

  function Resolve(args: seq<Token>, uuid: Token, found: Found): (seq<Token>, Invocation) {
    var inv := Parse(args, uuid);
    if inv.lockable && inv.injectFlag then (["--session-id", inv.sessionID] + args, inv.(injectFlag := false))
    else if !inv.lockable && inv.sessionID == "" then
      if ContainsFlag(args, "--fork-session") then (args, inv)
      else if found.Newest? then
        (KeptFrom(args, RESUME_FLAGS, 0) + ["--resume", found.sid], inv.(sessionID := found.sid, lockable := true))
      else (args, inv)
    else (args, inv)
  }

  method ResolveLockedSessionID(args: seq<Token>, uuid: Token, found: Found) returns (argv: seq<Token>, inv: Invocation)
    ensures (argv, inv) == Resolve(args, uuid, found)
  {
    inv := ParseClaudeInvocation(args, uuid);
    if inv.lockable && inv.injectFlag {
      argv := ["--session-id", inv.sessionID] + args;
      inv := inv.(injectFlag := false);
      return;
    }
    if !inv.lockable && inv.sessionID == "" {
      if ContainsFlag(args, "--fork-session") {
        return args, inv;
      }
      if found.Newest? {
        argv := StripFlags(args, RESUME_FLAGS);
        argv := argv + ["--resume", found.sid];
        inv := inv.(sessionID := found.sid, lockable := true);
        return;
      }
      return args, inv;
    }
    return args, inv;
  }

  // ---- Locking is a fixed point

  /** An id as session files and generated ids have: not blank, not padded, and no flag. */
  predicate ProperId(s: Token) { s != "" && TrimSpace(s) == s && !Dashed(s) }

  /** The scan of args ends with "--session-id" as the last token, waiting for a value. */
  function Dangles(args: seq<Token>, i: nat): bool
    requires i <= |args|
    decreases |args| - i
  {
    if i == |args| then false
    else if TakesNext(Read(args, i)) then Dangles(args, i + 2)
    else if i + 1 == |args| then TrimSpace(args[i]) == "--session-id"
    else Dangles(args, i + 1)
  }

  function After(args: seq<Token>, i: nat): (j: nat)
    requires i < |args|
    ensures i < j <= |args|
  {
    if TakesNext(Read(args, i)) then i + 2 else i + 1
  }

  lemma ScanUnfold(args: seq<Token>, i: nat, s: Scan)
    requires i < |args|
    ensures ScanFrom(args, i, s) == ScanFrom(args, After(args, i), Note(s, args, i))
  {
  }

  lemma TokenOffset(pre: seq<Token>, args: seq<Token>, i: nat, s: Scan)
    requires i < |args|
    ensures Note(s, pre + args, |pre| + i) == Note(s, args, i) && After(pre + args, |pre| + i) == |pre| + After(args, i)
  {
    hide TrimSpace, Dashed;
    var all := pre + args;
    assert all[|pre| + i] == args[i] && (i + 1 < |args| ==> all[|pre| + i + 1] == args[i + 1]);
  }

  /** Reading a suffix does not depend on what stands before it. */
  lemma {:induction false} ScanOffset(pre: seq<Token>, args: seq<Token>, i: nat, s: Scan)
    requires i <= |args|
    ensures ScanFrom(pre + args, |pre| + i, s) == ScanFrom(args, i, s)
    decreases |args| - i
  {
    hide Note, After;
    if i < |args| {
      TokenOffset(pre, args, i, s);
      ScanUnfold(args, i, s);
      ScanUnfold(pre + args, |pre| + i, s);
      ScanOffset(pre, args, After(args, i), Note(s, args, i));
    }
  }

  /** s is the scan t started from b instead of nothing; bound says whether a session value was read since. */
  ghost predicate StartedFrom(s: Scan, t: Scan, b: Scan, bound: bool) {
    && s.resume == (t.resume || b.resume) && s.cont == (t.cont || b.cont)
    && s.fork == (t.fork || b.fork) && s.sessionFlag == (t.sessionFlag || b.sessionFlag)
    && (if bound then s.sessionID == t.sessionID && (t.sessionFlag || t.resume)
        else s.sessionID == b.sessionID && !t.sessionFlag)
  }

  predicate Binds(r: Reading) { r.SessionNext? || r.SessionInline? || r.ResumeNext? || r.ResumeInline? }

  lemma NoteStarted(args: seq<Token>, i: nat, s: Scan, t: Scan, b: Scan, bound: bool)
    requires i < |args| && StartedFrom(s, t, b, bound)
    ensures StartedFrom(Note(s, args, i), Note(t, args, i), b, bound || Binds(Read(args, i)))
  {
    hide Read, Noted, StartedFrom;
    NotedStarted(Read(args, i), if i + 1 < |args| then args[i + 1] else "", s, t, b, bound);
  }

  lemma NotedStarted(r: Reading, next: Token, s: Scan, t: Scan, b: Scan, bound: bool)
    requires StartedFrom(s, t, b, bound)
    ensures StartedFrom(Noted(s, r, next), Noted(t, r, next), b, bound || Binds(r))
  {
    hide TrimSpace;
  }

  lemma {:induction false} ScanStarted(args: seq<Token>, i: nat, s: Scan, t: Scan, b: Scan, bound: bool)
    returns (bound': bool)
    requires i <= |args| && StartedFrom(s, t, b, bound)
    ensures StartedFrom(ScanFrom(args, i, s), ScanFrom(args, i, t), b, bound')
    decreases |args| - i
  {
    hide Note, After, Read, StartedFrom;
    if i == |args| {
      bound' := bound;
    } else {
      NoteStarted(args, i, s, t, b, bound);
      ScanUnfold(args, i, s);
      ScanUnfold(args, i, t);
      bound' := ScanStarted(args, After(args, i), Note(s, args, i), Note(t, args, i), b, bound || Binds(Read(args, i)));
    }
  }

  lemma FlagTokens()
    ensures TrimSpace("--session-id") == "--session-id" && TrimSpace("--resume") == "--resume"
    ensures Dashed("--resume") && !HasPrefix("--resume", "--session-id=") && !HasPrefix("--session-id", "--session-id=")
    ensures !HasPrefix("--session-id", "--resume=")
  {
    assert "--resume"[2] != "--session-id="[2] && "--session-id"[2] != "--resume="[2];
  }

  lemma InjectedFlag(argv: seq<Token>, id: Token)
    requires ProperId(id) && |argv| >= 2 && argv[0] == "--session-id" && argv[1] == id
    ensures Note(NOTHING, argv, 0) == NOTHING.(sessionID := id, sessionFlag := true) && After(argv, 0) == 2
  {
    FlagTokens();
  }

  /** A bare invocation: the injected flag is read back unless a blank session-id of the user's follows it. */
  lemma InjectedReadsBack(args: seq<Token>, id: Token, uuid: Token)
    requires ProperId(id)
    requires var s := ScanFrom(args, 0, NOTHING); Decide(s, id) == Invocation(id, true, true)
    ensures Parse(["--session-id", id] + args, uuid) == Invocation(id, true, false) <==>
            !ScanFrom(args, 0, NOTHING).sessionFlag
  {
    var argv := ["--session-id", id] + args;
    var b := NOTHING.(sessionID := id, sessionFlag := true);
    InjectedFlag(argv, id);
    hide Note, After, Read, TrimSpace;
    ScanUnfold(argv, 0, NOTHING);
    ScanOffset(["--session-id", id], args, 0, b);
    var bound := ScanStarted(args, 0, b, NOTHING, b, false);
  }

  lemma {:induction false} ScanBeforeResume(y: seq<Token>, sid: Token, i: nat, s: Scan)
    requires i <= |y|
    ensures var all := y + ["--resume", sid];
            ScanFrom(all, i, s) ==
            if Dangles(y, i)
            then ScanFrom(all, |y| + 1, ScanFrom(y, i, s).(sessionID := "--resume", sessionFlag := true))
            else ScanFrom(all, |y|, ScanFrom(y, i, s))
    decreases |y| - i
  {
    var all := y + ["--resume", sid];
    if i < |y| {
      FlagTokens();
      assert all[i] == y[i] && all[i + 1] == if i + 1 < |y| then y[i + 1] else "--resume";
      if i + 1 == |y| && TrimSpace(y[i]) == "--session-id" {
        assert Read(all, i).SessionNext? && Read(y, i).Plain?;
      } else {
        assert Read(all, i) == Read(y, i);
        ScanBeforeResume(y, sid, After(y, i), Note(s, y, i));
      }
    }
  }

  /** The pinned --resume is read back unless a fork flag is left, or a dangling --session-id swallows it. */
  lemma {:induction false} PinnedReadsBack(y: seq<Token>, sid: Token, uuid: Token)
    requires ProperId(sid)
    ensures Parse(y + ["--resume", sid], uuid) == Invocation(sid, true, false) <==>
            !ScanFrom(y, 0, NOTHING).fork && !Dangles(y, 0)
  {
    var all := y + ["--resume", sid];
    var s := ScanFrom(y, 0, NOTHING);
    FlagTokens();
    ScanBeforeResume(y, sid, 0, NOTHING);
    assert all[|y|] == "--resume" && all[|y| + 1] == sid;
    if Dangles(y, 0) {
      IdIsPlain(all, |y| + 1);
    } else {
      assert Read(all, |y|).ResumeNext?;
    }
  }

  lemma IdIsPlain(all: seq<Token>, i: nat)
    requires i < |all| && ProperId(all[i])
    ensures Read(all, i).Plain?
  {
    var a := all[i];
    assert !("-" <= a);
    assert a[0] != '-';
  }

  /** The exact condition under which the returned argv, parsed again, is locked to the same session. */
  ghost predicate ReadsBack(args: seq<Token>, uuid: Token, found: Found) {
    var inv := Parse(args, uuid);
    if inv.injectFlag then !ScanFrom(args, 0, NOTHING).sessionFlag
    else if inv.lockable then true
    else var y := KeptFrom(args, RESUME_FLAGS, 0); !ScanFrom(y, 0, NOTHING).fork && !Dangles(y, 0)
  }

  /** Locking is a fixed point exactly then: same id, and nothing left to inject, whatever id a second parse would
      generate. */
  lemma LockingIsFixedPointIff(args: seq<Token>, uuid: Token, found: Found, uuid': Token)
    requires ProperId(uuid) && (found.Newest? ==> ProperId(found.sid))
    requires Resolve(args, uuid, found).1.lockable
    ensures var (argv, inv) := Resolve(args, uuid, found);
            && !inv.injectFlag
            && (Parse(argv, uuid') == inv <==> ReadsBack(args, uuid, found))
  {
    var (argv, inv) := Resolve(args, uuid, found);
    var first := Parse(args, uuid);
    if first.injectFlag {
      InjectedReadsBack(args, uuid, uuid');
    } else if !first.lockable {
      PinnedReadsBack(KeptFrom(args, RESUME_FLAGS, 0), found.sid, uuid');
    }
  }

  // ---- Everyday argv

  /** A blank session id: the injected one comes first and the blank one overrides it. */
  lemma BlankSessionIdUnlocks(uuid: Token, uuid': Token)
    requires ProperId(uuid)
    ensures var args := ["--session-id="];
            var (argv, inv) := Resolve(args, uuid, NoSession);
            inv == Invocation(uuid, true, false) && Parse(argv, uuid') != inv
  {
    var args: seq<Token> := ["--session-id="];
    var arg: Token := "--session-id=";
    assert arg[|"--session-id="|..] == "";
    assert TrimSpace(arg) == arg && TrimSpace("") == "";
    assert arg != "--session-id" && HasPrefix(arg, "--session-id=");
    assert Read(args, 0) == SessionInline("");
    assert ScanFrom(args, 0, NOTHING) == Scan("", false, false, false, true);
    LockingIsFixedPointIff(args, uuid, NoSession, uuid');
  }

  /** No padded or blank tokens, no blank or dangling session value. */
  predicate Everyday(args: seq<Token>) {
    && (forall i | 0 <= i < |args| :: args[i] != "" && TrimSpace(args[i]) == args[i])
    && (forall i | 0 <= i < |args| :: args[i] != "--session-id=" && args[i] != "--resume=")
    && (forall i | 0 <= i < |args| && HasPrefix(args[i], "--session-id=") ::
          TrimSpace(args[i][|"--session-id="|..]) != "")
    && (forall i | 0 <= i < |args| :: HasPrefix(args[i], "--resume=") ==> TrimSpace(args[i][|"--resume="|..]) != "")
    && (args != [] ==> args[|args| - 1] != "--session-id")
  }

  lemma {:induction false} ValuesStay(args: seq<Token>, i: nat, s: Scan)
    requires Everyday(args) && i <= |args| && s.sessionID != ""
    ensures ScanFrom(args, i, s).sessionID != ""
    decreases |args| - i
  {
    hide Note, After, Read, Everyday;
    if i < |args| {
      EverydayReading(args, i, s);
      ScanUnfold(args, i, s);
      ValuesStay(args, After(args, i), Note(s, args, i));
    }
  }

  /** On everyday argv a value that is bound is not blank, and only such a reading meets --session-id. */
  lemma EverydayReading(args: seq<Token>, i: nat, s: Scan)
    requires Everyday(args) && i < |args|
    ensures Binds(Read(args, i)) ==> Note(s, args, i).sessionID != ""
    ensures !Binds(Read(args, i)) ==>
              args[i] != "--session-id" && Note(s, args, i).sessionFlag == s.sessionFlag
              && Note(s, args, i).sessionID == s.sessionID && After(args, i) == i + 1
  {
    hide TrimSpace;
    FlagTokens();
  }

  /** When no value was read, no --session-id stands anywhere. */
  lemma {:induction false} NoValueNoFlag(args: seq<Token>, i: nat, s: Scan)
    requires Everyday(args) && i <= |args| && ScanFrom(args, i, s).sessionID == ""
    ensures forall j | i <= j < |args| :: args[j] != "--session-id"
    ensures ScanFrom(args, i, s).sessionFlag == s.sessionFlag
    decreases |args| - i
  {
    hide Note, After, Read, Everyday;
    if i < |args| {
      EverydayReading(args, i, s);
      ScanUnfold(args, i, s);
      if Binds(Read(args, i)) {
        ValuesStay(args, After(args, i), Note(s, args, i));
      } else {
        NoValueNoFlag(args, i + 1, Note(s, args, i));
      }
    }
  }

  lemma {:induction false} ValueHasFlag(args: seq<Token>, i: nat, s: Scan)
    requires i <= |args| && (s.sessionID != "" ==> s.sessionFlag || s.resume)
    ensures var f := ScanFrom(args, i, s); f.sessionID != "" ==> f.sessionFlag || f.resume
    decreases |args| - i
  {
    if i < |args| {
      ValueHasFlag(args, After(args, i), Note(s, args, i));
    }
  }

  lemma {:induction false} ForkIsAToken(args: seq<Token>, i: nat, s: Scan)
    requires Everyday(args) && i <= |args| && ScanFrom(args, i, s).fork && !s.fork
    ensures ContainsFlag(args, "--fork-session")
    decreases |args| - i
  {
    hide Everyday, Note, Read;
    if i < |args| {
      ForkIsRead(args, i, s);
      if !Read(args, i).Fork? {
        ForkIsAToken(args, After(args, i), Note(s, args, i));
      }
    }
  }

  lemma ForkIsRead(args: seq<Token>, i: nat, s: Scan)
    requires Everyday(args) && i < |args|
    ensures Read(args, i).Fork? ==> args[i] == "--fork-session"
    ensures !Read(args, i).Fork? ==> Note(s, args, i).fork == s.fork
  {
    hide Everyday, HasPrefix, Dashed;
    Unpadded(args, i);
  }

  lemma Unpadded(args: seq<Token>, i: nat)
    requires Everyday(args) && i < |args|
    ensures TrimSpace(args[i]) == args[i]
  {
  }

  lemma {:induction false} KeptAreTokens(args: seq<Token>, names: set<Token>, i: nat)
    requires i <= |args|
    ensures forall x | x in KeptFrom(args, names, i) :: x in args
    decreases |args| - i
  {
    if i < |args| {
      KeptAreTokens(args, names, i + 1);
    }
  }

  lemma {:induction false} NothingForksOrDangles(y: seq<Token>, i: nat, s: Scan)
    requires i <= |y| && !s.fork
    requires forall x | x in y :: TrimSpace(x) == x && x != "--fork-session" && x != "--session-id"
    ensures !ScanFrom(y, i, s).fork && !Dangles(y, i)
    decreases |y| - i
  {
    if i < |y| {
      assert y[i] in y;
      NothingForksOrDangles(y, After(y, i), Note(s, y, i));
    }
  }

  /** On everyday argv the locked argv always reads back to the same session. */
  lemma EverydayArgvReadsBack(args: seq<Token>, uuid: Token, found: Found)
    requires Everyday(args) && Resolve(args, uuid, found).1.lockable
    ensures ReadsBack(args, uuid, found)
  {
    var s := ScanFrom(args, 0, NOTHING);
    var inv := Parse(args, uuid);
    if inv.injectFlag && s.sessionFlag {
      NoValueNoFlag(args, 0, NOTHING);
    } else if !inv.injectFlag && !inv.lockable {
      if s.fork {
        ForkIsAToken(args, 0, NOTHING);
      }
      ValueHasFlag(args, 0, NOTHING);
      NoValueNoFlag(args, 0, NOTHING);
      var y := KeptFrom(args, RESUME_FLAGS, 0);
      KeptAreTokens(args, RESUME_FLAGS, 0);
      NothingForksOrDangles(y, 0, NOTHING);
    }
  }

  // ---- What a command line decides

  /** No flag that has to do with sessions. */
  predicate Ordinary(token: Token) {
    var t := TrimSpace(token);
    && t !in ["--session-id", "--resume", "-r", "--continue", "-c", "--fork-session"]
    && !("--session-id=" <= t) && !("--resume=" <= t)
  }

  lemma ReadsOrdinary(args: seq<Token>, i: nat)
    requires i < |args| && Ordinary(args[i])
    ensures Read(args, i) == Plain
  {
    hide TrimSpace;
  }

  lemma ReadsShort(args: seq<Token>, i: nat)
    requires i < |args|
    ensures var t := TrimSpace(args[i]);
            && (t in ["--continue", "-c"] ==> Read(args, i) == Continue)
            && (t == "--fork-session" ==> Read(args, i) == Fork)
            && (t in ["--resume", "-r"] ==>
                  Read(args, i) == if i + 1 < |args| && !Dashed(args[i + 1]) then ResumeNext else Resume)
            && (t == "--session-id" ==> Read(args, i) == if i + 1 < |args| then SessionNext else Plain)
  {
    hide TrimSpace, Dashed;
    FlagTokens();
    assert "--continue"[2] != "--session-id="[2] && "--continue"[2] != "--resume="[2];
    assert "--fork-session"[2] != "--session-id="[2] && "--fork-session"[2] != "--resume="[2];
    assert |"-c"| == |"-r"| == 2 && |"--resume="| == 9 && |"--session-id="| == 13 && |"--resume"| == 8;
  }

  lemma ReadsInline(args: seq<Token>, i: nat, v: Token)
    requires i < |args|
    ensures TrimSpace(args[i]) == "--session-id=" + v ==> Read(args, i) == SessionInline(TrimSpace(v))
    ensures TrimSpace(args[i]) == "--resume=" + v ==> Read(args, i) == ResumeInline(TrimSpace(v))
  {
    hide TrimSpace, Dashed;
    var a, b := "--session-id=" + v, "--resume=" + v;
    assert a[..13] == "--session-id=" && a[13..] == v && a[12] == '=' && |a| > 12;
    assert b[..9] == "--resume=" && b[9..] == v && b[8] == '=' && b[2] == 'r' && a[2] == 's';
    assert "--session-id"[2] == 's' && "--session-id="[2] == 's' && |"--session-id"| == 12 && |"--resume"| == 8;
  }

  /** Ordinary tokens are passed over. */
  lemma {:induction false} PassOrdinary(args: seq<Token>, i: nat, j: nat, s: Scan)
    requires i <= j <= |args| && forall k | i <= k < j :: Ordinary(args[k])
    ensures ScanFrom(args, i, s) == ScanFrom(args, j, s)
    decreases j - i
  {
    hide Ordinary, Read;
    if i < j {
      ReadsOrdinary(args, i);
      PassOrdinary(args, i + 1, j, s);
    }
  }

  /** Without such flags the generated id is to be injected. */
  lemma BareIsInjected(args: seq<Token>, uuid: Token)
    requires forall k | 0 <= k < |args| :: Ordinary(args[k])
    ensures Parse(args, uuid) == Invocation(uuid, true, true)
  {
    hide Ordinary;
    PassOrdinary(args, 0, |args|, NOTHING);
  }

  ghost predicate AllOrdinary(tokens: seq<Token>) { forall k | 0 <= k < |tokens| :: Ordinary(tokens[k]) }

  lemma OrdinaryAround(pre: seq<Token>, mid: seq<Token>, post: seq<Token>)
    requires AllOrdinary(pre) && AllOrdinary(post)
    ensures var args := pre + mid + post;
            (forall k | 0 <= k < |pre| :: Ordinary(args[k]))
            && forall k | |pre| + |mid| <= k < |args| :: Ordinary(args[k])
  {
    hide Ordinary;
    var args := pre + mid + post;
    assert forall k | 0 <= k < |pre| :: args[k] == pre[k];
    assert forall k | |pre| + |mid| <= k < |args| :: args[k] == post[k - |pre| - |mid|];
  }

  lemma ScanEnds(args: seq<Token>, s: Scan)
    ensures ScanFrom(args, |args|, s) == s
  {
  }

  /** Ordinary tokens around the ones of interest. */
  lemma Around(pre: seq<Token>, mid: seq<Token>, post: seq<Token>, s: Scan)
    requires AllOrdinary(pre) && AllOrdinary(post)
    ensures var args := pre + mid + post;
            ScanFrom(args, 0, s) == ScanFrom(args, |pre|, s) && ScanFrom(args, |pre| + |mid|, s) == s
  {
    hide Ordinary, ScanFrom;
    var args := pre + mid + post;
    OrdinaryAround(pre, mid, post);
    PassOrdinary(args, 0, |pre|, s);
    PassOrdinary(args, |pre| + |mid|, |args|, s);
    ScanEnds(args, s);
  }

  lemma OneReading(pre: seq<Token>, mid: seq<Token>, post: seq<Token>)
    requires AllOrdinary(pre) && AllOrdinary(post) && 1 <= |mid| <= 2
    requires After(pre + mid + post, |pre|) == |pre| + |mid|
    ensures ScanFrom(pre + mid + post, 0, NOTHING) == Note(NOTHING, pre + mid + post, |pre|)
  {
    hide Note, After, AllOrdinary;
    var args := pre + mid + post;
    ScanUnfold(args, |pre|, NOTHING);
    Around(pre, mid, post, NOTHING);
    Around(pre, mid, post, Note(NOTHING, args, |pre|));
  }

  /** One flag without a value: --continue, -c, and --resume, -r with no token or another flag behind them, leave the
      session open; so does --fork-session. A --session-id with nothing behind it is as good as none. */
  lemma LoneFlagDecides(pre: seq<Token>, f: Token, post: seq<Token>, uuid: Token)
    requires AllOrdinary(pre) && AllOrdinary(post)
    ensures var t, inv := TrimSpace(f), Parse(pre + [f] + post, uuid);
            && (t in ["--continue", "-c", "--fork-session"] ==> inv == Invocation("", false, false))
            && (t in ["--resume", "-r"] && (post == [] || Dashed(post[0])) ==> inv == Invocation("", false, false))
            && (t == "--session-id" && post == [] ==> inv == Invocation(uuid, true, true))
  {
    hide TrimSpace, Dashed, Read, AllOrdinary;
    var args := pre + [f] + post;
    assert args[|pre|] == f && (post != [] ==> args[|pre| + 1] == post[0]);
    ReadsShort(args, |pre|);
    if !TakesNext(Read(args, |pre|)) {
      OneReading(pre, [f], post);
    }
  }

  /** A value in the same token. */
  lemma InlineValueDecides(pre: seq<Token>, f: Token, v: Token, post: seq<Token>, uuid: Token)
    requires AllOrdinary(pre) && AllOrdinary(post)
    requires TrimSpace(f) == "--session-id=" + v || TrimSpace(f) == "--resume=" + v
    ensures Parse(pre + [f] + post, uuid) ==
            if TrimSpace(v) != "" then Invocation(TrimSpace(v), true, false)
            else if TrimSpace(f) == "--session-id=" + v then Invocation(uuid, true, true)
            else Invocation("", false, false)
  {
    hide TrimSpace, Read, AllOrdinary;
    var args := pre + [f] + post;
    assert args[|pre|] == f;
    ReadsInline(args, |pre|, v);
    assert ("--session-id=" + v)[2] == 's' && ("--resume=" + v)[2] == 'r';
    OneReading(pre, [f], post);
  }

  /** A value in the next token: any token after --session-id, one that is no flag after --resume and -r. */
  lemma NextValueDecides(pre: seq<Token>, f: Token, v: Token, post: seq<Token>, uuid: Token)
    requires AllOrdinary(pre) && AllOrdinary(post)
    requires TrimSpace(f) == "--session-id" || (TrimSpace(f) in ["--resume", "-r"] && !Dashed(v))
    ensures Parse(pre + [f, v] + post, uuid) ==
            if TrimSpace(v) != "" then Invocation(TrimSpace(v), true, false)
            else if TrimSpace(f) == "--session-id" then Invocation(uuid, true, true)
            else Invocation("", false, false)
  {
    hide TrimSpace, Dashed, Read, AllOrdinary;
    var args := pre + [f, v] + post;
    assert args[|pre|] == f && args[|pre| + 1] == v;
    ReadsShort(args, |pre|);
    OneReading(pre, [f, v], post);
  }

  lemma {:induction false} ForkStays(args: seq<Token>, i: nat, s: Scan)
    requires i <= |args| && s.fork
    ensures ScanFrom(args, i, s).fork
    decreases |args| - i
  {
    hide Read;
    if i < |args| {
      ForkStays(args, After(args, i), Note(s, args, i));
    }
  }

  /** --fork-session wins over everything that follows it. */
  lemma ForkWins(pre: seq<Token>, f: Token, post: seq<Token>, uuid: Token)
    requires AllOrdinary(pre) && TrimSpace(f) == "--fork-session"
    ensures Parse(pre + [f] + post, uuid) == Invocation("", false, false)
  {
    hide TrimSpace, Read, Ordinary;
    var args := pre + [f] + post;
    assert args[|pre|] == f && forall k | 0 <= k < |pre| :: args[k] == pre[k];
    PassOrdinary(args, 0, |pre|, NOTHING);
    ReadsShort(args, |pre|);
    ScanUnfold(args, |pre|, NOTHING);
    ForkStays(args, |pre| + 1, Note(NOTHING, args, |pre|));
  }

  /** A named session wins over --continue before it. */
  lemma IdWinsOverContinue(pre: seq<Token>, c: Token, f: Token, v: Token, post: seq<Token>, uuid: Token)
    requires AllOrdinary(pre) && AllOrdinary(post) && TrimSpace(c) in ["--continue", "-c"]
    requires TrimSpace(f) in ["--session-id", "--resume", "-r"] && !Dashed(v) && TrimSpace(v) != ""
    ensures Parse(pre + [c, f, v] + post, uuid) == Invocation(TrimSpace(v), true, false)
  {
    hide TrimSpace, Dashed, Read, AllOrdinary;
    var args, mid := pre + [c, f, v] + post, [c, f, v];
    var n := |pre|;
    assert args[n] == c && args[n + 1] == f && args[n + 2] == v;
    ReadsShort(args, n);
    ReadsShort(args, n + 1);
    Around(pre, mid, post, NOTHING);
    ScanUnfold(args, n, NOTHING);
    var s := Note(NOTHING, args, n);
    ScanUnfold(args, n + 1, s);
    Around(pre, mid, post, Note(s, args, n + 1));
  }

  // ---- What becomes of the rest of the command line

  /** What stands around the cut-off white space. */
  ghost predicate Blank(s: Token) { forall i | 0 <= i < |s| :: IsSpace(s[i]) }

  lemma {:induction false} LeftIsBlank(s: Token)
    ensures exists a :: s == a + TrimLeft(s) && Blank(a)
  {
    if s != [] && IsSpace(s[0]) {
      LeftIsBlank(s[1..]);
      var a :| s[1..] == a + TrimLeft(s) && Blank(a);
      assert s == ([s[0]] + a) + TrimLeft(s) && Blank([s[0]] + a);
    } else {
      assert s == [] + s && Blank([]);
    }
  }

  lemma {:induction false} RightIsBlank(s: Token)
    ensures exists b :: s == TrimRight(s) + b && Blank(b)
  {
    if s != [] && IsSpace(s[|s| - 1]) {
      var n := |s| - 1;
      RightIsBlank(s[..n]);
      var b :| s[..n] == TrimRight(s[..n]) + b && Blank(b);
      BlankGrows(b, s[n]);
      assert s == TrimRight(s[..n]) + (b + [s[n]]);
    } else {
      assert s == s + [] && Blank([]);
    }
  }

  lemma BlankGrows(b: Token, c: char)
    requires Blank(b) && IsSpace(c)
    ensures Blank(b + [c])
  {
    hide IsSpace;
  }

  /** Trimming takes off white space, and all there is at either end. */
  lemma TrimTakesBlanks(s: Token)
    ensures exists a, b :: s == a + TrimSpace(s) + b && Blank(a) && Blank(b)
    ensures TrimSpace(s) != "" ==> !IsSpace(TrimSpace(s)[0]) && !IsSpace(TrimSpace(s)[|TrimSpace(s)| - 1])
  {
    hide TrimLeft, TrimRight;
    LeftIsBlank(s);
    RightIsBlank(TrimLeft(s));
    var a :| s == a + TrimLeft(s) && Blank(a);
    var b :| TrimLeft(s) == TrimSpace(s) + b && Blank(b);
    assert s == a + TrimSpace(s) + b;
    assert TrimSpace(s) != "" ==> TrimSpace(s)[0] == TrimLeft(s)[0];
  }

  predicate ForkToken(token: Token) { token == "--fork-session" || "--fork-session=" <= token }

  /** A fork, a session the user named, and a project without sessions leave the command line as it is. */
  lemma LeftAlone(args: seq<Token>, uuid: Token, found: Found)
    requires var inv := Parse(args, uuid);
             || (inv.lockable && !inv.injectFlag)
             || (!inv.lockable && (found.NoSession? || exists i :: 0 <= i < |args| && ForkToken(args[i])))
    ensures Resolve(args, uuid, found) == (args, Parse(args, uuid))
  {
    hide ScanFrom;
    var s := ScanFrom(args, 0, NOTHING);
    assert !Decide(s, uuid).lockable ==> Decide(s, uuid).sessionID == "" && !Decide(s, uuid).injectFlag;
    assert "--fork-session" + "=" == "--fork-session=";
    if i :| 0 <= i < |args| && ForkToken(args[i]) {
      assert args[i] == "--fork-session" || HasPrefix(args[i], "--fork-session" + "=");
      assert ContainsFlag(args, "--fork-session");
    }
  }

  /** No resume flag, with or without a value. */
  predicate Untouched(token: Token) {
    && token !in ["--continue", "-c", "--resume", "-r"]
    && !("--continue=" <= token) && !("-c=" <= token) && !("--resume=" <= token) && !("-r=" <= token)
  }

  lemma UntouchedIsKept(token: Token)
    requires Untouched(token)
    ensures !Stripped(RESUME_FLAGS, token)
  {
    assert "--continue" + "=" == "--continue=" && "-c" + "=" == "-c=" && "--resume" + "=" == "--resume=";
    assert "-r" + "=" == "-r=";
  }

  /** One resume flag goes, and with it the token behind it unless that is a flag; all others stay in order. */
  lemma {:induction false} OneFlagStripped(pre: seq<Token>, f: Token, post: seq<Token>, i: nat)
    requires f in ["--continue", "-c", "--resume", "-r"]
    requires (forall t | t in pre :: Untouched(t)) && (forall t | t in post :: Untouched(t)) && i <= |pre| + 1 + |post|
    ensures KeptFrom(pre + [f] + post, RESUME_FLAGS, i) ==
            var rest := if post != [] && !Dashed(post[0]) then post[1..] else post;
            if i <= |pre| then pre[i..] + rest
            else if i == |pre| + 1 then rest
            else post[i - |pre| - 1..]
    decreases |pre| + 1 + |post| - i
  {
    hide Untouched, Stripped, Dashed;
    var args := pre + [f] + post;
    var n := |pre|;
    if i < |args| {
      OneFlagStripped(pre, f, post, i + 1);
      KeptAt(pre, f, post, i);
      if i < n {
        assert pre[i..] == [pre[i]] + pre[i + 1..];
        assert args[i] == pre[i];
      } else if i > n {
        assert post[i - n - 1..] == [post[i - n - 1]] + post[i - n..];
        assert args[i] == post[i - n - 1];
        assert post[0..] == post;
      }
    }
  }

  lemma KeptAt(pre: seq<Token>, f: Token, post: seq<Token>, i: nat)
    requires f in ["--continue", "-c", "--resume", "-r"]
    requires (forall t | t in pre :: Untouched(t)) && (forall t | t in post :: Untouched(t)) && i < |pre| + 1 + |post|
    ensures Kept(pre + [f] + post, RESUME_FLAGS, i) <==> i != |pre| && !(i == |pre| + 1 && !Dashed(post[0]))
  {
    hide Dashed;
    var args := pre + [f] + post;
    if i != |pre| {
      var t := if i < |pre| then pre[i] else post[i - |pre| - 1];
      assert args[i] == t && Untouched(t);
      UntouchedIsKept(t);
    }
    if i > 0 && i - 1 != |pre| {
      var u := if i - 1 < |pre| then pre[i - 1] else post[i - 1 - |pre| - 1];
      assert args[i - 1] == u && Untouched(u);
    }
  }

  /** So pinning --continue keeps all other flags, but takes a prompt right behind --continue for its value. */
  lemma PinnedContinue(pre: seq<Token>, f: Token, post: seq<Token>, uuid: Token, sid: Token)
    requires f in ["--continue", "-c"] && AllOrdinary(pre) && AllOrdinary(post)
    requires forall t | t in pre + post :: Untouched(t) && !("--fork-session=" <= t) && t != "--fork-session"
    ensures Resolve(pre + [f] + post, uuid, Newest(sid)) ==
            (pre + (if post != [] && !Dashed(post[0]) then post[1..] else post) + ["--resume", sid],
             Invocation(sid, true, false))
  {
    hide Ordinary, Untouched, KeptFrom, Dashed, AllOrdinary, Parse;
    var args := pre + [f] + post;
    Trimmed(f);
    LoneFlagDecides(pre, f, post, uuid);
    OneFlagStripped(pre, f, post, 0);
    assert pre[0..] == pre;
    NoFork(pre, f, post);
  }

  lemma Trimmed(f: Token)
    requires f in ["--continue", "-c"]
    ensures TrimSpace(f) == f
  {
  }

  lemma NoFork(pre: seq<Token>, f: Token, post: seq<Token>)
    requires f in ["--continue", "-c"]
    requires forall t | t in pre + post :: !("--fork-session=" <= t) && t != "--fork-session"
    ensures !ContainsFlag(pre + [f] + post, "--fork-session")
  {
    var args := pre + [f] + post;
    assert "--fork-session" + "=" == "--fork-session=" && "--fork-session="[2] != "--continue"[2];
    forall i | 0 <= i < |args| ensures args[i] == f || args[i] in pre + post {
      if i < |pre| {
        assert args[i] == (pre + post)[i];
      } else if i > |pre| {
        assert args[i] == (pre + post)[i - 1];
      }
    }
  }
}
