/** Large turn payloads live in a blob store: batches of one session's payloads are written under a content-addressed
    key, and the turn keeps a pointer. Texts, hashes and compression are free constructors, so JSON round trips and
    SHA-256 is injective by construction. */
module PayloadArchive {
  import opened Maps

  /** A text is known by what it parses to; one value has many spellings. */
  datatype Text = NotJson(chars: string) | Json(value: Value, spelling: int) | GzipBytes(of: Text)
  datatype Value = PointerObject(pointer: Pointer) | BatchObject(version: int, items: seq<Item>)
                 | TextObject(text: Text) | OtherValue(name: string)
  datatype Hash = Sha256(of: Text)
  datatype BlobName = Named(first: int, last: int, hash: Hash, gz: bool) | OtherName(chars: string, isJson: bool)
  datatype BlobKey = TurnKey(user: string, device: string, session: string, number: int, name: BlobName)
                   | BatchKey(user: string, device: string, session: string, name: BlobName)
                   | ForeignKey(chars: string)
  datatype Kind = Blob | BlobBatch | OtherKind
  datatype Pointer = Pointer(kind: Kind, version: int, key: BlobKey, batchHash: Option<Hash>, itemNumber: Option<int>,
                             hash: Option<Hash>, bytes: nat, gz: bool)
  datatype Item = Item(number: Option<int>, hash: Option<Hash>, bytes: nat, payload: Option<Text>)

  datatype Data = Raw(text: Text) | Gzip(text: Text)
  type Store = map<BlobKey, Data>

  datatype Turn = Turn(
    user: string, device: string, session: string, number: int, time: Option<int>, payload: Option<Text>)
  datatype SessionKey = SessionKey(user: string, device: string, session: string)

  const POINTER_VERSION := 1

  function Parse(t: Text): Value { if t.Json? then t.value else TextObject(t) }

  function Stringify(v: Value): Text { Json(v, 0) }

  predicate Falsy(payload: Option<Text>) { payload.None? || payload == Some(NotJson("")) }

  // ---- Pointers

  predicate JsonName(name: BlobName) { name.Named? || name.isJson }

  predicate IsPointerObject(v: Value) {
    && v.PointerObject?
    && v.pointer.kind != OtherKind && v.pointer.version == POINTER_VERSION
    && !v.pointer.key.ForeignKey? && JsonName(v.pointer.key.name)
  }

  predicate OwnKey(key: BlobKey, turn: Turn) {
    && !key.ForeignKey?
    && key.user == turn.user && key.device == turn.device && key.session == turn.session
    && (key.TurnKey? ==> key.number == turn.number)
  }

  predicate IsCurrentPointer(v: Value, turn: Turn) {
    && IsPointerObject(v)
    && OwnKey(v.pointer.key, turn)
    && if v.pointer.kind == BlobBatch
       then v.pointer.itemNumber == Some(turn.number) && v.pointer.key.BatchKey?
       else v.pointer.key.TurnKey?
  }

  /** The encoding a key's name tells. */
  function NamedGz(key: BlobKey): bool { !key.ForeignKey? && key.name.Named? && key.name.gz }

  /** A pointer payload states the encoding of its key's name. */
  predicate StatesItsEncoding(turn: Turn) {
    !Falsy(turn.payload) ==>
      var v := Parse(turn.payload.value);
      IsPointerObject(v) ==> v.pointer.gz == NamedGz(v.pointer.key)
  }

  // ---- Reading back

  datatype Outcome = Undefined | Payload(value: Value) | Invalid | Missing | Unavailable

  function Decode(data: Data, gz: bool): Option<Text> {
    match data
    case Gzip(t) => if gz then Some(t) else Some(GzipBytes(t))
    case Raw(t) => if gz then None else Some(t)
  }

  function FindItem(items: seq<Item>, number: Option<int>): Option<Item> {
    if items == [] then None
    else if number.Some? && items[0].number == number then Some(items[0])
    else FindItem(items[1..], number)
  }

  function ResolveBatchItem(text: Text, p: Pointer): Outcome {
    if p.batchHash.Some? && Sha256(text) != p.batchHash.value then Invalid
    else
      var batch := Parse(text);
      if !batch.BatchObject? || batch.version != POINTER_VERSION then Invalid
      else
        var item := FindItem(batch.items, p.itemNumber);
        if item.None? || item.value.payload.None? then Missing
        else if p.hash.Some? && Sha256(item.value.payload.value) != p.hash.value then Invalid
        else Payload(Parse(item.value.payload.value))
  }

  function ResolveText(text: Text, p: Pointer): Outcome {
    if p.kind == BlobBatch then ResolveBatchItem(text, p)
    else if p.hash.Some? && Sha256(text) != p.hash.value then Invalid
    else Payload(Parse(text))
  }

  /** What a reader of the turn gets. */
  function Resolve(turn: Turn, store: Store): Outcome {
    if Falsy(turn.payload) then Undefined
    else
      var parsed := Parse(turn.payload.value);
      if !IsPointerObject(parsed) then Payload(parsed)
      else if !IsCurrentPointer(parsed, turn) then Invalid
      else if parsed.pointer.key !in store then Missing
      else
        var text := Decode(store[parsed.pointer.key], parsed.pointer.gz);
        if text.None? then Unavailable else ResolveText(text.value, parsed.pointer)
  }

  /** What a reader should get: the payload as uploaded, whatever it looks like. */
  function Uploaded(turn: Turn): Outcome {
    if Falsy(turn.payload) then Undefined else Payload(Parse(turn.payload.value))
  }

  /** A payload object with the shape of a pointer: of a known kind and version, to a JSON blob of the archive. */
  predicate Shaped(v: Value) {
    && v.PointerObject? && v.pointer.kind in [Blob, BlobBatch] && v.pointer.version == 1
    && (v.pointer.key.TurnKey? || v.pointer.key.BatchKey?)
    && (v.pointer.key.name.Named? || v.pointer.key.name.isJson)
  }

  /** The key is of the turn's own session; a batch is asked for the turn's item, a single blob is of the very turn. */
  predicate PointsHome(p: Pointer, turn: Turn) {
    match p.key
    case TurnKey(u, d, s, n, _) => p.kind == Blob && (u, d, s, n) == (turn.user, turn.device, turn.session, turn.number)
    case BatchKey(u, d, s, _) =>
      p.kind == BlobBatch && (u, d, s) == (turn.user, turn.device, turn.session) && p.itemNumber == Some(turn.number)
    case ForeignKey(_) => false
  }

  /** Whatever a payload holds and whatever is stored: without the shape of a pointer it is given as it is, a pointer
      to anywhere but the turn's own place is refused, and only the turn's own blob is ever read. */
  lemma OnlyOwnBlobsAreRead(turn: Turn, store: Store, v: Value)
    requires turn.payload.Some? && turn.payload.value != NotJson("") && v == Parse(turn.payload.value)
    ensures !Shaped(v) ==> Resolve(turn, store) == Payload(v)
    ensures Shaped(v) && !PointsHome(v.pointer, turn) ==> Resolve(turn, store) == Invalid
    ensures PointerOf(turn) == if Shaped(v) && PointsHome(v.pointer, turn) then Some(v.pointer) else None
    ensures PointerOf(turn).Some? ==>
              Resolve(turn, store) ==
              if v.pointer.key !in store then Missing
              else
                match store[v.pointer.key]
                case Raw(t) => if v.pointer.gz then Unavailable else ResolveText(t, v.pointer)
                case Gzip(t) => ResolveText(if v.pointer.gz then t else GzipBytes(t), v.pointer)
  {
    hide ResolveText;
  }

  predicate Agrees(hash: Option<Hash>, t: Text) { hash.Some? ==> hash.value == Sha256(t) }

  /** A single blob gives its value, if its hash is the one the pointer states. */
  lemma BlobTextGives(t: Text, p: Pointer)
    requires p.kind == Blob
    ensures ResolveText(t, p) == if Agrees(p.hash, t) then Payload(Parse(t)) else Invalid
  {
  }

  /** Item i is the first of the pointer's number. */
  ghost predicate FirstMatch(items: seq<Item>, i: nat, p: Pointer) {
    && i < |items| && p.itemNumber.Some? && items[i].number == p.itemNumber
    && forall j | 0 <= j < i :: items[j].number != p.itemNumber
  }

  /** A batch gives its first item of the number, if both hashes are the ones the pointer states. */
  lemma BatchTextGives(t: Text, p: Pointer, i: nat)
    requires p.kind == BlobBatch
    ensures !Agrees(p.batchHash, t) || !Parse(t).BatchObject? || Parse(t).version != 1 ==>
              ResolveText(t, p) == Invalid
    ensures Agrees(p.batchHash, t) && Parse(t).BatchObject? && Parse(t).version == 1 ==>
              var items := Parse(t).items;
              && (p.itemNumber.None? || (forall j | 0 <= j < |items| :: items[j].number != p.itemNumber) ==>
                    ResolveText(t, p) == Missing)
              && (FirstMatch(items, i, p) ==>
                    ResolveText(t, p) ==
                    if items[i].payload.None? then Missing
                    else if Agrees(p.hash, items[i].payload.value) then Payload(Parse(items[i].payload.value))
                    else Invalid)
  {
    hide FindItem;
    if Parse(t).BatchObject? {
      var items := Parse(t).items;
      if p.itemNumber.None? || forall j | 0 <= j < |items| :: items[j].number != p.itemNumber {
        NoneFound(items, p.itemNumber);
      }
      if FirstMatch(items, i, p) {
        FoundAt(items, i, p);
      }
    }
  }

  lemma {:induction false} NoneFound(items: seq<Item>, number: Option<int>)
    requires number.None? || forall j | 0 <= j < |items| :: items[j].number != number
    ensures FindItem(items, number) == None
  {
    if items != [] {
      NoneFound(items[1..], number);
    }
  }

  lemma {:induction false} FoundAt(items: seq<Item>, i: nat, p: Pointer)
    requires FirstMatch(items, i, p)
    ensures FindItem(items, p.itemNumber) == Some(items[i])
  {
    if i > 0 {
      FoundAt(items[1..], i - 1, p);
    }
  }

  // ---- The blob store

  /** Batches sit under the hash of their text, with the encoding their name says. */
  ghost predicate WellKept(store: Store) {
    forall k | k in store && k.BatchKey? && k.name.Named? ::
      store[k].text == k.name.hash.of && (store[k].Gzip? <==> k.name.gz)
  }

  /** Nothing stored before is gone or changed. */
  ghost predicate Grows(before: Store, after: Store) { forall k | k in before :: k in after && after[k] == before[k] }

  lemma GrowsFurther(a: Store, b: Store, c: Store)
    requires Grows(a, b) && Grows(b, c)
    ensures Grows(a, c)
  {
  }

  /** A turn that could be read can be read, with the same result, however much is archived later. */
  lemma StillResolves(turn: Turn, before: Store, after: Store)
    requires Grows(before, after) && Resolve(turn, before) != Missing
    ensures Resolve(turn, after) == Resolve(turn, before)
  {
  }

  // ---- One batch

  datatype Candidate = Candidate(index: nat, turn: Turn, payload: Text, bytes: nat)

  function SessionOf(turn: Turn): SessionKey { SessionKey(turn.user, turn.device, turn.session) }

  predicate OneSession(batch: seq<Candidate>) {
    forall i, j | 0 <= i < |batch| && 0 <= j < |batch| :: SessionOf(batch[i].turn) == SessionOf(batch[j].turn)
  }

  function ItemOf(c: Candidate): Item { Item(Some(c.turn.number), Some(Sha256(c.payload)), c.bytes, Some(c.payload)) }

  function ItemsOf(batch: seq<Candidate>): (items: seq<Item>)
    ensures |items| == |batch| && forall i | 0 <= i < |batch| :: items[i] == ItemOf(batch[i])
  {
    seq(|batch|, i requires 0 <= i < |batch| => ItemOf(batch[i]))
  }

  /** The first candidate with the given turn number. */
  function FirstWith(batch: seq<Candidate>, number: int): (c: Candidate)
    requires exists i :: 0 <= i < |batch| && batch[i].turn.number == number
    ensures c in batch && c.turn.number == number
  {
    if batch[0].turn.number == number then batch[0] else FirstWith(batch[1..], number)
  }

  lemma {:induction false} FindItemFindsFirst(batch: seq<Candidate>, number: int)
    requires exists i :: 0 <= i < |batch| && batch[i].turn.number == number
    ensures FindItem(ItemsOf(batch), Some(number)) == Some(ItemOf(FirstWith(batch, number)))
  {
    if batch[0].turn.number != number {
      FindItemFindsFirst(batch[1..], number);
      assert ItemsOf(batch)[1..] == ItemsOf(batch[1..]);
    }
  }

  function WithPointer(turn: Turn, p: Pointer): Turn { turn.(payload := Some(Stringify(PointerObject(p)))) }

  /** What the reader of one batched turn gets: its own payload, unless another turn of the batch with the same number
      comes first. */
  ghost predicate ReadsBack(batch: seq<Candidate>, i: nat, p: Pointer, store: Store)
    requires i < |batch|
  {
    var c := batch[i];
    var turn := WithPointer(c.turn, p);
    && IsCurrentPointer(PointerObject(p), c.turn)
    && p.kind == BlobBatch && p.key in store
    && StatesItsEncoding(turn)
    && Resolve(turn, store) ==
       if FirstWith(batch, c.turn.number).payload == c.payload then Payload(Parse(c.payload)) else Invalid
  }

  method ExternalizeTurnPayloadCandidateBatch(batch: seq<Candidate>, store: Store, gz: bool)
    returns (pointers: seq<Pointer>, store': Store)
    requires batch != [] && OneSession(batch) && WellKept(store)
    ensures WellKept(store') && Grows(store, store')
    ensures |pointers| == |batch| && forall i | 0 <= i < |batch| :: ReadsBack(batch, i, pointers[i], store')
    ensures store'.Keys == store.Keys + {pointers[0].key}
  {
    var items := ItemsOf(batch);
    var manifest := Stringify(BatchObject(POINTER_VERSION, items));
    var batchHash := Sha256(manifest);
    var first, last := batch[0].turn, batch[|batch| - 1].turn;
    var key := BatchKey(first.user, first.device, first.session, Named(first.number, last.number, batchHash, gz));
    store' := store[key := if gz then Gzip(manifest) else Raw(manifest)];
    pointers := seq(|batch|, i requires 0 <= i < |batch| =>
      Pointer(BlobBatch, POINTER_VERSION, key, Some(batchHash), items[i].number, items[i].hash, items[i].bytes, gz));
    forall i | 0 <= i < |batch| ensures ReadsBack(batch, i, pointers[i], store') {
      PointerReadsBack(batch, i, pointers[i], store', manifest);
    }
  }

  lemma PointerReadsBack(batch: seq<Candidate>, i: nat, p: Pointer, store: Store, manifest: Text)
    requires i < |batch| && OneSession(batch)
    requires manifest == Stringify(BatchObject(POINTER_VERSION, ItemsOf(batch)))
    requires p.kind == BlobBatch && p.version == POINTER_VERSION && p.key.BatchKey? && p.key.name.Named?
    requires OwnKey(p.key, batch[0].turn)
    requires p.batchHash == Some(Sha256(manifest)) && p.itemNumber == Some(batch[i].turn.number)
    requires p.hash == Some(Sha256(batch[i].payload))
    requires p.gz == p.key.name.gz
    requires p.key in store && store[p.key] == if p.gz then Gzip(manifest) else Raw(manifest)
    ensures ReadsBack(batch, i, p, store)
  {
    hide ItemsOf;
    FindItemFindsFirst(batch, batch[i].turn.number);
    assert SessionOf(batch[i].turn) == SessionOf(batch[0].turn);
    assert IsCurrentPointer(PointerObject(p), batch[i].turn);
    assert ResolveText(manifest, p) == ResolveBatchItem(manifest, p);
  }

  // ---- Cutting one session's candidates into batches

  function Sum(batch: seq<Candidate>): nat {
    if batch == [] then 0 else Sum(batch[..|batch| - 1]) + batch[|batch| - 1].bytes
  }

  /** The first usable timestamp of a batch, or 0. */
  function StartedAt(batch: seq<Candidate>): int {
    if batch == [] then 0
    else
      var before, last := StartedAt(batch[..|batch| - 1]), batch[|batch| - 1].turn;
      if before <= 0 && last.time.Some? then last.time.value else before
  }

  predicate PayloadBatchAgeExceeded(startedAt: int, next: Option<int>, maxAge: nat) {
    startedAt > 0 && next.Some? && next.value > startedAt && next.value - startedAt > maxAge
  }

  /** The limits that end a batch before candidate c. */
  predicate EndsBefore(batch: seq<Candidate>, c: Candidate, maxBytes: nat, maxAge: nat) {
    Sum(batch) + c.bytes > maxBytes || PayloadBatchAgeExceeded(StartedAt(batch), c.turn.time, maxAge)
  }

  /** Turn i is the first of the batch with a usable time. */
  ghost predicate FirstTimed(batch: seq<Candidate>, i: int) {
    && 0 <= i < |batch| && batch[i].turn.time.Some? && batch[i].turn.time.value > 0
    && forall j | 0 <= j < i :: batch[j].turn.time.None? || batch[j].turn.time.value <= 0
  }

  lemma {:induction false} StartIsFirstTime(batch: seq<Candidate>)
    ensures StartedAt(batch) > 0 <==> exists i :: FirstTimed(batch, i)
    ensures forall i | FirstTimed(batch, i) :: StartedAt(batch) == batch[i].turn.time.value
  {
    if batch != [] {
      var n := |batch| - 1;
      StartIsFirstTime(batch[..n]);
      assert forall i: nat | i < n :: FirstTimed(batch[..n], i) <==> FirstTimed(batch, i);
      if StartedAt(batch[..n]) <= 0 && batch[n].turn.time.Some? && batch[n].turn.time.value > 0 {
        NoneTimed(batch[..n]);
        assert FirstTimed(batch, n);
      }
    }
  }

  lemma {:induction false} NoneTimed(batch: seq<Candidate>)
    requires forall i :: !FirstTimed(batch, i)
    ensures forall j | 0 <= j < |batch| :: batch[j].turn.time.None? || batch[j].turn.time.value <= 0
  {
    if batch != [] {
      var n := |batch| - 1;
      assert forall i: nat | i < n :: FirstTimed(batch[..n], i) <==> FirstTimed(batch, i);
      NoneTimed(batch[..n]);
      assert !FirstTimed(batch, n);
    }
  }

  /** What ends a batch: the candidate would take it over the byte limit, or lies more than the age limit after its
      first turn with a time. */
  lemma EndsBeforeIff(batch: seq<Candidate>, c: Candidate, maxBytes: nat, maxAge: nat)
    ensures EndsBefore(batch, c, maxBytes, maxAge) <==>
            || Sum(batch + [c]) > maxBytes
            || exists i :: FirstTimed(batch, i) && c.turn.time.Some? &&
                 c.turn.time.value - batch[i].turn.time.value > maxAge
  {
    StartIsFirstTime(batch);
    assert (batch + [c])[..|batch|] == batch;
  }

  /** A batch is not empty and none of its candidates had to start a new one. */
  ghost predicate Fits(batch: seq<Candidate>, maxBytes: nat, maxAge: nat) {
    batch != [] && forall i | 0 < i < |batch| :: !EndsBefore(batch[..i], batch[i], maxBytes, maxAge)
  }

  /** The group in order, cut exactly where a limit asks for it. */
  ghost predicate Cut(batches: seq<seq<Candidate>>, group: seq<Candidate>, maxBytes: nat, maxAge: nat) {
    && Flatten(batches) == group
    && (forall b | b in batches :: Fits(b, maxBytes, maxAge))
    && (forall j | 0 < j < |batches| :: batches[j] != [] && EndsBefore(batches[j - 1], batches[j][0], maxBytes, maxAge))
  }

  function Flatten<T>(lists: seq<seq<T>>): seq<T> {
    if lists == [] then [] else Flatten(lists[..|lists| - 1]) + lists[|lists| - 1]
  }

  /** Several payloads share a batch only within the byte limit. */
  lemma SharedBatchIsWithinLimit(batch: seq<Candidate>, maxBytes: nat, maxAge: nat)
    requires Fits(batch, maxBytes, maxAge) && |batch| > 1
    ensures Sum(batch) <= maxBytes
  {
    assert !EndsBefore(batch[..|batch| - 1], batch[|batch| - 1], maxBytes, maxAge);
  }

  lemma FitsStep(batch: seq<Candidate>, c: Candidate, maxBytes: nat, maxAge: nat)
    requires batch != [] ==> Fits(batch, maxBytes, maxAge) && !EndsBefore(batch, c, maxBytes, maxAge)
    ensures Fits(batch + [c], maxBytes, maxAge)
    ensures Sum(batch + [c]) == Sum(batch) + c.bytes
    ensures StartedAt(batch + [c]) ==
            if StartedAt(batch) <= 0 && c.turn.time.Some? then c.turn.time.value else StartedAt(batch)
  {
    var b := batch + [c];
    assert b[..|batch|] == batch;
    forall i | 0 < i < |b| ensures !EndsBefore(b[..i], b[i], maxBytes, maxAge) {
      assert b[..i] == batch[..i];
    }
  }

  // ---- Candidates and groups

  predicate Wanted(turn: Turn, threshold: nat, size: Text -> nat) {
    !Falsy(turn.payload) && (size(turn.payload.value) >= threshold || IsPointerObject(Parse(turn.payload.value)))
  }

  ghost predicate CandidateOf(turns: seq<Turn>, c: Candidate) {
    && c.index < |turns| && c.turn == turns[c.index] && !Falsy(c.turn.payload) && c.payload == c.turn.payload.value
  }

  ghost predicate CandidatesOf(turns: seq<Turn>, n: nat, candidates: seq<Candidate>, threshold: nat, size: Text -> nat)
    requires n <= |turns|
  {
    && (forall c | c in candidates ::
          c.index < n && CandidateOf(turns, c) && c.bytes == size(c.payload) && Wanted(c.turn, threshold, size))
    && (forall i | 0 <= i < n && Wanted(turns[i], threshold, size) :: i in Indexes(candidates))
    && (forall i, j | 0 <= i < j < |candidates| :: candidates[i].index < candidates[j].index)
  }

  ghost function Indexes(candidates: seq<Candidate>): set<nat> { set c | c in candidates :: c.index }

  lemma IndexesOfStep(candidates: seq<Candidate>, c: Candidate)
    ensures Indexes(candidates + [c]) == Indexes(candidates) + {c.index}
  {
    assert forall d :: d in candidates + [c] <==> d in candidates || d == c;
    assert c in candidates + [c];
    forall i | i in Indexes(candidates) ensures i in Indexes(candidates + [c]) {
      var d :| d in candidates && d.index == i;
      assert d in candidates + [c];
    }
  }

  method Candidates(turns: seq<Turn>, threshold: nat, size: Text -> nat) returns (candidates: seq<Candidate>)
    ensures CandidatesOf(turns, |turns|, candidates, threshold, size)
  {
    candidates := [];
    for index := 0 to |turns|
      invariant CandidatesOf(turns, index, candidates, threshold, size)
    {
      var turn := turns[index];
      if Wanted(turn, threshold, size) {
        var c := Candidate(index, turn, turn.payload.value, size(turn.payload.value));
        IndexesOfStep(candidates, c);
        candidates := candidates + [c];
      }
    }
  }

  // ---- Stable sort by turn number

  ghost predicate Sorted(q: seq<Candidate>) { forall i, j | 0 <= i < j < |q| :: q[i].turn.number <= q[j].turn.number }

  /** c goes behind everything that is not larger. */
  function InsertLast(q: seq<Candidate>, c: Candidate): seq<Candidate> {
    if q == [] || q[|q| - 1].turn.number <= c.turn.number then q + [c]
    else InsertLast(q[..|q| - 1], c) + [q[|q| - 1]]
  }

  function SortByNumber(q: seq<Candidate>): seq<Candidate> {
    if q == [] then [] else InsertLast(SortByNumber(q[..|q| - 1]), q[|q| - 1])
  }

  ghost predicate AtMost(q: seq<Candidate>, limit: int) { forall i | 0 <= i < |q| :: q[i].turn.number <= limit }

  lemma {:induction false} InsertAtMost(q: seq<Candidate>, c: Candidate, limit: int)
    requires AtMost(q, limit) && c.turn.number <= limit
    ensures AtMost(InsertLast(q, c), limit)
  {
    if q != [] && q[|q| - 1].turn.number > c.turn.number {
      InsertAtMost(q[..|q| - 1], c, limit);
    }
  }

  lemma {:induction false} InsertPermutes(q: seq<Candidate>, c: Candidate)
    ensures multiset(InsertLast(q, c)) == multiset(q) + multiset{c}
  {
    if q != [] && q[|q| - 1].turn.number > c.turn.number {
      InsertPermutes(q[..|q| - 1], c);
      assert q == q[..|q| - 1] + [q[|q| - 1]];
    }
  }

  lemma {:induction false} InsertSorts(q: seq<Candidate>, c: Candidate)
    requires Sorted(q)
    ensures Sorted(InsertLast(q, c))
  {
    if q != [] && q[|q| - 1].turn.number > c.turn.number {
      InsertSorts(q[..|q| - 1], c);
      InsertAtMost(q[..|q| - 1], c, q[|q| - 1].turn.number);
    }
  }

  lemma {:induction false} SortSorts(q: seq<Candidate>)
    ensures Sorted(SortByNumber(q)) && multiset(SortByNumber(q)) == multiset(q)
  {
    hide InsertLast;
    if q == [] {
    } else {
      SortSorts(q[..|q| - 1]);
      InsertSorts(SortByNumber(q[..|q| - 1]), q[|q| - 1]);
      InsertPermutes(SortByNumber(q[..|q| - 1]), q[|q| - 1]);
      assert q == q[..|q| - 1] + [q[|q| - 1]];
    }
  }

  // ---- Groups

  ghost predicate OfSession(key: SessionKey, group: seq<Candidate>) {
    forall c | c in group :: SessionOf(c.turn) == key
  }

  ghost predicate Grouped(keys: seq<SessionKey>, groups: seq<seq<Candidate>>, candidates: seq<Candidate>) {
    && |keys| == |groups|
    && (forall i, j | 0 <= i < j < |keys| :: keys[i] != keys[j])
    && (forall i | 0 <= i < |groups| :: groups[i] != [] && OfSession(keys[i], groups[i]))
    && multiset(Flatten(groups)) == multiset(candidates)
  }

  /** Adding an element to one of the lists adds it to the whole. */
  lemma {:induction false} FlattenAdd<T>(lists: seq<seq<T>>, i: nat, x: T)
    requires i < |lists|
    ensures multiset(Flatten(lists[i := lists[i] + [x]])) == multiset(Flatten(lists)) + multiset{x}
  {
    var last := |lists| - 1;
    var lists' := lists[i := lists[i] + [x]];
    if i == last {
      assert lists'[..last] == lists[..last];
    } else {
      FlattenAdd(lists[..last], i, x);
      assert lists'[..last] == lists[..last][i := lists[i] + [x]];
      assert lists'[last] == lists[last];
    }
  }

  lemma FlattenAppend<T>(lists: seq<seq<T>>, list: seq<T>)
    ensures Flatten(lists + [list]) == Flatten(lists) + list
  {
    assert (lists + [list])[..|lists|] == lists;
  }

  function Position(keys: seq<SessionKey>, key: SessionKey): (i: nat)
    ensures i <= |keys| && (i < |keys| ==> keys[i] == key) && (i == |keys| ==> key !in keys)
  {
    if keys == [] || keys[0] == key then 0 else 1 + Position(keys[1..], key)
  }

  /** One more candidate filed under its session. */
  lemma FileStep(keys: seq<SessionKey>, groups: seq<seq<Candidate>>, candidates: seq<Candidate>, c: Candidate,
                 keys': seq<SessionKey>, groups': seq<seq<Candidate>>)
    requires Grouped(keys, groups, candidates) && Position(keys, SessionOf(c.turn)) <= |groups|
    requires var i := Position(keys, SessionOf(c.turn));
             if i < |keys| then keys' == keys && groups' == groups[i := groups[i] + [c]]
             else keys' == keys + [SessionOf(c.turn)] && groups' == groups + [[c]]
    ensures Grouped(keys', groups', candidates + [c])
  {
    hide Flatten, Position;
    var i := Position(keys, SessionOf(c.turn));
    assert multiset(candidates + [c]) == multiset(candidates) + multiset{c};
    if i < |keys| {
      FlattenAdd(groups, i, c);
    } else {
      FlattenAppend(groups, [c]);
    }
  }

  /** The candidates by session, in order of first appearance, each session's by turn number. */
  method GroupedPayloadCandidates(candidates: seq<Candidate>) returns (groups: seq<seq<Candidate>>)
    ensures multiset(Flatten(groups)) == multiset(candidates)
    ensures forall g | g in groups :: g != [] && OneSession(g) && Sorted(g)
  {
    hide Grouped;
    var keys: seq<SessionKey> := [];
    groups := [];
    GroupedNothing();
    for n := 0 to |candidates|
      invariant Grouped(keys, groups, candidates[..n])
    {
      var c := candidates[n];
      var i := Position(keys, SessionOf(c.turn));
      ghost var keys0, groups0 := keys, groups;
      GroupedSizes(keys, groups, candidates[..n]);
      if i < |keys| {
        groups := groups[i := groups[i] + [c]];
      } else {
        keys, groups := keys + [SessionOf(c.turn)], groups + [[c]];
      }
      FileStep(keys0, groups0, candidates[..n], c, keys, groups);
      assert candidates[..n + 1] == candidates[..n] + [c];
    }
    assert candidates[..|candidates|] == candidates;
    var filed := groups;
    groups := seq(|filed|, i requires 0 <= i < |filed| => SortByNumber(filed[i]));
    SortedGroups(keys, filed, candidates, groups);
  }

  lemma GroupedNothing()
    ensures Grouped([], [], [])
  {
  }

  lemma GroupedSizes(keys: seq<SessionKey>, groups: seq<seq<Candidate>>, candidates: seq<Candidate>)
    requires Grouped(keys, groups, candidates)
    ensures |keys| == |groups|
  {
  }

  lemma {:induction false} SameFlatten(a: seq<seq<Candidate>>, b: seq<seq<Candidate>>)
    requires |a| == |b| && forall i | 0 <= i < |a| :: multiset(a[i]) == multiset(b[i])
    ensures multiset(Flatten(a)) == multiset(Flatten(b))
  {
    if a == [] {
    } else {
      SameFlatten(a[..|a| - 1], b[..|b| - 1]);
    }
  }

  lemma SameElements<T>(a: seq<T>, b: seq<T>)
    requires multiset(a) == multiset(b)
    ensures |a| == |b| && forall x :: x in a <==> x in b
  {
    assert |multiset(a)| == |multiset(b)|;
    forall x ensures x in a <==> x in b {
      assert x in multiset(a) <==> x in multiset(b);
    }
  }

  lemma SortedGroups(keys: seq<SessionKey>, filed: seq<seq<Candidate>>, candidates: seq<Candidate>,
                     groups: seq<seq<Candidate>>)
    requires Grouped(keys, filed, candidates)
    requires |groups| == |filed| && forall i | 0 <= i < |filed| :: groups[i] == SortByNumber(filed[i])
    ensures multiset(Flatten(groups)) == multiset(candidates)
    ensures forall g | g in groups :: g != [] && OneSession(g) && Sorted(g)
  {
    hide Flatten, SortByNumber;
    forall i | 0 <= i < |filed| ensures Sorted(groups[i]) && multiset(groups[i]) == multiset(filed[i]) {
      SortSorts(filed[i]);
    }
    SameFlatten(groups, filed);
    forall g | g in groups ensures g != [] && OneSession(g) && Sorted(g) {
      var i :| 0 <= i < |groups| && groups[i] == g;
      SameElements(g, filed[i]);
      assert OfSession(keys[i], filed[i]);
    }
  }

  // ---- Writing the pointers back

  /** No two turns of a session have the same number. */
  ghost predicate Deduped(turns: seq<Turn>) {
    forall i, j | 0 <= i < j < |turns| ::
      SessionOf(turns[i]) != SessionOf(turns[j]) || turns[i].number != turns[j].number
  }

  /** The turn points to an item of a stored batch. */
  ghost predicate Archived(turn: Turn, store: Store) {
    var p := PointerOf(turn);
    p.Some? && p.value.kind == BlobBatch && p.value.key in store
  }

  /** The turns at the given places are archived and read back as uploaded; the others are as they were. */
  ghost predicate OutState(turns: seq<Turn>, out: seq<Turn>, store: Store, done: set<nat>) {
    && |out| == |turns|
    && forall i | 0 <= i < |turns| ::
         if i in done then out[i] == turns[i].(payload := out[i].payload) && StatesItsEncoding(out[i])
                           && Archived(out[i], store) && Resolve(out[i], store) == Uploaded(turns[i])
         else out[i] == turns[i]
  }

  lemma OutGrows(turns: seq<Turn>, out: seq<Turn>, store: Store, done: set<nat>, store': Store)
    requires OutState(turns, out, store, done) && Grows(store, store')
    ensures OutState(turns, out, store', done)
  {
    hide Resolve;
    forall i | 0 <= i < |turns| && i in done ensures Resolve(out[i], store') == Uploaded(turns[i]) {
      StillResolves(out[i], store, store');
    }
  }

  lemma OutStep(turns: seq<Turn>, out: seq<Turn>, store: Store, done: set<nat>, batch: seq<Candidate>, k: nat,
                p: Pointer)
    requires OutState(turns, out, store, done) && Deduped(turns)
    requires k < |batch| && OneSession(batch) && ReadsBack(batch, k, p, store)
    requires forall c | c in batch :: CandidateOf(turns, c)
    ensures batch[k].index < |out|
    ensures OutState(turns, out[batch[k].index := WithPointer(out[batch[k].index], p)], store, done + {batch[k].index})
  {
    hide Resolve;
    var c := batch[k];
    assert c in batch;
    var first := FirstWith(batch, c.turn.number);
    assert CandidateOf(turns, c) && CandidateOf(turns, first);
    var i :| 0 <= i < |batch| && batch[i] == first;
    assert SessionOf(first.turn) == SessionOf(c.turn);
    assert first.index == c.index;
    assert WithPointer(out[c.index], p) == WithPointer(c.turn, p);
  }

  /** Writes one batch and points its turns at it. */
  method Flush(batch: seq<Candidate>, out: seq<Turn>, store: Store,
               gz: bool, ghost turns: seq<Turn>, ghost done: set<nat>)
    returns (out': seq<Turn>, store': Store)
    requires batch != [] && OneSession(batch) && WellKept(store) && Deduped(turns)
    requires (forall c | c in batch :: CandidateOf(turns, c)) && OutState(turns, out, store, done)
    ensures WellKept(store') && Grows(store, store') && OutState(turns, out', store', done + Indexes(batch))
    ensures |store'| <= |store| + 1
  {
    hide OutState, WellKept, Grows, ReadsBack, Indexes, Deduped, OneSession, CandidateOf;
    var pointers;
    pointers, store' := ExternalizeTurnPayloadCandidateBatch(batch, store, gz);
    OneKeyMore(store, store', pointers[0].key);
    out' := out;
    OutGrows(turns, out, store, done, store');
    IndexesOfNone();
    assert done + Indexes(batch[..0]) == done;
    for k := 0 to |batch|
      invariant OutState(turns, out', store', done + Indexes(batch[..k]))
    {
      OutStep(turns, out', store', done + Indexes(batch[..k]), batch, k, pointers[k]);
      IndexesOfStep(batch[..k], batch[k]);
      assert batch[..k + 1] == batch[..k] + [batch[k]];
      assert done + Indexes(batch[..k]) + {batch[k].index} == done + Indexes(batch[..k + 1]);
      out' := out'[batch[k].index := WithPointer(out'[batch[k].index], pointers[k])];
    }
    assert batch[..|batch|] == batch;
  }

  lemma OneKeyMore(store: Store, store': Store, key: BlobKey)
    requires store'.Keys == store.Keys + {key}
    ensures |store'| <= |store| + 1
  {
    assert |store'| == |store'.Keys| && |store| == |store.Keys|;
  }

  lemma IndexesOfNone()
    ensures Indexes([]) == {}
  {
  }

  /** The batches written so far and the one being filled. */
  ghost predicate CutSoFar(batches: seq<seq<Candidate>>, batch: seq<Candidate>, part: seq<Candidate>, maxBytes: nat,
                           maxAge: nat) {
    && Cut(batches, Flatten(batches), maxBytes, maxAge)
    && Flatten(batches) + batch == part
    && (batch != [] ==> Fits(batch, maxBytes, maxAge))
    && (batches != [] ==> batch != [] && EndsBefore(batches[|batches| - 1], batch[0], maxBytes, maxAge))
  }

  lemma CutStart(maxBytes: nat, maxAge: nat)
    ensures CutSoFar([], [], [], maxBytes, maxAge)
  {
  }

  lemma CutPush(batches: seq<seq<Candidate>>, batch: seq<Candidate>, part: seq<Candidate>, c: Candidate,
                maxBytes: nat, maxAge: nat)
    requires CutSoFar(batches, batch, part, maxBytes, maxAge)
    requires batch != [] ==> !EndsBefore(batch, c, maxBytes, maxAge)
    ensures CutSoFar(batches, batch + [c], part + [c], maxBytes, maxAge)
  {
    hide EndsBefore, Fits, Cut, Flatten;
    FitsStep(batch, c, maxBytes, maxAge);
    assert Flatten(batches) + (batch + [c]) == Flatten(batches) + batch + [c];
  }

  lemma CutFlush(batches: seq<seq<Candidate>>, batch: seq<Candidate>, part: seq<Candidate>, maxBytes: nat, maxAge: nat)
    requires CutSoFar(batches, batch, part, maxBytes, maxAge) && batch != []
    ensures Cut(batches + [batch], part, maxBytes, maxAge)
  {
    hide EndsBefore, Fits, Flatten;
    FlattenAppend(batches, batch);
  }

  /** A batch is written because the next candidate does not go with it. */
  lemma CutFlushPush(batches: seq<seq<Candidate>>, batch: seq<Candidate>, part: seq<Candidate>, c: Candidate,
                     maxBytes: nat, maxAge: nat)
    requires CutSoFar(batches, batch, part, maxBytes, maxAge) && batch != [] && EndsBefore(batch, c, maxBytes, maxAge)
    ensures CutSoFar(batches + [batch], [c], part + [c], maxBytes, maxAge)
  {
    hide EndsBefore, Fits, Flatten, Cut;
    CutFlush(batches, batch, part, maxBytes, maxAge);
    CutNames(batches + [batch], part, maxBytes, maxAge);
    FitsStep([], c, maxBytes, maxAge);
    assert [] + [c] == [c];
  }

  lemma CutNames(batches: seq<seq<Candidate>>, part: seq<Candidate>, maxBytes: nat, maxAge: nat)
    requires Cut(batches, part, maxBytes, maxAge)
    ensures Flatten(batches) == part
  {
  }

  lemma PartOfGroup(batches: seq<seq<Candidate>>, batch: seq<Candidate>, group: seq<Candidate>, n: nat,
                    maxBytes: nat, maxAge: nat)
    requires n <= |group| && CutSoFar(batches, batch, group[..n], maxBytes, maxAge)
    ensures forall c | c in batch :: c in group
    ensures OneSession(group) ==> OneSession(batch)
  {
    hide Cut, Fits, EndsBefore, Flatten;
    assert forall k | 0 <= k < |batch| :: batch[k] == group[|Flatten(batches)| + k];
  }

  /** One session's candidates, in order, batch after batch. */
  method ExternalizeGroup(group: seq<Candidate>, out: seq<Turn>, store: Store, maxBytes: nat, maxAge: nat, gz: bool,
                          ghost turns: seq<Turn>, ghost done: set<nat>)
    returns (out': seq<Turn>, store': Store, batches: seq<seq<Candidate>>)
    requires group != [] && OneSession(group) && WellKept(store) && Deduped(turns)
    requires (forall c | c in group :: CandidateOf(turns, c)) && OutState(turns, out, store, done)
    ensures WellKept(store') && Grows(store, store') && OutState(turns, out', store', done + Indexes(group))
    ensures Cut(batches, group, maxBytes, maxAge) && |store'| <= |store| + |batches|
  {
    hide OutState, WellKept, Grows, Indexes, Deduped, OneSession, CandidateOf, CutSoFar, Cut, Fits, Flatten, Sum,
         StartedAt;
    out', store', batches := out, store, [];
    var batch: seq<Candidate>, batchBytes, batchStartedAt := [], 0, 0;
    CutStart(maxBytes, maxAge);
    Nothing(group, store, done);
    for n := 0 to |group|
      invariant CutSoFar(batches, batch, group[..n], maxBytes, maxAge)
      invariant (n > 0 ==> batch != []) && batchBytes == Sum(batch) && batchStartedAt == StartedAt(batch)
      invariant WellKept(store') && Grows(store, store')
      invariant OutState(turns, out', store', done + Indexes(Flatten(batches))) && |store'| <= |store| + |batches|
    {
      var candidate := group[n];
      assert group[..n + 1] == group[..n] + [candidate];
      var full := batchBytes + candidate.bytes > maxBytes
                  || PayloadBatchAgeExceeded(batchStartedAt, candidate.turn.time, maxAge);
      assert full == EndsBefore(batch, candidate, maxBytes, maxAge);
      if |batch| > 0 && full {
        PartOfGroup(batches, batch, group, n, maxBytes, maxAge);
        ghost var store0 := store';
        out', store' := Flush(batch, out', store', gz, turns, done + Indexes(Flatten(batches)));
        GrowsFurther(store, store0, store');
        CutFlushPush(batches, batch, group[..n], candidate, maxBytes, maxAge);
        FlushedIndexes(batches, batch, done);
        batches := batches + [batch];
        batch, batchBytes, batchStartedAt := [], 0, 0;
        assert batch + [candidate] == [candidate];
      } else {
        CutPush(batches, batch, group[..n], candidate, maxBytes, maxAge);
      }
      Pushed(batch, candidate);
      batch := batch + [candidate];
      batchBytes := batchBytes + candidate.bytes;
      if batchStartedAt <= 0 && candidate.turn.time.Some? {
        batchStartedAt := candidate.turn.time.value;
      }
    }
    assert group[..|group|] == group;
    PartOfGroup(batches, batch, group, |group|, maxBytes, maxAge);
    ghost var store0 := store';
    out', store' := Flush(batch, out', store', gz, turns, done + Indexes(Flatten(batches)));
    GrowsFurther(store, store0, store');
    CutFlush(batches, batch, group, maxBytes, maxAge);
    FlushedIndexes(batches, batch, done);
    batches := batches + [batch];
    CutNames(batches, group, maxBytes, maxAge);
  }

  lemma Nothing(group: seq<Candidate>, store: Store, done: set<nat>)
    ensures group[..0] == [] && Sum([]) == 0 && StartedAt([]) == 0 && Grows(store, store)
    ensures done + Indexes(Flatten<Candidate>([])) == done
  {
    assert Flatten<Candidate>([]) == [];
    IndexesOfNone();
  }

  lemma Pushed(batch: seq<Candidate>, c: Candidate)
    ensures Sum(batch + [c]) == Sum(batch) + c.bytes
    ensures StartedAt(batch + [c]) ==
            if StartedAt(batch) <= 0 && c.turn.time.Some? then c.turn.time.value else StartedAt(batch)
  {
    assert (batch + [c])[..|batch|] == batch;
  }

  lemma FlushedIndexes(batches: seq<seq<Candidate>>, batch: seq<Candidate>, done: set<nat>)
    ensures done + Indexes(Flatten(batches)) + Indexes(batch) == done + Indexes(Flatten(batches + [batch]))
  {
    FlattenAppend(batches, batch);
  }

  // ---- The whole upload

  /** Among all candidates of all batches turn i is there once, with its payload and size. */
  ghost predicate InOneBatch(batches: seq<seq<Candidate>>, turns: seq<Turn>, i: nat, size: Text -> nat)
    requires i < |turns|
  {
    var all := Flatten(batches);
    exists n: nat ::
      && n < |all| && all[n].index == i && all[n].turn == turns[i]
      && turns[i].payload == Some(all[n].payload) && all[n].bytes == size(all[n].payload)
      && forall m | 0 <= m < |all| && all[m].index == i :: m == n
  }

  ghost predicate InNoBatch(batches: seq<seq<Candidate>>, i: nat) {
    forall c | c in Flatten(batches) :: c.index != i
  }

  /** A payload that is there and is large, or could be taken for a pointer, is archived; any other turn is left as it
      is. */
  ghost predicate ArchivedIfLarge(turns: seq<Turn>, out: seq<Turn>, i: nat, store: Store, batches: seq<seq<Candidate>>,
                                  threshold: nat, size: Text -> nat)
    requires i < |turns| && i < |out|
  {
    var payload := turns[i].payload;
    if && payload.Some? && payload.value != NotJson("")
       && (size(payload.value) >= threshold || IsPointerObject(Parse(payload.value)))
    then InOneBatch(batches, turns, i, size) && Archived(out[i], store)
    else InNoBatch(batches, i) && out[i] == turns[i]
  }

  ghost predicate GoodBatch(batch: seq<Candidate>, maxBytes: nat, maxAge: nat) {
    OneSession(batch) && Sorted(batch) && Fits(batch, maxBytes, maxAge)
  }

  /** After archiving, the reader of any turn gets what was uploaded, also where that looks like a pointer; every wanted
      turn is in exactly one batch, each of one session, in turn order and within the limits. */
  method ExternalizeTurnPayloadBatch(turns: seq<Turn>, store: Store, threshold: nat, maxBytes: nat, maxAge: nat,
                                     size: Text -> nat, gz: bool)
    returns (out: seq<Turn>, store': Store, batches: seq<seq<Candidate>>)
    requires WellKept(store) && Deduped(turns)
    ensures WellKept(store') && Grows(store, store') && |store'| <= |store| + |batches|
    ensures |out| == |turns| && forall i | 0 <= i < |turns| ::
              out[i] == turns[i].(payload := out[i].payload) && Resolve(out[i], store') == Uploaded(turns[i])
    ensures forall i | 0 <= i < |out| :: StatesItsEncoding(out[i])
    ensures forall i | 0 <= i < |turns| :: ArchivedIfLarge(turns, out, i, store', batches, threshold, size)
    ensures forall b | b in batches :: GoodBatch(b, maxBytes, maxAge)
  {
    hide OutState, WellKept, Grows, Indexes, Deduped, OneSession, CandidateOf, Cut, Fits, Flatten, Sum, StartedAt,
         Sorted, CandidatesOf, ArchivedIfLarge, GoodBatch, Resolve, Uploaded;
    var candidates := Candidates(turns, threshold, size);
    var groups := GroupedPayloadCandidates(candidates);
    out, store', batches := turns, store, [];
    UploadStart(turns, store, groups);
    for g := 0 to |groups|
      invariant WellKept(store') && Grows(store, store') && |store'| <= |store| + |batches|
      invariant OutState(turns, out, store', Indexes(Flatten(groups[..g])))
      invariant Flatten(batches) == Flatten(groups[..g])
      invariant forall b | b in batches :: GoodBatch(b, maxBytes, maxAge)
    {
      GroupCandidates(turns, candidates, groups, g, threshold, size);
      assert groups[g] in groups;
      ghost var store0 := store';
      var cut;
      out, store', cut := ExternalizeGroup(
        groups[g], out, store', maxBytes, maxAge, gz, turns, Indexes(Flatten(groups[..g])));
      GrowsFurther(store, store0, store');
      GroupDone(groups, g, batches, cut, maxBytes, maxAge);
      batches := batches + cut;
    }
    assert groups[..|groups|] == groups;
    Restored(turns, out, store', candidates, Flatten(groups), threshold, size);
    AllArchivedIfLarge(turns, out, store', candidates, batches, threshold, size);
  }

  lemma UploadStart(turns: seq<Turn>, store: Store, groups: seq<seq<Candidate>>)
    ensures OutState(turns, turns, store, Indexes(Flatten(groups[..0]))) && Grows(store, store)
    ensures Flatten<Candidate>([]) == Flatten(groups[..0])
  {
    assert groups[..0] == [];
    IndexesOfNone();
  }

  lemma {:induction false} InFlatten<T>(lists: seq<seq<T>>, i: nat, x: T)
    requires i < |lists| && x in lists[i]
    ensures x in Flatten(lists)
  {
    if i < |lists| - 1 {
      InFlatten(lists[..|lists| - 1], i, x);
    }
  }

  lemma GroupCandidates(turns: seq<Turn>, candidates: seq<Candidate>, groups: seq<seq<Candidate>>, g: nat,
                        threshold: nat, size: Text -> nat)
    requires CandidatesOf(turns, |turns|, candidates, threshold, size) && g < |groups|
    requires multiset(Flatten(groups)) == multiset(candidates)
    ensures forall c | c in groups[g] :: CandidateOf(turns, c)
  {
    SameElements(Flatten(groups), candidates);
    forall c | c in groups[g] ensures CandidateOf(turns, c) {
      InFlatten(groups, g, c);
    }
  }

  lemma {:induction false} FlattenBoth<T>(a: seq<seq<T>>, b: seq<seq<T>>)
    ensures Flatten(a + b) == Flatten(a) + Flatten(b)
  {
    if b == [] {
      assert a + b == a;
    } else {
      FlattenBoth(a, b[..|b| - 1]);
      assert (a + b)[..|a + b| - 1] == a + b[..|b| - 1];
    }
  }

  lemma {:induction false} GroupDone(groups: seq<seq<Candidate>>, g: nat, batches: seq<seq<Candidate>>,
                                     cut: seq<seq<Candidate>>,
                  maxBytes: nat, maxAge: nat)
    requires g < |groups| && Flatten(batches) == Flatten(groups[..g]) && Cut(cut, groups[g], maxBytes, maxAge)
    requires OneSession(groups[g]) && Sorted(groups[g])
    ensures Flatten(batches + cut) == Flatten(groups[..g + 1])
    ensures Indexes(Flatten(groups[..g])) + Indexes(groups[g]) == Indexes(Flatten(groups[..g + 1]))
    ensures forall b | b in cut :: GoodBatch(b, maxBytes, maxAge)
  {
    hide Flatten, OneSession, Sorted;
    CutNames(cut, groups[g], maxBytes, maxAge);
    FlattenBoth(batches, cut);
    FlattenAppend(groups[..g], groups[g]);
    assert groups[..g + 1] == groups[..g] + [groups[g]];
    forall b | b in cut ensures GoodBatch(b, maxBytes, maxAge) {
      var i :| 0 <= i < |cut| && cut[i] == b;
      SliceOfFlatten(cut, i);
    }
  }

  /** A stretch of a list keeps session and order. */
  lemma StretchKeepsOrder(part: seq<Candidate>, whole: seq<Candidate>, from: nat)
    requires from + |part| <= |whole| && forall k | 0 <= k < |part| :: part[k] == whole[from + k]
    ensures OneSession(whole) ==> OneSession(part)
    ensures Sorted(whole) ==> Sorted(part)
  {
  }

  lemma {:induction false} SliceOfFlatten(lists: seq<seq<Candidate>>, i: nat)
    requires i < |lists|
    ensures OneSession(Flatten(lists)) ==> OneSession(lists[i])
    ensures Sorted(Flatten(lists)) ==> Sorted(lists[i])
  {
    hide OneSession, Sorted;
    var last := |lists| - 1;
    var front := Flatten(lists[..last]);
    if i == last {
      StretchKeepsOrder(lists[i], Flatten(lists), |front|);
    } else {
      StretchKeepsOrder(front, Flatten(lists), 0);
      SliceOfFlatten(lists[..last], i);
    }
  }

  lemma Restored(turns: seq<Turn>, out: seq<Turn>, store: Store, candidates: seq<Candidate>, all: seq<Candidate>,
                 threshold: nat, size: Text -> nat)
    requires OutState(turns, out, store, Indexes(all)) && CandidatesOf(turns, |turns|, candidates, threshold, size)
    requires multiset(all) == multiset(candidates)
    ensures |out| == |turns| && forall i | 0 <= i < |turns| ::
              out[i] == turns[i].(payload := out[i].payload) && Resolve(out[i], store) == Uploaded(turns[i])
    ensures forall i | 0 <= i < |out| :: StatesItsEncoding(out[i])
  {
    hide ResolveText;
    SameElements(all, candidates);
    forall i | 0 <= i < |turns|
      ensures StatesItsEncoding(out[i])
      ensures out[i] == turns[i].(payload := out[i].payload) && Resolve(out[i], store) == Uploaded(turns[i])
    {
      if Wanted(turns[i], threshold, size) {
        var c :| c in candidates && c.index == i;
        assert c in all;
      }
    }
  }

  /** The candidates of all batches are a permutation of the wanted turns. */
  lemma NoIndexTwice(candidates: seq<Candidate>, all: seq<Candidate>)
    requires forall i, j | 0 <= i < j < |candidates| :: candidates[i].index < candidates[j].index
    requires multiset(all) == multiset(candidates)
    ensures forall n, m | 0 <= n < m < |all| :: all[n].index != all[m].index
  {
    SameElements(all, candidates);
    forall n, m | 0 <= n < m < |all| ensures all[n].index != all[m].index {
      if all[n].index == all[m].index {
        var c := all[n];
        assert c in all && all[m] in all;
        var i :| 0 <= i < |candidates| && candidates[i] == c;
        var j :| 0 <= j < |candidates| && candidates[j] == all[m];
        assert all[m] == c;
        TwiceIn(all, n, m);
        OnceIn(candidates, i);
      }
    }
  }

  lemma TwiceIn<T>(q: seq<T>, n: nat, m: nat)
    requires n < m < |q| && q[n] == q[m]
    ensures multiset(q)[q[n]] >= 2
  {
    assert q == q[..m] + q[m..];
    assert q[n] in q[..m] && q[m] in q[m..];
  }

  lemma {:induction false} OnceIn(candidates: seq<Candidate>, i: nat)
    requires i < |candidates| && forall i, j | 0 <= i < j < |candidates| :: candidates[i].index < candidates[j].index
    ensures multiset(candidates)[candidates[i]] == 1
  {
    var c := candidates[i];
    assert candidates == candidates[..i] + [c] + candidates[i + 1..];
    assert c !in candidates[..i] && c !in candidates[i + 1..];
  }

  lemma AllArchivedIfLarge(turns: seq<Turn>, out: seq<Turn>, store: Store, candidates: seq<Candidate>,
                           batches: seq<seq<Candidate>>, threshold: nat, size: Text -> nat)
    requires OutState(turns, out, store, Indexes(Flatten(batches)))
    requires CandidatesOf(turns, |turns|, candidates, threshold, size)
    requires multiset(Flatten(batches)) == multiset(candidates)
    ensures |out| == |turns|
    ensures forall i | 0 <= i < |turns| :: ArchivedIfLarge(turns, out, i, store, batches, threshold, size)
  {
    hide Flatten, Archived, Resolve, StatesItsEncoding, IsPointerObject;
    var all := Flatten(batches);
    SameElements(all, candidates);
    NoIndexTwice(candidates, all);
    forall i | 0 <= i < |turns| ensures ArchivedIfLarge(turns, out, i, store, batches, threshold, size) {
      if Wanted(turns[i], threshold, size) {
        var c :| c in candidates && c.index == i;
        var n: nat :| n < |all| && all[n] == c;
        assert forall m | 0 <= m < |all| && all[m].index == i :: m == n;
        assert i in Indexes(all);
      } else {
        assert forall c | c in all :: c in candidates;
      }
    }
  }

  // ---- Reading many turns with one cache

  /** The pointer a reader follows for the turn, if it holds one of its own. */
  function PointerOf(turn: Turn): Option<Pointer> {
    if !Falsy(turn.payload) && IsCurrentPointer(Parse(turn.payload.value), turn)
    then Some(Parse(turn.payload.value).pointer) else None
  }

  /** What a read of a blob comes to: no such blob, a blob that cannot be decoded, or its text. */
  datatype Fetch = Gone | Undecodable | Fetched(text: Text)

  function FetchOf(store: Store, key: BlobKey, gz: bool): Fetch {
    if key !in store then Gone
    else
      var text := Decode(store[key], gz);
      if text.None? then Undecodable else Fetched(text.value)
  }

  function Settle(f: Fetch, p: Pointer): Outcome {
    match f
    case Gone => Missing
    case Undecodable => Unavailable
    case Fetched(text) => ResolveText(text, p)
  }

  /** The first pointer to the key among the turns. */
  function FirstPointer(turns: seq<Turn>, key: BlobKey): Option<Pointer> {
    if turns == [] then None
    else
      var before, p := FirstPointer(turns[..|turns| - 1], key), PointerOf(turns[|turns| - 1]);
      if before.Some? then before else if p.Some? && p.value.key == key then p else None
  }

  /** The first pointer of a front is the first of the whole. */
  lemma {:induction false} FirstStays(turns: seq<Turn>, n: nat, key: BlobKey)
    requires n <= |turns| && FirstPointer(turns[..n], key).Some?
    ensures FirstPointer(turns, key) == FirstPointer(turns[..n], key)
  {
    hide PointerOf;
    var last := |turns| - 1;
    if n == |turns| {
      assert turns[..n] == turns;
    } else {
      assert turns[..last][..n] == turns[..n];
      FirstStays(turns[..last], n, key);
    }
  }

  lemma FirstPointerFound(turns: seq<Turn>, i: nat)
    requires i < |turns| && PointerOf(turns[i]).Some?
    ensures FirstPointer(turns, PointerOf(turns[i]).value.key).Some?
  {
    hide PointerOf;
    assert turns[..i + 1][i] == turns[i];
    FirstStays(turns, i + 1, PointerOf(turns[i]).value.key);
  }

  /** Turn j points to the key and no turn before it does. */
  ghost predicate PointsFirst(turns: seq<Turn>, j: nat, key: BlobKey)
    requires j < |turns|
  {
    && PointerOf(turns[j]).Some? && PointerOf(turns[j]).value.key == key
    && forall h | 0 <= h < j :: PointerOf(turns[h]).Some? ==> PointerOf(turns[h]).value.key != key
  }

  lemma {:induction false} FirstPointerIs(turns: seq<Turn>, key: BlobKey) returns (j: nat)
    requires FirstPointer(turns, key).Some?
    ensures j < |turns| && PointsFirst(turns, j, key) && PointerOf(turns[j]) == FirstPointer(turns, key)
  {
    hide PointerOf;
    var last := |turns| - 1;
    var front := turns[..last];
    if FirstPointer(front, key).Some? {
      j := FirstPointerIs(front, key);
    } else {
      j := last;
      forall h | 0 <= h < last && PointerOf(turns[h]).Some? ensures PointerOf(turns[h]).value.key != key {
        assert front[h] == turns[h];
        FirstPointerFound(front, h);
      }
    }
  }

  /** What turn i of a response gets: the first pointer to its key decides how the blob is read, for all turns. */
  ghost function SharedResult(turns: seq<Turn>, i: nat, store: Store): Outcome
    requires i < |turns|
  {
    var p := PointerOf(turns[i]);
    if p.None? then Resolve(turns[i], store)
    else
      var f := FirstPointer(turns, p.value.key);
      if f.None? then Missing else Settle(FetchOf(store, p.value.key, f.value.gz), p.value)
  }

  /** The cache of pending reads holds for each key the read that its first pointer started. */
  ghost predicate Started(cache: map<BlobKey, Fetch>, turns: seq<Turn>, store: Store) {
    forall k :: Get(cache, k) ==
                var f := FirstPointer(turns, k);
                if f.None? then None else Some(FetchOf(store, k, f.value.gz))
  }

  /** One read: up to its first wait it finds or starts the read of the blob; what it then waits for is that read. A
      failed read is taken out of the cache when it fails, which is after all reads of the response have started. */
  method ResolveTurnPayload(turn: Turn, store: Store, blobCache: map<BlobKey, Fetch>)
    returns (payload: Outcome, cache: map<BlobKey, Fetch>)
    ensures var p := PointerOf(turn);
            if p.None? then cache == blobCache && payload == Resolve(turn, store)
            else
              && cache == (if p.value.key in blobCache then blobCache
                           else blobCache[p.value.key := FetchOf(store, p.value.key, p.value.gz)])
              && payload == Settle(cache[p.value.key], p.value)
  {
    hide ResolveText, FetchOf, Settle;
    cache := blobCache;
    if Falsy(turn.payload) {
      return Undefined, cache;
    }
    var parsed := Parse(turn.payload.value);
    if !IsPointerObject(parsed) {
      return Payload(parsed), cache;
    }
    if !IsCurrentPointer(parsed, turn) {
      return Invalid, cache;
    }
    var p := parsed.pointer;
    if p.key !in cache {
      cache := cache[p.key := FetchOf(store, p.key, p.gz)];
    }
    payload := Settle(cache[p.key], p);
  }

  /** The turns of a response are read together and share one cache: each blob is read once. */
  method PublicTurns(turns: seq<Turn>, store: Store) returns (payloads: seq<Outcome>)
    ensures |payloads| == |turns| && forall i | 0 <= i < |turns| :: payloads[i] == SharedResult(turns, i, store)
  {
    hide ResolveText, FetchOf, Settle, SharedResult, Started, PointerOf, Resolve;
    payloads := [];
    var blobCache: map<BlobKey, Fetch> := map[];
    NothingStarted(store);
    for i := 0 to |turns|
      invariant Started(blobCache, turns[..i], store)
      invariant |payloads| == i && forall j | 0 <= j < i :: payloads[j] == SharedResult(turns, j, store)
    {
      var payload;
      ghost var before := blobCache;
      payload, blobCache := ResolveTurnPayload(turns[i], store, blobCache);
      StartedStep(turns, i, store, before, blobCache, payload);
      payloads := payloads + [payload];
    }
  }

  lemma NothingStarted(store: Store)
    ensures forall turns: seq<Turn> :: Started(map[], turns[..0], store)
  {
  }

  lemma StartedStep(turns: seq<Turn>, i: nat, store: Store, cache: map<BlobKey, Fetch>, cache': map<BlobKey, Fetch>,
                    payload: Outcome)
    requires i < |turns| && Started(cache, turns[..i], store)
    requires var p := PointerOf(turns[i]);
             if p.None? then cache' == cache && payload == Resolve(turns[i], store)
             else
               && cache' == (if p.value.key in cache then cache
                             else cache[p.value.key := FetchOf(store, p.value.key, p.value.gz)])
               && payload == Settle(cache'[p.value.key], p.value)
    ensures Started(cache', turns[..i + 1], store)
    ensures payload == SharedResult(turns, i, store)
  {
    hide PointerOf, FetchOf, Settle, Resolve;
    var part, p := turns[..i + 1], PointerOf(turns[i]);
    assert part[..i] == turns[..i] && part[i] == turns[i];
    forall k ensures Get(cache', k) ==
                     var f := FirstPointer(part, k);
                     if f.None? then None else Some(FetchOf(store, k, f.value.gz))
    {
      assert Get(cache, k) ==
             var f := FirstPointer(turns[..i], k);
             if f.None? then None else Some(FetchOf(store, k, f.value.gz));
    }
    if p.Some? {
      FirstStays(turns, i + 1, p.value.key);
      assert Get(cache', p.value.key).Some?;
    }
  }

  /** No text is the reading of its own compressed bytes. */
  lemma GzipBytesDiffer(t: Text)
    ensures Parse(GzipBytes(t)) != Parse(t)
  {
    assert GzipBytes(t).of < GzipBytes(t);
    if t.Json? && t.value.TextObject? {
      assert t.value.text < t.value;
      assert t.value < t;
    }
  }

  /** Reading compressed bytes as text gives another outcome than the text, unless both are invalid. */
  lemma MisreadDiffers(t: Text, p: Pointer)
    ensures ResolveText(GzipBytes(t), p) == ResolveText(t, p) <==>
            ResolveText(t, p) == Invalid && ResolveText(GzipBytes(t), p) == Invalid
  {
    GzipBytesDiffer(t);
    if p.kind == BlobBatch {
      assert ResolveBatchItem(GzipBytes(t), p) == Invalid;
    } else if p.hash.Some? {
      assert Sha256(t) != Sha256(GzipBytes(t)) by {
        CompressedIsLonger(t);
      }
    }
  }

  lemma CompressedIsLonger(t: Text)
    ensures GzipBytes(t) != t
  {
    assert GzipBytes(t).of < GzipBytes(t);
  }

  /** The exact condition for the shared cache to change nothing for turn i: it follows no pointer, its blob is gone,
      the first pointer to the key states the same encoding, or the blob is compressed and both ways of reading it are
      invalid. */
  lemma SharedResultIsOwnIff(turns: seq<Turn>, i: nat, store: Store)
    requires i < |turns|
    ensures SharedResult(turns, i, store) == Resolve(turns[i], store) <==>
            var p := PointerOf(turns[i]);
            || p.None? || p.value.key !in store
            || (FirstPointer(turns, p.value.key).Some? && FirstPointer(turns, p.value.key).value.gz == p.value.gz)
            || (store[p.value.key].Gzip?
                && ResolveText(store[p.value.key].text, p.value) == Invalid
                && ResolveText(GzipBytes(store[p.value.key].text), p.value) == Invalid)
  {
    hide ResolveText;
    var p := PointerOf(turns[i]);
    if p.Some? {
      FirstPointerFound(turns, i);
      NotUnavailable(p.value);
      if p.value.key in store && store[p.value.key].Gzip? {
        MisreadDiffers(store[p.value.key].text, p.value);
      }
    }
  }

  lemma NotUnavailable(p: Pointer)
    ensures forall t :: ResolveText(t, p) != Unavailable
  {
  }

  /** All pointers to one key state one encoding. */
  ghost predicate OneEncodingPerKey(turns: seq<Turn>) {
    forall i, j | 0 <= i < |turns| && 0 <= j < |turns| && PointerOf(turns[i]).Some? && PointerOf(turns[j]).Some?
                  && PointerOf(turns[i]).value.key == PointerOf(turns[j]).value.key ::
      PointerOf(turns[i]).value.gz == PointerOf(turns[j]).value.gz
  }

  lemma CacheChangesNothing(turns: seq<Turn>, store: Store, i: nat)
    requires i < |turns| && OneEncodingPerKey(turns)
    ensures SharedResult(turns, i, store) == Resolve(turns[i], store)
  {
    hide ResolveText, SharedResult, Resolve, PointerOf;
    SharedResultIsOwnIff(turns, i, store);
    if PointerOf(turns[i]).Some? {
      FirstPointerFound(turns, i);
      var j := FirstPointerIs(turns, PointerOf(turns[i]).value.key);
    }
  }

  /** What has been archived states the encodings of its keys' names. */
  lemma ArchivedPointersAgree(turns: seq<Turn>)
    requires forall i | 0 <= i < |turns| :: StatesItsEncoding(turns[i])
    ensures OneEncodingPerKey(turns)
  {
  }

  /** An archived upload reads back through the shared cache, also after whatever else was archived since. */
  lemma ArchivedUploadReadsBack(turns: seq<Turn>, out: seq<Turn>, store: Store, later: Store)
    requires |out| == |turns| && (forall i | 0 <= i < |turns| :: Resolve(out[i], store) == Uploaded(turns[i]))
    requires (forall i | 0 <= i < |out| :: StatesItsEncoding(out[i])) && Grows(store, later)
    ensures forall i | 0 <= i < |turns| :: SharedResult(out, i, later) == Uploaded(turns[i])
  {
    hide Resolve, SharedResult, StatesItsEncoding, Grows, OneEncodingPerKey;
    ArchivedPointersAgree(out);
    forall i | 0 <= i < |turns| ensures SharedResult(out, i, later) == Uploaded(turns[i]) {
      StillResolves(out[i], store, later);
      CacheChangesNothing(out, later, i);
    }
  }

  /** Upload and response together: every reader gets what was uploaded. */
  method ArchiveAndRead(turns: seq<Turn>, store: Store, threshold: nat, maxBytes: nat, maxAge: nat, size: Text -> nat,
                        gz: bool)
    returns (payloads: seq<Outcome>, store': Store)
    requires WellKept(store) && Deduped(turns)
    ensures WellKept(store') && Grows(store, store')
    ensures |payloads| == |turns| && forall i | 0 <= i < |turns| :: payloads[i] == Uploaded(turns[i])
  {
    hide Resolve, SharedResult, StatesItsEncoding, Grows, WellKept, Deduped, Uploaded;
    var out, batches;
    out, store', batches := ExternalizeTurnPayloadBatch(turns, store, threshold, maxBytes, maxAge, size, gz);
    payloads := PublicTurns(out, store');
    NothingLost(store');
    ArchivedUploadReadsBack(turns, out, store', store');
  }

  lemma NothingLost(store: Store)
    ensures Grows(store, store)
  {
  }

  /** A turn whose payload points to item n of the blob. */
  function Pointing(key: BlobKey, n: int, gz: bool): Turn {
    Turn("u", "d", "s", n, None, Some(Stringify(PointerObject(
      Pointer(BlobBatch, POINTER_VERSION, key, None, Some(n), None, 0, gz)))))
  }

  /** Two pointers to one raw blob, one of which states gzip. In one order the text is read for both, in the other
      for none. */
  lemma CacheCanMislead()
    ensures var key := BatchKey("u", "d", "s", OtherName("b", true));
            var store: Store := map[key := Raw(NotJson("not a batch"))];
            var plain, zipped := Pointing(key, 1, false), Pointing(key, 2, true);
            && Resolve(plain, store) == Invalid && Resolve(zipped, store) == Unavailable
            && SharedResult([plain, zipped], 1, store) == Invalid
            && SharedResult([zipped, plain], 1, store) == Unavailable
  {
    var key := BatchKey("u", "d", "s", OtherName("b", true));
    var plain, zipped := Pointing(key, 1, false), Pointing(key, 2, true);
    assert PointerOf(plain).Some? && PointerOf(zipped).Some?;
    assert [plain, zipped][..1] == [plain] && [zipped, plain][..1] == [zipped];
    assert [plain][..0] == [] && [zipped][..0] == [];
    assert FirstPointer([plain], key) == PointerOf(plain) && FirstPointer([zipped], key) == PointerOf(zipped);
    assert FirstPointer([plain, zipped], key) == PointerOf(plain);
    assert FirstPointer([zipped, plain], key) == PointerOf(zipped);
  }
}
