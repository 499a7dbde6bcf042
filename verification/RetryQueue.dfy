/** The wrapper's event bridge: send with retries, queue what failed, drain the queue before the
    next event.

    Events are named by the order they are emitted in. `settled`, `pending` and `evicted` say where
    each of them is. */
module RetryQueue {
  import opened SeqSets

  const PENDING_EMIT_MAX: nat := 200
  const ATTEMPTS: nat := 4

  datatype Attempt = TransportError | Status(code: int)

  /** One slot of the retry loop: the answer to the attempt and, for a daemon that has forgotten the session, whether
      registering again works and what the attempt after it is answered. */
  datatype Slot = Slot(first: Attempt, registered: bool, retry: Attempt)

  datatype Verdict = Sent | Refused | Failed

  predicate Accepted(a: Attempt) { a.Status? && 200 <= a.code < 300 }

  predicate Conclusive(slot: Slot) {
    slot.first.Status? &&
    if slot.first.code == 404 then slot.registered && Accepted(slot.retry) else slot.first.code < 500
  }

  /** What a series of slots comes to, from the i-th on. */
  function VerdictFrom(slots: nat -> Slot, i: nat): Verdict
    decreases ATTEMPTS - i
  {
    if i >= ATTEMPTS then Failed
    else if Conclusive(slots(i)) then
      if slots(i).first.code == 404 || Accepted(slots(i).first) then Sent else Refused
    else VerdictFrom(slots, i + 1)
  }

  lemma {:induction false} FailedIffNoneConclusive(slots: nat -> Slot, i: nat)
    ensures VerdictFrom(slots, i) != Failed <==> exists j: nat :: i <= j < ATTEMPTS && Conclusive(slots(j))
    decreases ATTEMPTS - i
  {
    if i < ATTEMPTS && !Conclusive(slots(i)) {
      FailedIffNoneConclusive(slots, i + 1);
    }
  }

  /** A send settles exactly when one of its four slots is answered by a status that is neither 404 nor 5xx, or by 404
      with the attempt after re-registration accepted. */
  lemma SettlesIff(slots: nat -> Slot)
    ensures VerdictFrom(slots, 0) != Failed <==>
            exists j: nat :: j < 4 && slots(j).first.Status? &&
              if slots(j).first.code == 404
              then slots(j).registered && slots(j).retry.Status? && 200 <= slots(j).retry.code <= 299
              else slots(j).first.code <= 499
  {
    FailedIffNoneConclusive(slots, 0);
    assert forall j: nat :: Conclusive(slots(j)) ==> slots(j).first.Status?;
  }

  /** The first conclusive slot decides: 2xx, or 404 with that attempt accepted, is sent; any other status is refused,
      and the event is given up. */
  lemma {:induction false} FirstConclusiveDecides(slots: nat -> Slot, i: nat, j: nat)
    requires i <= j < 4 && Conclusive(slots(j)) && forall k | i <= k < j :: !Conclusive(slots(k))
    ensures slots(j).first.Status?
    ensures VerdictFrom(slots, i) ==
            if slots(j).first.code == 404 || 200 <= slots(j).first.code <= 299 then Sent else Refused
    decreases j - i
  {
    if i < j {
      FirstConclusiveDecides(slots, i + 1, j);
    }
  }

  method EmitWithRetry(slots: nat -> Slot) returns (ok: bool)
    ensures ok == (VerdictFrom(slots, 0) != Failed)
  {
    for i := 0 to ATTEMPTS
      invariant VerdictFrom(slots, i) == VerdictFrom(slots, 0)
    {
      var slot := slots(i);
      match slot.first
      case TransportError =>
        if i == ATTEMPTS - 1 {
          return false;
        }
        continue;
      case Status(status) =>
        if status == 404 {
          if !slot.registered {
            if i == ATTEMPTS - 1 {
              return false;
            }
            continue;
          }
          if slot.retry.Status? && 200 <= slot.retry.code < 300 {
            return true;
          }
          if i == ATTEMPTS - 1 {
            return false;
          }
          continue;
        }
        if status >= 500 {
          if i == ATTEMPTS - 1 {
            return false;
          }
          continue;
        }
        if 200 <= status < 300 {
          return true;
        }
        return true;
    }
    return false;
  }

  // ---- The queue as a value

  datatype State = State(pending: seq<int>, settled: seq<int>, evicted: seq<int>, next: nat)

  /** How many of the first n queued events settle before the first failure. */
  function Leading(ok: nat -> bool, i: nat, n: nat): (k: nat)
    requires i <= n
    ensures i <= k <= n && (forall j | i <= j < k :: ok(j)) && (k < n ==> !ok(k))
    decreases n - i
  {
    if i < n && ok(i) then Leading(ok, i + 1, n) else i
  }

  function Drain(st: State, ok: nat -> bool): State {
    var k := Leading(ok, 0, |st.pending|);
    st.(pending := st.pending[k..], settled := st.settled + st.pending[..k])
  }

  function Queue(st: State, e: int): State {
    if |st.pending| >= PENDING_EMIT_MAX
    then st.(pending := st.pending[1..] + [e], evicted := st.evicted + [st.pending[0]])
    else st.(pending := st.pending + [e])
  }

  /** Emit: drain, send the new event whatever the drain came to, queue it if that failed. */
  function Emit(st: State, ok: nat -> bool, own: bool): State {
    var d := Drain(st, ok);
    var sent := if own then d.(settled := d.settled + [st.next]) else Queue(d, st.next);
    sent.(next := st.next + 1)
  }

  /** Only an event that fails behind a full queue that does not move evicts one, the oldest. */
  lemma EvictsIffFull(st: State, ok: nat -> bool, own: bool)
    requires |st.pending| <= 200
    ensures Drain(st, ok).evicted == st.evicted
    ensures Emit(st, ok, own).evicted ==
            st.evicted + if !own && |st.pending| == 200 && !ok(0) then [st.pending[0]] else []
  {
    assert st.evicted + [] == st.evicted;
  }

  /** The queue settles up to its first event that fails. */
  lemma DrainsToFirstFailure(st: State, ok: nat -> bool, k: nat)
    requires k <= |st.pending| && (forall j | 0 <= j < k :: ok(j)) && (k < |st.pending| ==> !ok(k))
    ensures Drain(st, ok).pending == st.pending[k..] && Drain(st, ok).settled == st.settled + st.pending[..k]
  {
    var n := Leading(ok, 0, |st.pending|);
    assert n == k;
  }

  /** Every emitted event is in exactly one place; the queue is in emission order, within its bound, and newer
      than everything evicted. */
  ghost predicate Inv(st: State) {
    && Ascending(st.pending) && |st.pending| <= PENDING_EMIT_MAX && Distinct(st.settled) && Ascending(st.evicted)
    && (forall e :: 0 <= e < st.next <==> e in st.settled || e in st.pending || e in st.evicted)
    && (forall e | e in st.pending :: e !in st.settled)
    && (forall e | e in st.evicted :: e !in st.settled)
    && (forall e, p | e in st.evicted && p in st.pending :: e < p)
  }

  lemma SlicesAscend(q: seq<int>, k: nat)
    requires Ascending(q) && k <= |q|
    ensures Ascending(q[..k]) && Ascending(q[k..]) && Distinct(q[..k])
    ensures forall x :: x in q <==> x in q[..k] || x in q[k..]
    ensures forall x, y | x in q[..k] && y in q[k..] :: x < y
  {
    assert q == q[..k] + q[k..];
  }

  lemma DrainKeepsInv(st: State, ok: nat -> bool)
    requires Inv(st)
    ensures Inv(Drain(st, ok))
  {
    var k := Leading(ok, 0, |st.pending|);
    SlicesAscend(st.pending, k);
    JoinDistinct(st.settled, st.pending[..k]);
  }

  lemma JoinDistinct(a: seq<int>, b: seq<int>)
    requires Distinct(a) && Distinct(b) && forall x | x in b :: x !in a
    ensures Distinct(a + b) && forall x :: x in a + b <==> x in a || x in b
  {
    forall i, j | 0 <= i < |a| && 0 <= j < |b| ensures a[i] != b[j] {
      assert b[j] in b && a[i] in a;
    }
  }

  lemma PushNewest(q: seq<int>, e: int)
    requires Ascending(q) && forall x | x in q :: x < e
    ensures Ascending(q + [e]) && forall x :: x in q + [e] <==> x == e || x in q
  {
    assert forall i | 0 <= i < |q| :: q[i] in q;
  }

  lemma QueueKeepsInv(st: State)
    requires Inv(st)
    ensures Inv(Queue(st, st.next).(next := st.next + 1))
  {
    var e := st.next;
    if |st.pending| >= PENDING_EMIT_MAX {
      SlicesAscend(st.pending, 1);
      var oldest := st.pending[0];
      assert st.pending[..1] == [oldest] && oldest in st.pending[..1];
      PushNewest(st.pending[1..], e);
      PushNewest(st.evicted, oldest);
    } else {
      PushNewest(st.pending, e);
    }
  }

  lemma SettleKeepsInv(st: State)
    requires Inv(st)
    ensures Inv(st.(settled := st.settled + [st.next], next := st.next + 1))
  {
    JoinDistinct(st.settled, [st.next]);
  }

  lemma EmitKeepsInv(st: State, ok: nat -> bool, own: bool)
    requires Inv(st)
    ensures Inv(Emit(st, ok, own))
  {
    hide Inv;
    DrainKeepsInv(st, ok);
    if own {
      SettleKeepsInv(Drain(st, ok));
    } else {
      QueueKeepsInv(Drain(st, ok));
    }
  }

  /** An emit with its network answers, or a keepalive tick, which only drains. */
  datatype Event = EmitEvent(ok: nat -> bool, own: bool) | Tick(ok: nat -> bool)

  function Step(st: State, e: Event): State { if e.EmitEvent? then Emit(st, e.ok, e.own) else Drain(st, e.ok) }

  function Run(st: State, events: seq<Event>): State
    decreases |events|
  {
    if events == [] then st else Run(Step(st, events[0]), events[1..])
  }

  lemma StepKeepsInv(st: State, e: Event)
    requires Inv(st)
    ensures Inv(Step(st, e))
  {
    hide Inv, Emit, Drain;
    if e.EmitEvent? {
      EmitKeepsInv(st, e.ok, e.own);
    } else {
      DrainKeepsInv(st, e.ok);
    }
  }

  /** Over every sequential run, whatever the network answers, no event is lost track of. */
  lemma {:induction false} NothingIsLost(st: State, events: seq<Event>)
    requires Inv(st)
    ensures Inv(Run(st, events))
    decreases |events|
  {
    hide Inv, Step;
    if events == [] {
    } else {
      StepKeepsInv(st, events[0]);
      NothingIsLost(Step(st, events[0]), events[1..]);
    }
  }

  // ---- Delivery order

  /** Everything settled so far was settled in emission order and before anything still queued. */
  ghost predicate InOrder(st: State) { Ascending(st.settled + st.pending) }

  /** The new event gets through although one of the queued ones does not. */
  predicate Overtakes(st: State, e: Event) { e.EmitEvent? && e.own && exists j :: 0 <= j < |st.pending| && !e.ok(j) }

  /** The order promised for outages holds exactly as long as a new event is not sent past a queue that
      does not drain. */
  lemma OrderKeptIff(st: State, e: Event)
    requires Inv(st) && InOrder(st)
    ensures InOrder(Step(st, e)) <==> !Overtakes(st, e)
  {
    var d := Drain(st, e.ok);
    DrainKeepsInv(st, e.ok);
    assert d.settled + d.pending == st.settled + st.pending;
    assert d.pending == [] <==> forall j | 0 <= j < |st.pending| :: e.ok(j);
    hide Drain, Queue;
    if e.EmitEvent? && e.own {
      SendInOrder(d);
    } else if e.EmitEvent? {
      QueueInOrder(d, st.next);
    }
  }

  ghost predicate AlwaysInOrder(st: State, events: seq<Event>)
    decreases |events|
  {
    InOrder(st) && (events != [] ==> AlwaysInOrder(Step(st, events[0]), events[1..]))
  }

  predicate NeverOvertakes(st: State, events: seq<Event>)
    decreases |events|
  {
    events != [] ==> !Overtakes(st, events[0]) && NeverOvertakes(Step(st, events[0]), events[1..])
  }

  /** Over whole runs: everything stays in order throughout exactly when no event ever overtakes the queue. */
  lemma {:induction false} AlwaysInOrderIff(st: State, events: seq<Event>)
    requires Inv(st) && InOrder(st)
    ensures AlwaysInOrder(st, events) <==> NeverOvertakes(st, events)
    decreases |events|
  {
    hide Inv, InOrder, Step, Overtakes;
    if events == [] {
    } else {
      OrderKeptIff(st, events[0]);
      StepKeepsInv(st, events[0]);
      if !Overtakes(st, events[0]) {
        AlwaysInOrderIff(Step(st, events[0]), events[1..]);
      }
    }
  }

  /** It happens: the first event fails, the network comes back between the retry of the first and the second. */
  lemma SecondEventOvertakes()
    ensures var start := State([], [], [], 0);
            var down := (j: nat) => false;
            var end := Run(start, [EmitEvent(down, false), EmitEvent(down, true)]);
            Inv(start) && end.settled == [1] && end.pending == [0] && !InOrder(end)
  {
    var start, down := State([], [], [], 0), (j: nat) => false;
    var e, f := EmitEvent(down, false), EmitEvent(down, true);
    var once := Step(start, e);
    assert once == State([0], [], [], 1);
    var twice := Step(once, f);
    assert twice == State([0], [1], [], 2);
    assert [e, f][1..] == [f] && [f][1..] == [];
    assert Run(twice, []) == twice && Run(once, [f]) == twice && Run(start, [e, f]) == twice;
    assert ([1] + [0])[0] == 1 && ([1] + [0])[1] == 0;
  }

  lemma SendInOrder(d: State)
    requires Inv(d) && InOrder(d)
    ensures InOrder(d.(settled := d.settled + [d.next], next := d.next + 1)) <==> d.pending == []
  {
    var s := (d.settled + [d.next]) + d.pending;
    if d.pending != [] {
      assert s[|d.settled|] == d.next && s[|d.settled| + 1] == d.pending[0];
      assert d.pending[0] in d.pending;
    } else {
      assert s == d.settled + [d.next] && d.settled + d.pending == d.settled;
      PushNewest(d.settled, d.next);
    }
  }

  lemma QueueInOrder(d: State, e: int)
    requires Ascending(d.settled + d.pending)
    requires (forall x | x in d.settled :: x < e) && (forall x | x in d.pending :: x < e)
    ensures Ascending(Queue(d, e).settled + Queue(d, e).pending)
  {
    var all := d.settled + d.pending;
    var kept := if |d.pending| >= PENDING_EMIT_MAX then d.pending[1..] else d.pending;
    var front := d.settled + kept;
    var shift := |d.pending| - |kept|;
    assert forall i | 0 <= i < |front| :: front[i] == all[if i < |d.settled| then i else i + shift];
    assert Ascending(front);
    forall x | x in front ensures x < e {
      assert x in d.settled || x in kept;
      assert forall y | y in kept :: y in d.pending;
    }
    PushNewest(front, e);
    assert Queue(d, e).settled + Queue(d, e).pending == front + [e];
  }

  // ---- The bridge object

  /** Which queued events the network lets through. */
  function Settles(net: nat -> nat -> Slot): nat -> bool { (j: nat) => VerdictFrom(net(j), 0) != Failed }

  lemma QueuedSettlesIff(net: nat -> nat -> Slot, j: nat)
    ensures Settles(net)(j) <==> exists i: nat :: i < 4 && Conclusive(net(j)(i))
  {
    FailedIffNoneConclusive(net(j), 0);
  }

  class DaemonBridge {
    var pending: seq<int>
    ghost var settled: seq<int>
    ghost var evicted: seq<int>

    constructor ()
      ensures pending == [] && settled == [] && evicted == []
    {
      pending, settled, evicted := [], [], [];
    }

    ghost function Value(next: nat): State
      reads this
    {
      State(pending, settled, evicted, next)
    }

    method QueuePending(e: int)
      modifies this
      ensures forall n: nat {:trigger Value(n)} :: Value(n) == Queue(old(Value(n)), e)
    {
      if |pending| >= PENDING_EMIT_MAX {
        evicted := evicted + [pending[0]];
        pending := pending[1..];
      }
      pending := pending + [e];
    }

    /** Takes the queue, sends it event by event, and puts the failed one and all after it back in front. */
    method DrainPending(net: nat -> nat -> Slot)
      modifies this
      ensures forall n: nat {:trigger Value(n)} :: Value(n) == Drain(old(Value(n)), Settles(net))
    {
      hide VerdictFrom;
      if |pending| == 0 {
        assert settled + [] == settled;
        return;
      }
      var queue := pending;
      ghost var ok := Settles(net);
      pending := [];
      for i := 0 to |queue|
        invariant pending == [] && evicted == old(evicted)
        invariant settled == old(settled) + queue[..i]
        invariant Leading(ok, i, |queue|) == Leading(ok, 0, |queue|)
      {
        var sent := EmitWithRetry(net(i));
        if !sent {
          pending := queue[i..] + pending;
          assert Leading(ok, i, |queue|) == i;
          return;
        }
        settled := settled + [queue[i]];
        assert ok(i);
      }
      assert queue[..|queue|] == queue && queue[|queue|..] == [];
    }

    method EmitOne(e: int, net: nat -> nat -> Slot, own: nat -> Slot)
      requires e >= 0
      modifies this
      ensures Value(e + 1) == Emit(old(Value(e)), Settles(net), VerdictFrom(own, 0) != Failed)
    {
      DrainPending(net);
      assert Value(e) == Drain(old(Value(e)), Settles(net));
      var sent := EmitWithRetry(own);
      if !sent {
        label L:
        QueuePending(e);
        assert Value(e) == Queue(old@L(Value(e)), e);
      } else {
        settled := settled + [e];
      }
    }
  }
}
