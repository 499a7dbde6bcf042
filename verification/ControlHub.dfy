/** The hub between browsers and daemons: which daemon socket is current, which requests wait for
    a reply, and which event streams are open.

    `Hub` is the hub's state as a value and `Step` what one event does to it; the class performs
    the same steps on its fields. */
module ControlHub {
  import opened Maps

  type DeviceId = string
  type RequestId = string
  type Socket = int

  /** closeWhen says which event ends the stream. */
  datatype Entry = Entry(controller: nat, device: DeviceId, closeWhen: string -> bool)

  /** A browser's end of a stream: what was written to it, whether it was closed, whether its timer runs. */
  datatype Controller = Controller(requestID: RequestId, log: seq<string>, closed: bool, timer: bool)

  datatype Outcome = Reply(responseType: string, payload: string) | TimedOut | SendFailed

  /** A waiting request that was accepted, and how one was settled. */
  datatype Accepted = Accepted(requestID: RequestId, responseType: string)
  datatype Settled = Settled(requestID: RequestId, expected: string, outcome: Outcome)

  datatype Hub = Hub(daemons: map<DeviceId, Socket>, pending: map<RequestId, string>, streams: map<RequestId, Entry>,
                     controllers: seq<Controller>, accepted: seq<Accepted>, settled: seq<Settled>)

  const EMPTY: Hub := Hub(map[], map[], map[], [], [], [])

  const TIMEOUT_EVENT := "timeout"
  const FAILED_EVENT := "inject_failed"
  const SEND_ERROR_EVENT := "send_error"

  datatype Event =
    | Register(device: DeviceId, socket: Socket)
    | SocketClosed(device: DeviceId, socket: Socket)
    | Request(device: DeviceId, requestID: RequestId, responseType: string, sendOk: bool)
    | ReplyArrives(responseType: string, requestID: RequestId, payload: string)
    | RequestTimeout(requestID: RequestId)
    | StartStream(
        device: DeviceId, requestID: RequestId, initial: Option<string>, closeWhen: string -> bool, sendOk: bool)
    | Deliver(requestID: RequestId, body: string)
    | StreamTimeout(controller: nat)
    | Cancel(requestID: RequestId)

  // ---- Steps on values

  function Write(h: Hub, c: nat, body: string): Hub
    requires c < |h.controllers|
  {
    h.(controllers := h.controllers[c := h.controllers[c].(log := h.controllers[c].log + [body])])
  }

  /** Stop the timer, forget the stream and, unless the browser left, close its controller. */
  function CloseStream(h: Hub, id: RequestId, closeController: bool): Hub {
    if id !in h.streams then h
    else
      var c := h.streams[id].controller;
      h.(streams := h.streams - {id},
         controllers := if c < |h.controllers|
                        then
                          var was := h.controllers[c];
                          h.controllers[c := was.(timer := false, closed := was.closed || closeController)]
                        else h.controllers)
  }

  /** A write to a closed controller throws and ends the handler. */
  function WriteAndClose(h: Hub, c: nat, body: string, id: RequestId): Hub {
    if c >= |h.controllers| || h.controllers[c].closed then h else CloseStream(Write(h, c, body), id, true)
  }

  /** End every stream in ids that belongs to the device. */
  ghost function FailStreams(h: Hub, device: DeviceId): Hub {
    h.(streams := map id | id in h.streams && h.streams[id].device != device :: h.streams[id],
       controllers := seq(|h.controllers|, c requires 0 <= c < |h.controllers| =>
         if Failing(h, device, c) then Failed(h.controllers[c]) else h.controllers[c]))
  }

  function Failed(c: Controller): Controller {
    c.(log := c.log + [FAILED_EVENT], closed := true, timer := false)
  }

  ghost predicate Failing(h: Hub, device: DeviceId, c: nat)
    requires c < |h.controllers|
  {
    var id := h.controllers[c].requestID;
    id in h.streams && h.streams[id].controller == c && h.streams[id].device == device
  }

  function ClearPending(h: Hub, id: RequestId, outcome: Outcome): Hub {
    if id !in h.pending then h
    else h.(pending := h.pending - {id}, settled := h.settled + [Settled(id, h.pending[id], outcome)])
  }

  ghost function Step(h: Hub, e: Event): Hub {
    match e
    case Register(d, s) => h.(daemons := h.daemons[d := s])
    case SocketClosed(d, s) =>
      FailStreams(if d in h.daemons && h.daemons[d] == s then h.(daemons := h.daemons - {d}) else h, d)
    case Request(d, id, t, ok) =>
      if id == "" || id in h.pending || d !in h.daemons then h
      else
        var waiting := h.(pending := h.pending[id := t], accepted := h.accepted + [Accepted(id, t)]);
        if ok then waiting else ClearPending(waiting, id, SendFailed)
    case ReplyArrives(t, id, payload) =>
      if id in h.pending && h.pending[id] == t then ClearPending(h, id, Reply(t, payload)) else h
    case RequestTimeout(id) => ClearPending(h, id, TimedOut)
    case StartStream(d, id, initial, closeWhen, ok) =>
      if id == "" || d !in h.daemons then h
      else
        var c := |h.controllers|;
        var started := h.(streams := h.streams[id := Entry(c, d, closeWhen)],
                          controllers := h.controllers + [
                            Controller(id, if initial.Some? then [initial.value] else [], false, true)]);
        if ok then started else WriteAndClose(started, c, SEND_ERROR_EVENT, id)
    case Deliver(id, body) =>
      if id !in h.streams then h
      else
        var entry := h.streams[id];
        if entry.controller >= |h.controllers| || h.controllers[entry.controller].closed then h
        else
          var written := Write(h, entry.controller, body);
          if entry.closeWhen(body) then CloseStream(written, id, true) else written
    case StreamTimeout(c) =>
      if c < |h.controllers| && h.controllers[c].timer
      then WriteAndClose(h.(controllers := h.controllers[c := h.controllers[c].(timer := false)]), c, TIMEOUT_EVENT,
                          h.controllers[c].requestID)
      else h
    case Cancel(id) => CloseStream(h, id, false)
  }

  ghost function Run(h: Hub, events: seq<Event>): Hub
    decreases |events|
  {
    if events == [] then h else Run(Step(h, events[0]), events[1..])
  }

  // ---- The registry

  /** The i-th event registers socket s for the device, no later one registers another, and s has not closed since. */
  ghost predicate IsLastOpen(events: seq<Event>, i: nat, d: DeviceId, s: Socket) {
    && i < |events| && events[i] == Register(d, s)
    && forall j | i < j < |events| :: Leaves(events[j], d, s)
  }

  lemma {:induction false} RunSnoc(h: Hub, events: seq<Event>)
    requires events != []
    ensures Run(h, events) == Step(Run(h, events[..|events| - 1]), events[|events| - 1])
    decreases |events|
  {
    hide Step;
    if |events| > 1 {
      RunSnoc(Step(h, events[0]), events[1..]);
      assert events[1..][..|events| - 2] == events[..|events| - 1][1..];
    } else {
      assert events[1..] == [] && events[..0] == [];
    }
  }

  lemma StepOnDaemons(h: Hub, e: Event)
    ensures Step(h, e).daemons ==
            match e
            case Register(d, s) => h.daemons[d := s]
            case SocketClosed(d, s) => if d in h.daemons && h.daemons[d] == s then h.daemons - {d} else h.daemons
            case _ => h.daemons
  {
  }

  /** A device is online exactly when the last socket registered for it has not closed: the close of a replaced
      socket never evicts its replacement. */
  lemma {:induction false} OnlineIffLastSocketOpen(events: seq<Event>, d: DeviceId, s: Socket)
    ensures Get(Run(EMPTY, events).daemons, d) == Some(s) <==> exists i: nat :: IsLastOpen(events, i, d, s)
    decreases |events|
  {
    hide Step, Run, IsLastOpen;
    if events == [] {
      NobodyAtFirst(d, s);
    } else {
      var front, e := events[..|events| - 1], events[|events| - 1];
      OnlineIffLastSocketOpen(front, d, s);
      RunSnoc(EMPTY, events);
      OnlineStep(Run(EMPTY, front), e, d, s);
      forall i: nat ensures IsLastOpen(events, i, d, s) <==>
                            if i == |events| - 1 then e == Register(d, s)
                            else IsLastOpen(front, i, d, s) && Leaves(e, d, s)
      {
        LastOpenStep(events, i, d, s);
      }
      if e == Register(d, s) {
        assert IsLastOpen(events, |events| - 1, d, s);
      } else if i: nat :| IsLastOpen(front, i, d, s) {
        assert i != |events| - 1 by {
          LastOpenIsEvent(front, i, d, s);
        }
        assert IsLastOpen(events, i, d, s) <==> Leaves(e, d, s);
      }
    }
  }

  /** The event neither registers a socket for the device nor closes s. */
  predicate Leaves(e: Event, d: DeviceId, s: Socket) { !(e.Register? && e.device == d) && e != SocketClosed(d, s) }

  lemma OnlineStep(h: Hub, e: Event, d: DeviceId, s: Socket)
    ensures Get(Step(h, e).daemons, d) == Some(s) <==>
            e == Register(d, s) || (Get(h.daemons, d) == Some(s) && Leaves(e, d, s))
  {
    hide Step;
    StepOnDaemons(h, e);
  }

  lemma LastOpenIsEvent(events: seq<Event>, i: nat, d: DeviceId, s: Socket)
    requires IsLastOpen(events, i, d, s)
    ensures i < |events|
  {
  }

  lemma NobodyAtFirst(d: DeviceId, s: Socket)
    ensures Get(Run(EMPTY, []).daemons, d) == None && forall i: nat :: !IsLastOpen([], i, d, s)
  {
  }

  lemma LastOpenStep(events: seq<Event>, i: nat, d: DeviceId, s: Socket)
    requires events != []
    ensures var front, e := events[..|events| - 1], events[|events| - 1];
            IsLastOpen(events, i, d, s) <==>
            if i == |events| - 1 then e == Register(d, s)
            else IsLastOpen(front, i, d, s) && Leaves(e, d, s)
  {
    var front, e := events[..|events| - 1], events[|events| - 1];
    if i < |front| && IsLastOpen(front, i, d, s) && Leaves(e, d, s) {
      forall j | i < j < |events| ensures Leaves(events[j], d, s) {
        assert j < |front| ==> events[j] == front[j];
      }
    }
    if i < |front| && IsLastOpen(events, i, d, s) {
      assert forall j | i < j < |front| :: front[j] == events[j];
    }
  }

  // ---- Requests

  function AcceptedCount(q: seq<Accepted>, id: RequestId): nat {
    if q == [] then 0 else AcceptedCount(q[..|q| - 1], id) + if q[|q| - 1].requestID == id then 1 else 0
  }

  function SettledCount(q: seq<Settled>, id: RequestId): nat {
    if q == [] then 0 else SettledCount(q[..|q| - 1], id) + if q[|q| - 1].requestID == id then 1 else 0
  }

  /** The type the last accepted request of an id waits for. */
  function LastType(q: seq<Accepted>, id: RequestId): Option<string> {
    if q == [] then None
    else if q[|q| - 1].requestID == id then Some(q[|q| - 1].responseType)
    else LastType(q[..|q| - 1], id)
  }

  /** Each accepted request is settled once or still waiting, and only a reply of the awaited type settles one. */
  ghost predicate Balanced(h: Hub, id: RequestId) {
    && AcceptedCount(h.accepted, id) == SettledCount(h.settled, id) + (if id in h.pending then 1 else 0)
    && (id in h.pending ==> LastType(h.accepted, id) == Some(h.pending[id]))
    && forall s | s in h.settled && s.requestID == id && s.outcome.Reply? :: s.outcome.responseType == s.expected
  }

  lemma StepOnRequests(h: Hub, e: Event)
    ensures !e.Request? && !e.ReplyArrives? && !e.RequestTimeout? ==>
              Step(h, e).pending == h.pending && Step(h, e).accepted == h.accepted && Step(h, e).settled == h.settled
  {
  }

  lemma SettleKeepsBalance(h: Hub, settling: RequestId, outcome: Outcome, id: RequestId)
    requires Balanced(h, id)
    requires outcome.Reply? ==> settling in h.pending && outcome.responseType == h.pending[settling]
    ensures Balanced(ClearPending(h, settling, outcome), id)
  {
    var next := ClearPending(h, settling, outcome);
    if settling in h.pending {
      assert next.settled[..|h.settled|] == h.settled;
    }
  }

  lemma AcceptKeepsBalance(h: Hub, accepting: RequestId, t: string, id: RequestId)
    requires Balanced(h, id) && accepting !in h.pending
    ensures Balanced(h.(pending := h.pending[accepting := t], accepted := h.accepted + [Accepted(accepting, t)]), id)
  {
    assert (h.accepted + [Accepted(accepting, t)])[..|h.accepted|] == h.accepted;
  }

  lemma StepKeepsBalance(h: Hub, e: Event, id: RequestId)
    requires Balanced(h, id)
    ensures Balanced(Step(h, e), id)
  {
    hide Balanced, FailStreams, ClearPending;
    match e
    case Request(d, r, t, ok) =>
      if r != "" && r !in h.pending && d in h.daemons {
        AcceptKeepsBalance(h, r, t, id);
        if !ok {
          var sent := h.(pending := h.pending[r := t], accepted := h.accepted + [Accepted(r, t)]);
          SettleKeepsBalance(sent, r, SendFailed, id);
        }
      }
    case ReplyArrives(t, r, payload) =>
      if r in h.pending && h.pending[r] == t {
        SettleKeepsBalance(h, r, Reply(t, payload), id);
      }
    case RequestTimeout(r) => SettleKeepsBalance(h, r, TimedOut, id);
    case _ =>
      StepOnRequests(h, e);
      SameRequests(h, Step(h, e), id);
  }

  lemma SameRequests(h: Hub, h': Hub, id: RequestId)
    requires Balanced(h, id) && h'.pending == h.pending && h'.accepted == h.accepted && h'.settled == h.settled
    ensures Balanced(h', id)
  {
  }

  /** Over every run each request id settles once per accepted request at most. */
  lemma {:induction false} RequestsSettleOnce(events: seq<Event>, id: RequestId)
    ensures Balanced(Run(EMPTY, events), id)
    decreases |events|
  {
    hide Step, Balanced;
    if events != [] {
      RequestsSettleOnce(events[..|events| - 1], id);
      RunSnoc(EMPTY, events);
      StepKeepsBalance(Run(EMPTY, events[..|events| - 1]), events[|events| - 1], id);
    } else {
      EmptyIsBalanced(id);
    }
  }

  lemma EmptyIsBalanced(id: RequestId)
    ensures Balanced(EMPTY, id)
  {
  }

  // ---- Requests, read off the events

  /** The device has an open socket when event i comes. */
  ghost predicate OnlineAt(events: seq<Event>, i: nat, d: DeviceId)
    requires i <= |events|
  {
    exists k: nat, s :: IsLastOpen(events[..i], k, d, s)
  }

  /** The request of event k, sent under this id, meets neither its reply, of type t, nor its timeout before event n. */
  ghost predicate Unanswered(events: seq<Event>, k: nat, n: nat, id: RequestId, t: string)
    requires k < n <= |events|
  {
    && events[k].Request? && events[k].sendOk && events[k].requestID == id && events[k].responseType == t
    && forall j | k < j < n :: !Answers(events[j], id, t)
  }

  /** Event i is a request that the hub takes: it has an id, under which no request it took is unanswered, and its
      device is online. */
  ghost predicate Accepts(events: seq<Event>, i: nat)
    requires i < |events|
    decreases i
  {
    && events[i].Request? && events[i].requestID != "" && OnlineAt(events, i, events[i].device)
    && forall k: nat, t | k < i && Unanswered(events, k, i, events[i].requestID, t) :: !Accepts(events, k)
  }

  /** The hub took the request of event k, and it is unanswered. */
  ghost predicate Waits(events: seq<Event>, k: nat, n: nat, id: RequestId, t: string)
    requires k < n <= |events|
  {
    Accepts(events, k) && Unanswered(events, k, n, id, t)
  }

  /** The awaited reply, or the timeout. */
  predicate Answers(e: Event, id: RequestId, t: string) {
    (e.ReplyArrives? && e.responseType == t && e.requestID == id) || e == RequestTimeout(id)
  }

  function OutcomeOf(answer: Event): Outcome {
    if answer.ReplyArrives? then Reply(answer.responseType, answer.payload) else TimedOut
  }

  ghost function At(events: seq<Event>, n: nat): Hub
    requires n <= |events|
  {
    Run(EMPTY, events[..n])
  }

  lemma AtStep(events: seq<Event>, n: nat)
    requires n < |events|
    ensures At(events, n + 1) == Step(At(events, n), events[n])
  {
    hide Step, Run;
    RunSnoc(EMPTY, events[..n + 1]);
    assert events[..n + 1][..n] == events[..n];
  }

  lemma OnlineIffRegistered(events: seq<Event>, i: nat, d: DeviceId)
    requires i <= |events|
    ensures d in At(events, i).daemons <==> OnlineAt(events, i, d)
  {
    hide Run, IsLastOpen;
    if d in At(events, i).daemons {
      OnlineIffLastSocketOpen(events[..i], d, At(events, i).daemons[d]);
    }
    if k: nat, s :| IsLastOpen(events[..i], k, d, s) {
      OnlineIffLastSocketOpen(events[..i], d, s);
    }
  }

  predicate TakenBy(h: Hub, e: Event) {
    e.Request? && e.requestID != "" && e.requestID !in h.pending && e.device in h.daemons
  }

  lemma StepOnPending(h: Hub, e: Event, id: RequestId, t: string)
    ensures Get(Step(h, e).pending, id) == Some(t) <==>
            || (TakenBy(h, e) && e.sendOk && e.requestID == id && e.responseType == t)
            || (Get(h.pending, id) == Some(t) && !Answers(e, id, t))
  {
    hide FailStreams;
    if !e.Request? && !e.ReplyArrives? && !e.RequestTimeout? {
      StepOnRequests(h, e);
    }
  }

  /** A request waits exactly when it was accepted and sent, and neither its reply nor its timeout has come. */
  lemma {:induction false} PendingIffWaits(events: seq<Event>, n: nat, id: RequestId, t: string)
    requires n <= |events|
    ensures Get(At(events, n).pending, id) == Some(t) <==>
            exists k: nat :: k < n && Waits(events, k, n, id, t)
    decreases n, 0
  {
    hide Step, Run, Waits, Accepts;
    if n == 0 {
      NothingPending(events, id);
    } else {
      var m, e := n - 1, events[n - 1];
      AtStep(events, m);
      PendingIffWaits(events, m, id, t);
      AcceptsIffTaken(events, m);
      StepOnPending(At(events, m), e, id, t);
      forall k: nat | k < m ensures Waits(events, k, n, id, t) <==> Waits(events, k, m, id, t) && !Answers(e, id, t) {
        WaitsOn(events, k, m, id, t);
      }
      WaitsFirst(events, m, id, t);
      if k: nat :| k < m && Waits(events, k, m, id, t) && !Answers(e, id, t) {
        assert Waits(events, k, n, id, t);
      }
      if k: nat :| k < n && Waits(events, k, n, id, t) {
        assert k == m || Waits(events, k, m, id, t);
      }
    }
  }

  lemma NothingPending(events: seq<Event>, id: RequestId)
    ensures Get(At(events, 0).pending, id) == None
  {
  }

  lemma WaitsOn(events: seq<Event>, k: nat, m: nat, id: RequestId, t: string)
    requires k < m < |events|
    ensures Waits(events, k, m + 1, id, t) <==> Waits(events, k, m, id, t) && !Answers(events[m], id, t)
  {
    hide Accepts, Answers;
  }

  lemma WaitsFirst(events: seq<Event>, m: nat, id: RequestId, t: string)
    requires m < |events|
    ensures Waits(events, m, m + 1, id, t) <==>
            Accepts(events, m) && events[m].Request? && events[m].sendOk && events[m].requestID == id &&
            events[m].responseType == t
  {
    hide OnlineAt, Answers;
  }

  /** What the hub takes is what the events say it accepts. */
  lemma {:induction false} AcceptsIffTaken(events: seq<Event>, i: nat)
    requires i < |events|
    ensures Accepts(events, i) <==> TakenBy(At(events, i), events[i])
    decreases i, 1
  {
    hide Run, OnlineAt, Accepts, Waits;
    var e, h := events[i], At(events, i);
    AcceptsNext(events, i);
    if e.Request? {
      OnlineIffRegistered(events, i, e.device);
      if e.requestID in h.pending {
        PendingIffWaits(events, i, e.requestID, h.pending[e.requestID]);
      }
      if k: nat, t :| k < i && Waits(events, k, i, e.requestID, t) {
        PendingIffWaits(events, i, e.requestID, t);
      }
    }
  }

  lemma AcceptsNext(events: seq<Event>, i: nat)
    requires i < |events|
    ensures var e := events[i];
            Accepts(events, i) <==>
            && e.Request? && e.requestID != "" && OnlineAt(events, i, e.device)
            && forall k: nat, t | k < i :: !Waits(events, k, i, e.requestID, t)
  {
    hide OnlineAt, Unanswered;
    var e := events[i];
    if e.Request? {
      forall k: nat, t | k < i && Unanswered(events, k, i, e.requestID, t)
        ensures Waits(events, k, i, e.requestID, t) <==> Accepts(events, k)
      {
      }
    }
  }

  lemma StepOnLedger(h: Hub, e: Event)
    ensures Step(h, e).accepted == if TakenBy(h, e) then h.accepted + [Accepted(e.requestID, e.responseType)]
                                   else h.accepted
    ensures TakenBy(h, e) && !e.sendOk ==>
              && Step(h, e).settled == h.settled + [Settled(e.requestID, e.responseType, SendFailed)]
              && e.requestID !in Step(h, e).pending
    ensures forall id, t | Get(h.pending, id) == Some(t) && Answers(e, id, t) ::
              && Step(h, e).settled == h.settled + [Settled(id, t, OutcomeOf(e))]
              && id !in Step(h, e).pending
    ensures Step(h, e).settled == h.settled || (TakenBy(h, e) && !e.sendOk) ||
            exists id, t :: Get(h.pending, id) == Some(t) && Answers(e, id, t)
  {
    hide FailStreams;
    if !e.Request? && !e.ReplyArrives? && !e.RequestTimeout? {
      StepOnRequests(h, e);
    } else if e.requestID in h.pending && !e.Request? {
      assert Get(h.pending, e.requestID) == Some(h.pending[e.requestID]);
    }
  }

  /** What becomes of an accepted request, in every run. A failed send settles it at once; otherwise it waits until the
      first reply of its type, or its timeout, settles it. */
  lemma RequestOutcome(events: seq<Event>, k: nat)
    requires k < |events| && Accepts(events, k)
    ensures events[k].Request?
    ensures var id, t := events[k].requestID, events[k].responseType;
            && At(events, k + 1).accepted == At(events, k).accepted + [Accepted(id, t)]
            && (!events[k].sendOk ==>
                  && At(events, k + 1).settled == At(events, k).settled + [Settled(id, t, SendFailed)]
                  && id !in At(events, k + 1).pending)
            && (forall n | k < n <= |events| && Unanswered(events, k, n, id, t) ::
                  Get(At(events, n).pending, id) == Some(t))
            && (forall n | k < n < |events| && Unanswered(events, k, n, id, t) && Answers(events[n], id, t) ::
                  && At(events, n + 1).settled == At(events, n).settled +
                       [Settled(id, t, OutcomeOf(events[n]))]
                  && id !in At(events, n + 1).pending)
  {
    hide Step, At, Accepts, Unanswered, TakenBy, Answers;
    AcceptsIffTaken(events, k);
    TakenIsRequest(At(events, k), events[k]);
    var id, t := events[k].requestID, events[k].responseType;
    AtStep(events, k);
    StepOnLedger(At(events, k), events[k]);
    forall n | k < n <= |events| && Unanswered(events, k, n, id, t)
      ensures Get(At(events, n).pending, id) == Some(t)
      ensures n < |events| && Answers(events[n], id, t) ==>
                && At(events, n + 1).settled == At(events, n).settled +
                     [Settled(id, t, OutcomeOf(events[n]))]
                && id !in At(events, n + 1).pending
    {
      assert Waits(events, k, n, id, t);
      PendingIffWaits(events, n, id, t);
      if n < |events| {
        AtStep(events, n);
        StepOnLedger(At(events, n), events[n]);
      }
    }
  }

  lemma TakenIsRequest(h: Hub, e: Event)
    requires TakenBy(h, e)
    ensures e.Request?
  {
  }

  /** Nothing else is accepted or settled. */
  lemma NothingElseSettles(events: seq<Event>, n: nat)
    requires n < |events|
    ensures At(events, n + 1).accepted != At(events, n).accepted ==> Accepts(events, n)
    ensures At(events, n + 1).settled != At(events, n).settled ==>
              || (Accepts(events, n) && events[n].Request? && !events[n].sendOk)
              || exists k: nat, id, t :: k < n && Waits(events, k, n, id, t) && Answers(events[n], id, t)
  {
    hide Step, At, Accepts, Waits, TakenBy, Answers;
    AtStep(events, n);
    StepOnLedger(At(events, n), events[n]);
    AcceptsIffTaken(events, n);
    if Accepts(events, n) {
      TakenIsRequest(At(events, n), events[n]);
    }
    if id, t :| Get(At(events, n).pending, id) == Some(t) && Answers(events[n], id, t) {
      PendingIffWaits(events, n, id, t);
    }
  }

  // ---- Streams

  /** Every registered stream has its own open controller, whose timer runs, and no other timer runs. */
  ghost predicate Tidy(h: Hub) {
    && (forall id | id in h.streams ::
          h.streams[id].controller < |h.controllers| &&
          var c := h.controllers[h.streams[id].controller]; c.requestID == id && !c.closed && c.timer)
    && (forall c: nat | c < |h.controllers| && h.controllers[c].timer ::
          h.controllers[c].requestID in h.streams && h.streams[h.controllers[c].requestID].controller == c)
  }

  /** The start of a stream that the hub accepts although its id is in flight. */
  predicate Reuses(h: Hub, e: Event) {
    e.StartStream? && e.requestID != "" && e.device in h.daemons && e.requestID in h.streams
  }

  /** No stream is started under an id that is still in flight; a start the hub refuses does no harm. */
  ghost predicate FreshStarts(h: Hub, events: seq<Event>)
    decreases |events|
  {
    events != [] ==> !Reuses(h, events[0]) && FreshStarts(Step(h, events[0]), events[1..])
  }

  lemma CloseKeepsTidy(h: Hub, id: RequestId, closeController: bool)
    requires Tidy(h)
    ensures Tidy(CloseStream(h, id, closeController))
  {
  }

  lemma WriteKeepsTidy(h: Hub, c: nat, body: string)
    requires Tidy(h) && c < |h.controllers|
    ensures Tidy(Write(h, c, body))
  {
  }

  lemma FailKeepsTidy(h: Hub, d: DeviceId)
    requires Tidy(h)
    ensures Tidy(FailStreams(h, d))
  {
    var h' := FailStreams(h, d);
    forall c: nat | c < |h'.controllers| && h'.controllers[c].timer
      ensures h'.controllers[c].requestID in h'.streams && h'.streams[h'.controllers[c].requestID].controller == c {
      assert !Failing(h, d, c);
    }
    forall id | id in h'.streams ensures !Failing(h, d, h.streams[id].controller) {
    }
  }

  lemma StartKeepsTidy(h: Hub, id: RequestId, e: Entry, log: seq<string>)
    requires Tidy(h) && id !in h.streams && e.controller == |h.controllers|
    ensures Tidy(h.(streams := h.streams[id := e], controllers := h.controllers + [Controller(id, log, false, true)]))
  {
  }

  /** Under Tidy a timer that fires writes and closes in one go. */
  lemma TimeoutIsClose(h: Hub, c: nat)
    requires Tidy(h) && c < |h.controllers| && h.controllers[c].timer
    ensures Step(h, StreamTimeout(c)) == CloseStream(Write(h, c, TIMEOUT_EVENT), h.controllers[c].requestID, true)
  {
    var a := Step(h, StreamTimeout(c));
    var b := CloseStream(Write(h, c, TIMEOUT_EVENT), h.controllers[c].requestID, true);
    assert a.controllers == b.controllers;
  }

  lemma StepKeepsTidy(h: Hub, e: Event)
    requires Tidy(h) && !Reuses(h, e)
    ensures Tidy(Step(h, e))
  {
    hide Tidy, FailStreams, CloseStream, Write;
    match e
    case SocketClosed(d, s) =>
      SameStreams(h, h.(daemons := h.daemons - {d}));
      FailKeepsTidy(h, d);
      FailKeepsTidy(h.(daemons := h.daemons - {d}), d);
    case StartStream(d, id, initial, closeWhen, ok) =>
      if id != "" && d in h.daemons {
        var c := |h.controllers|;
        var log := if initial.Some? then [initial.value] else [];
        var started := h.(streams := h.streams[id := Entry(c, d, closeWhen)],
                          controllers := h.controllers + [Controller(id, log, false, true)]);
        StartKeepsTidy(h, id, Entry(c, d, closeWhen), log);
        WriteKeepsTidy(started, c, SEND_ERROR_EVENT);
        CloseKeepsTidy(Write(started, c, SEND_ERROR_EVENT), id, true);
      }
    case Deliver(id, body) =>
      if id in h.streams && h.streams[id].controller < |h.controllers| {
        WriteKeepsTidy(h, h.streams[id].controller, body);
        CloseKeepsTidy(Write(h, h.streams[id].controller, body), id, true);
      }
    case StreamTimeout(c) =>
      if c < |h.controllers| && h.controllers[c].timer {
        TimeoutIsClose(h, c);
        WriteKeepsTidy(h, c, TIMEOUT_EVENT);
        CloseKeepsTidy(Write(h, c, TIMEOUT_EVENT), h.controllers[c].requestID, true);
      }
    case Cancel(id) => CloseKeepsTidy(h, id, false);
    case _ => SameStreams(h, Step(h, e));
  }

  /** A start that reuses an id in flight, and nothing else, leaves a timer running that belongs to no stream. */
  lemma StepKeepsTidyIff(h: Hub, e: Event)
    requires Tidy(h)
    ensures Tidy(Step(h, e)) <==> !Reuses(h, e)
  {
    if Reuses(h, e) {
      var c := h.streams[e.requestID].controller;
      var h' := Step(h, e);
      assert h'.controllers[c] == h.controllers[c];
      assert e.requestID in h'.streams ==> h'.streams[e.requestID].controller == |h.controllers|;
    } else {
      StepKeepsTidy(h, e);
    }
  }

  lemma SameStreams(h: Hub, h': Hub)
    requires Tidy(h) && h'.streams == h.streams && h'.controllers == h.controllers
    ensures Tidy(h')
  {
  }

  /** What a stream must receive, read off the events alone: its own events in order, up to and including the
      first that closes it, its timeout, or the close of a socket of its device. */
  ghost function Expected(events: seq<Event>, c: nat, id: RequestId, d: DeviceId,
                          closeWhen: string -> bool): seq<string>
    decreases |events|
  {
    if events == [] then []
    else
      var rest := events[1..];
      match events[0]
      case Deliver(id', body) =>
        if id' != id then Expected(rest, c, id, d, closeWhen)
        else [body] + if closeWhen(body) then [] else Expected(rest, c, id, d, closeWhen)
      case StreamTimeout(c') => if c' == c then [TIMEOUT_EVENT] else Expected(rest, c, id, d, closeWhen)
      case SocketClosed(d', _) => if d' == d then [FAILED_EVENT] else Expected(rest, c, id, d, closeWhen)
      case Cancel(id') => if id' == id then [] else Expected(rest, c, id, d, closeWhen)
      case _ => Expected(rest, c, id, d, closeWhen)
  }

  /** Controller c belongs to no registered stream, and its timer is off. */
  ghost predicate Over(h: Hub, c: nat) {
    c < |h.controllers| && !h.controllers[c].timer && forall id | id in h.streams :: h.streams[id].controller != c
  }

  lemma OverStep(h: Hub, c: nat, e: Event)
    requires Tidy(h) && Over(h, c) && !Reuses(h, e)
    ensures Over(Step(h, e), c) && Step(h, e).controllers[c] == h.controllers[c]
  {
    if e.StreamTimeout? && e.controller < |h.controllers| && h.controllers[e.controller].timer {
      TimeoutIsClose(h, e.controller);
    }
  }

  /** After a stream is over nothing is written to it any more. */
  lemma {:induction false} NothingAfterwards(h: Hub, events: seq<Event>, c: nat)
    requires Tidy(h) && FreshStarts(h, events) && Over(h, c)
    ensures c < |Run(h, events).controllers| && Run(h, events).controllers[c] == h.controllers[c]
    decreases |events|
  {
    hide Tidy, Over, Step;
    if events != [] {
      OverStep(h, c, events[0]);
      StepKeepsTidy(h, events[0]);
      NothingAfterwards(Step(h, events[0]), events[1..], c);
    } else {
      assert Over(h, c) ==> c < |h.controllers| by {
        OverIsController(h, c);
      }
    }
  }

  lemma OverIsController(h: Hub, c: nat)
    ensures Over(h, c) ==> c < |h.controllers|
  {
  }

  /** Stream id runs on controller c. */
  ghost predicate Live(h: Hub, c: nat, id: RequestId, d: DeviceId, closeWhen: string -> bool) {
    id in h.streams && h.streams[id] == Entry(c, d, closeWhen) && c < |h.controllers|
  }

  lemma LiveUnderFailure(h: Hub, device: DeviceId, socket: Socket, c: nat, id: RequestId, d: DeviceId,
                         closeWhen: string -> bool)
    requires Tidy(h) && Live(h, c, id, d, closeWhen)
    ensures var h' := Step(h, SocketClosed(device, socket));
            && c < |h.controllers| && c < |h'.controllers|
            && h'.controllers[c].log == h.controllers[c].log + (if device == d then [FAILED_EVENT] else [])
            && (if device == d then Over(h', c) else Live(h', c, id, d, closeWhen))
  {
    assert Failing(h, device, c) <==> device == d;
  }

  /** One event on a live stream: it receives the first of what it is to receive and goes on, or it is over. */
  lemma LiveStep(h: Hub, e: Event, c: nat, id: RequestId, d: DeviceId, closeWhen: string -> bool)
    requires Tidy(h) && Live(h, c, id, d, closeWhen) && !Reuses(h, e)
    ensures c < |h.controllers|
    ensures var h' := Step(h, e);
            var first := Expected([e], c, id, d, closeWhen);
            && c < |h'.controllers| && h'.controllers[c].log == h.controllers[c].log + first
            && (if Ends(e, c, id, d, closeWhen) then Over(h', c) else Live(h', c, id, d, closeWhen))
  {
    hide FailStreams;
    assert [e][1..] == [];
    assert h.controllers[c].log + [] == h.controllers[c].log;
    if e.StreamTimeout? {
      if e.controller < |h.controllers| && h.controllers[e.controller].timer {
        TimeoutIsClose(h, e.controller);
      }
    } else if e.SocketClosed? {
      LiveUnderFailure(h, e.device, e.socket, c, id, d, closeWhen);
    }
  }

  /** The close of a socket that has been replaced leaves the device online, and yet ends the streams started over its
      replacement. */
  lemma StaleCloseEndsNewStreams(h: Hub, stale: Socket, c: nat, id: RequestId, d: DeviceId, closeWhen: string -> bool)
    requires Tidy(h) && Live(h, c, id, d, closeWhen) && d in h.daemons && h.daemons[d] != stale
    ensures var h' := Step(h, SocketClosed(d, stale));
            && h'.daemons == h.daemons && c < |h.controllers| && Over(h', c)
            && h'.controllers[c].log == h.controllers[c].log + [FAILED_EVENT]
  {
    hide FailStreams, Tidy, Live, Over;
    StepOnDaemons(h, SocketClosed(d, stale));
    LiveUnderFailure(h, d, stale, c, id, d, closeWhen);
  }

  ghost predicate Ends(e: Event, c: nat, id: RequestId, d: DeviceId, closeWhen: string -> bool) {
    match e
    case Deliver(id', body) => id' == id && closeWhen(body)
    case StreamTimeout(c') => c' == c
    case SocketClosed(d', _) => d' == d
    case Cancel(id') => id' == id
    case _ => false
  }

  lemma ExpectedCons(events: seq<Event>, c: nat, id: RequestId, d: DeviceId, closeWhen: string -> bool)
    requires events != []
    ensures Expected(events, c, id, d, closeWhen) ==
            Expected([events[0]], c, id, d, closeWhen) +
            (if Ends(events[0], c, id, d, closeWhen) then [] else Expected(events[1..], c, id, d, closeWhen))
  {
    assert [events[0]][1..] == [];
  }

  /** A stream receives exactly what the events have for it, whatever other streams, requests and sockets do. */
  lemma {:induction false} StreamReceivesExpected(h: Hub, events: seq<Event>, c: nat, id: RequestId, d: DeviceId,
                                                  closeWhen: string -> bool)
    requires Tidy(h) && FreshStarts(h, events) && Live(h, c, id, d, closeWhen)
    ensures c < |Run(h, events).controllers|
    ensures Run(h, events).controllers[c].log == h.controllers[c].log + Expected(events, c, id, d, closeWhen)
    decreases |events|
  {
    hide Tidy, Live, Over, Step, Expected, Ends;
    if events == [] {
      NothingExpected(h, c, id, d, closeWhen);
    } else {
      var e, rest := events[0], events[1..];
      var h' := Step(h, e);
      LiveStep(h, e, c, id, d, closeWhen);
      StepKeepsTidy(h, e);
      ExpectedCons(events, c, id, d, closeWhen);
      var first := Expected([e], c, id, d, closeWhen);
      if Ends(e, c, id, d, closeWhen) {
        NothingAfterwards(h', rest, c);
        assert first + [] == first;
      } else {
        StreamReceivesExpected(h', rest, c, id, d, closeWhen);
        var log := h.controllers[c].log;
        var later := Expected(rest, c, id, d, closeWhen);
        assert (log + first) + later == log + (first + later);
      }
    }
  }

  /** Event n is the first that ends the stream. */
  ghost predicate EndsFirst(events: seq<Event>, n: nat, c: nat, id: RequestId, d: DeviceId, closeWhen: string -> bool)
    requires n < |events|
  {
    Ends(events[n], c, id, d, closeWhen) && forall m | 0 <= m < n :: !Ends(events[m], c, id, d, closeWhen)
  }

  /** A stream ends at its first ending event: then its timer is off, it is registered no more, and the browser's end is
      closed unless the browser itself left. Until then it is open, registered and timed. */
  lemma {:induction false} StreamEndsAsExpected(h: Hub, events: seq<Event>, c: nat, id: RequestId, d: DeviceId,
                                                closeWhen: string -> bool)
    requires Tidy(h) && FreshStarts(h, events) && Live(h, c, id, d, closeWhen)
    ensures c < |Run(h, events).controllers|
    ensures var end := Run(h, events);
            && (forall n: nat | n < |events| && EndsFirst(events, n, c, id, d, closeWhen) ::
                  Over(end, c) && end.controllers[c].closed == !events[n].Cancel?)
            && ((forall m | 0 <= m < |events| :: !Ends(events[m], c, id, d, closeWhen)) ==>
                  Live(end, c, id, d, closeWhen) && !end.controllers[c].closed && end.controllers[c].timer)
    decreases |events|
  {
    hide Tidy, Live, Over, Step, Ends;
    if events == [] {
      LiveIsOpen(h, c, id, d, closeWhen);
    } else {
      var e, rest := events[0], events[1..];
      var h' := Step(h, e);
      LiveStep(h, e, c, id, d, closeWhen);
      StepKeepsTidy(h, e);
      if Ends(e, c, id, d, closeWhen) {
        EndCloses(h, e, c, id, d, closeWhen);
        NothingAfterwards(h', rest, c);
        RunKeepsOver(h', rest, c);
        forall n: nat | n < |events| && EndsFirst(events, n, c, id, d, closeWhen) ensures n == 0 {
        }
      } else {
        StreamEndsAsExpected(h', rest, c, id, d, closeWhen);
        forall n: nat | n < |events| && EndsFirst(events, n, c, id, d, closeWhen)
          ensures n > 0 && EndsFirst(rest, n - 1, c, id, d, closeWhen)
        {
          assert forall m | 0 <= m < n - 1 :: rest[m] == events[m + 1];
        }
        assert forall m | 0 <= m < |rest| :: rest[m] == events[m + 1];
      }
    }
  }

  lemma LiveIsOpen(h: Hub, c: nat, id: RequestId, d: DeviceId, closeWhen: string -> bool)
    requires Tidy(h) && Live(h, c, id, d, closeWhen)
    ensures c < |h.controllers| && !h.controllers[c].closed && h.controllers[c].timer
  {
  }

  lemma EndCloses(h: Hub, e: Event, c: nat, id: RequestId, d: DeviceId, closeWhen: string -> bool)
    requires Tidy(h) && Live(h, c, id, d, closeWhen) && Ends(e, c, id, d, closeWhen)
    ensures c < |Step(h, e).controllers| && Step(h, e).controllers[c].closed == !e.Cancel?
  {
    if e.StreamTimeout? {
      TimeoutIsClose(h, c);
    } else if e.SocketClosed? {
      assert Failing(h, d, c);
    }
  }

  lemma {:induction false} RunKeepsOver(h: Hub, events: seq<Event>, c: nat)
    requires Tidy(h) && FreshStarts(h, events) && Over(h, c)
    ensures Over(Run(h, events), c)
    decreases |events|
  {
    hide Tidy, Over, Step;
    if events != [] {
      OverStep(h, c, events[0]);
      StepKeepsTidy(h, events[0]);
      RunKeepsOver(Step(h, events[0]), events[1..], c);
    }
  }

  /** A write to a closed controller throws, and the handler goes no further: the stream, if any, stays registered. */
  lemma ClosedControllerStops(h: Hub, c: nat, id: RequestId, body: string)
    requires c < |h.controllers| && h.controllers[c].closed
    ensures Step(h, StreamTimeout(c)) == h.(controllers := h.controllers[c := h.controllers[c].(timer := false)])
    ensures id in h.streams && h.streams[id].controller == c ==> Step(h, Deliver(id, body)) == h
  {
    assert !h.controllers[c].timer ==> h.controllers == h.controllers[c := h.controllers[c].(timer := false)];
  }

  /** A stream whose send fails gets its initial event and the error, and is over. */
  lemma FailedStartIsOver(h: Hub, d: DeviceId, id: RequestId, initial: Option<string>, closeWhen: string -> bool)
    requires id != "" && d in h.daemons
    ensures var h' := Step(h, StartStream(d, id, initial, closeWhen, false));
            && h'.streams == h.streams - {id}
            && h'.controllers == h.controllers + [
                 Controller(id, (if initial.Some? then [initial.value] else []) + [SEND_ERROR_EVENT], true, false)]
  {
  }

  lemma NothingExpected(h: Hub, c: nat, id: RequestId, d: DeviceId, closeWhen: string -> bool)
    requires Live(h, c, id, d, closeWhen)
    ensures c < |h.controllers| && h.controllers[c].log == h.controllers[c].log + Expected([], c, id, d, closeWhen)
  {
  }

  lemma {:induction false} RunIsTidy(h: Hub, events: seq<Event>)
    requires Tidy(h) && FreshStarts(h, events)
    ensures Tidy(Run(h, events))
    decreases |events|
  {
    hide Tidy, Step;
    if events == [] {
    } else {
      StepKeepsTidy(h, events[0]);
      RunIsTidy(Step(h, events[0]), events[1..]);
    }
  }

  /** A stream started in any run, from its initial event to its end. */
  lemma StreamFromStart(before: seq<Event>, d: DeviceId, id: RequestId, initial: Option<string>,
                        closeWhen: string -> bool, after: seq<Event>)
    requires var h := Run(EMPTY, before);
             FreshStarts(EMPTY, before) && FreshStarts(h, [StartStream(d, id, initial, closeWhen, true)] + after)
             && id != "" && d in h.daemons
    ensures var h := Run(EMPTY, before);
            var c := |h.controllers|;
            var end := Run(h, [StartStream(d, id, initial, closeWhen, true)] + after);
            && c < |end.controllers|
            && end.controllers[c].log ==
               (if initial.Some? then [initial.value] else []) + Expected(after, c, id, d, closeWhen)
  {
    var h := Run(EMPTY, before);
    var start := StartStream(d, id, initial, closeWhen, true);
    var events := [start] + after;
    hide Tidy, Expected;
    assert Tidy(EMPTY) by {
      EmptyIsTidy();
    }
    RunIsTidy(EMPTY, before);
    StepKeepsTidy(h, start);
    assert events[1..] == after && events[0] == start;
    StreamReceivesExpected(Step(h, start), after, |h.controllers|, id, d, closeWhen);
  }

  lemma EmptyIsTidy()
    ensures Tidy(EMPTY)
  {
  }

  /** Every stream open in h receives just what the events have for it. */
  ghost predicate ServesAll(h: Hub, events: seq<Event>)
    requires Tidy(h)
  {
    forall id | id in h.streams ::
      var entry := h.streams[id];
      var c := entry.controller;
      && c < |Run(h, events).controllers|
      && Run(h, events).controllers[c].log ==
         h.controllers[c].log + Expected(events, c, id, entry.device, entry.closeWhen)
  }

  lemma FreshRunServesAll(h: Hub, events: seq<Event>)
    requires Tidy(h) && FreshStarts(h, events)
    ensures ServesAll(h, events)
  {
    hide Run, Expected, FreshStarts;
    forall id | id in h.streams
      ensures var entry := h.streams[id];
              var c := entry.controller;
              && c < |Run(h, events).controllers|
              && Run(h, events).controllers[c].log ==
                 h.controllers[c].log + Expected(events, c, id, entry.device, entry.closeWhen)
    {
      var entry := h.streams[id];
      StreamReceivesExpected(h, events, entry.controller, id, entry.device, entry.closeWhen);
    }
  }

  /** After a reuse the next event of the id does not reach the stream that was open first. */
  lemma ReuseLosesDelivery(h: Hub, e: Event, body: string)
    requires Tidy(h) && Reuses(h, e)
    ensures !ServesAll(h, [e, Deliver(e.requestID, body)])
  {
    var id := e.requestID;
    var entry := h.streams[id];
    var c, next := entry.controller, Deliver(id, body);
    var events := [e, next];
    var h1 := Step(h, e);
    var h2 := Step(h1, next);
    assert events[1..] == [next] && [next][1..] == [];
    assert Run(h2, []) == h2;
    assert Run(h1, [next]) == h2;
    assert Run(h, events) == h2;
    assert h1.controllers[c] == h.controllers[c] && h2.controllers[c] == h.controllers[c];
    assert Expected(events, c, id, entry.device, entry.closeWhen) ==
           Expected([next], c, id, entry.device, entry.closeWhen);
    assert |Expected([next], c, id, entry.device, entry.closeWhen)| == 1;
  }

  /** The exact condition: whatever happens next, as long as no later start reuses an id, every open stream receives
      its events if and only if this event does not reuse one. */
  lemma ServesAllIffNoReuse(h: Hub, e: Event)
    requires Tidy(h)
    ensures (forall rest | FreshStarts(Step(h, e), rest) :: ServesAll(h, [e] + rest)) <==> !Reuses(h, e)
  {
    hide ServesAll, Tidy, Step;
    if Reuses(h, e) {
      var rest := [Deliver(e.requestID, "")];
      DeliveryIsFresh(Step(h, e), e.requestID, "");
      ReuseLosesDelivery(h, e, "");
      assert [e] + rest == [e, Deliver(e.requestID, "")];
      assert !ServesAll(h, [e] + rest);
    } else {
      forall rest | FreshStarts(Step(h, e), rest) ensures ServesAll(h, [e] + rest) {
        var events := [e] + rest;
        assert ([e] + rest)[0] == e && ([e] + rest)[1..] == rest;
        FreshRunServesAll(h, events);
      }
    }
  }

  /** At each event of the run every stream then open receives its events, whatever fresh events follow. */
  ghost predicate AlwaysServes(h: Hub, events: seq<Event>)
    decreases |events|
  {
    events != [] ==>
      && Tidy(h)
      && (forall rest | FreshStarts(Step(h, events[0]), rest) :: ServesAll(h, [events[0]] + rest))
      && AlwaysServes(Step(h, events[0]), events[1..])
  }

  /** Over whole runs: all streams are served throughout exactly when no start reuses an id in flight. */
  lemma {:induction false} AlwaysServesIffFresh(h: Hub, events: seq<Event>)
    requires Tidy(h)
    ensures AlwaysServes(h, events) <==> FreshStarts(h, events)
    decreases |events|
  {
    hide ServesAll, Tidy, Step, Reuses;
    if events == [] {
    } else {
      ServesAllIffNoReuse(h, events[0]);
      StepKeepsTidyIff(h, events[0]);
      if !Reuses(h, events[0]) {
        AlwaysServesIffFresh(Step(h, events[0]), events[1..]);
      }
    }
  }

  lemma DeliveryIsFresh(h: Hub, id: RequestId, body: string)
    ensures FreshStarts(h, [Deliver(id, body)])
  {
    assert [Deliver(id, body)][1..] == [];
  }

  /** The second stream suffers as well: the first one's timer goes on running, and when it fires it ends the second
      stream. */
  lemma ReusedIdCutsStream(d: DeviceId, s: Socket, id: RequestId, body: string)
    requires id != ""
    ensures var never := (x: string) => false;
            var start := StartStream(d, id, None, never, true);
            var end := Run(EMPTY, [Register(d, s), start, start, StreamTimeout(0), Deliver(id, body)]);
            |end.controllers| == 2 && end.controllers[1].closed && end.controllers[1].log == []
  {
    var never := (x: string) => false;
    var start := StartStream(d, id, None, never, true);
    var h1 := Step(EMPTY, Register(d, s));
    var h2 := Step(h1, start);
    var h3 := Step(h2, start);
    var h4 := Step(h3, StreamTimeout(0));
    var h5 := Step(h4, Deliver(id, body));
    var events := [Register(d, s), start, start, StreamTimeout(0), Deliver(id, body)];
    assert h3.streams[id].controller == 1 && |h3.controllers| == 2;
    assert events[1..] == [start, start, StreamTimeout(0), Deliver(id, body)];
    assert events[1..][1..] == [start, StreamTimeout(0), Deliver(id, body)];
    assert events[1..][1..][1..] == [StreamTimeout(0), Deliver(id, body)];
    assert events[1..][1..][1..][1..] == [Deliver(id, body)];
    assert events[1..][1..][1..][1..][1..] == [];
    assert Run(EMPTY, events) == Run(h1, events[1..]);
    assert Run(h1, events[1..]) == Run(h2, events[1..][1..]);
    assert Run(h2, events[1..][1..]) == Run(h3, events[1..][1..][1..]);
    assert Run(h3, events[1..][1..][1..]) == Run(h4, [Deliver(id, body)]);
    assert Run(h4, [Deliver(id, body)]) == h5;
  }

  // ---- The hub object

  /** Every registered stream has a controller of its own. */
  ghost predicate Registered(h: Hub) {
    forall id | id in h.streams ::
      h.streams[id].controller < |h.controllers| && h.controllers[h.streams[id].controller].requestID == id
  }

  class InMemoryControlHub {
    var daemons: map<DeviceId, Socket>
    var pending: map<RequestId, string>
    var streams: map<RequestId, Entry>
    var controllers: seq<Controller>
    ghost var accepted: seq<Accepted>
    ghost var settled: seq<Settled>

    ghost function Value(): Hub
      reads this
    {
      Hub(daemons, pending, streams, controllers, accepted, settled)
    }

    ghost predicate Valid()
      reads this
    {
      Registered(Value())
    }

    constructor ()
      ensures Value() == EMPTY && Valid()
    {
      daemons, pending, streams, controllers := map[], map[], map[], [];
      accepted, settled := [], [];
    }

    method RegisterDaemonConnection(device: DeviceId, socket: Socket)
      requires Valid()
      modifies this`daemons
      ensures Valid() && Value() == Step(old(Value()), Register(device, socket))
    {
      daemons := daemons[device := socket];
    }

    method OnDaemonConnectionClosed(device: DeviceId, socket: Socket)
      requires Valid()
      modifies this`daemons, this`streams, this`controllers
      ensures Valid() && Value() == Step(old(Value()), SocketClosed(device, socket))
    {
      if device in daemons && daemons[device] == socket {
        daemons := daemons - {device};
      }
      FailStreamsForDaemon(device);
    }

    /** Writes the failure to each stream of the device and closes it. */
    method FailStreamsForDaemon(device: DeviceId)
      requires Valid()
      modifies this`streams, this`controllers
      ensures Valid() && Value() == FailStreams(old(Value()), device)
    {
      hide FailProgress, FailStreams, Registered;
      ghost var h := Value();
      var rest := streams.Keys;
      NothingFailed(h, device);
      while rest != {}
        invariant Valid() && FailProgress(h, device, rest, Value())
        decreases |rest|
      {
        ghost var before := rest;
        var id :| id in rest;
        rest := rest - {id};
        assert rest + {id} == before;
        PendingFailure(h, device, rest, id, Value());
        var entry := streams[id];
        if entry.device == device {
          FailOne(h, device, rest, id, Value());
          var c := entry.controller;
          WriteController(c, FAILED_EVENT);
          CloseOne(id, true);
        } else {
          SkipOne(h, device, rest, id, Value());
        }
      }
      AllFailed(h, device, Value());
    }

    method WriteController(c: nat, body: string)
      requires Valid() && c < |controllers|
      modifies this`controllers
      ensures Valid() && Value() == Write(old(Value()), c, body)
    {
      controllers := controllers[c := controllers[c].(log := controllers[c].log + [body])];
    }

    method CloseOne(id: RequestId, closeController: bool)
      requires Valid()
      modifies this`streams, this`controllers
      ensures Valid() && Value() == CloseStream(old(Value()), id, closeController)
    {
      if id !in streams {
        return;
      }
      var c := streams[id].controller;
      var was := controllers[c];
      controllers := controllers[c := was.(timer := false, closed := was.closed || closeController)];
      streams := streams - {id};
    }

    method RequestResponse(device: DeviceId, requestID: RequestId, responseType: string, sendOk: bool)
      returns (failed: bool)
      requires Valid()
      modifies this`pending, this`accepted, this`settled
      ensures Valid() && Value() == Step(old(Value()), Request(device, requestID, responseType, sendOk))
      ensures failed == (requestID == "" || requestID in old(pending) || device !in daemons || !sendOk)
    {
      failed := true;
      if requestID == "" || requestID in pending || device !in daemons {
        return;
      }
      pending := pending[requestID := responseType];
      accepted := accepted + [Accepted(requestID, responseType)];
      if !sendOk {
        ClearWaiting(requestID, SendFailed);
        return;
      }
      failed := false;
    }

    method ClearWaiting(requestID: RequestId, outcome: Outcome)
      modifies this`pending, this`settled
      ensures Value() == ClearPending(old(Value()), requestID, outcome)
    {
      if requestID !in pending {
        return;
      }
      settled := settled + [Settled(requestID, pending[requestID], outcome)];
      pending := pending - {requestID};
    }

    method DeliverPending(responseType: string, requestID: RequestId, payload: string)
      requires Valid()
      modifies this`pending, this`settled
      ensures Valid() && Value() == Step(old(Value()), ReplyArrives(responseType, requestID, payload))
    {
      if requestID !in pending || pending[requestID] != responseType {
        return;
      }
      ClearWaiting(requestID, Reply(responseType, payload));
    }

    method StreamRequest(device: DeviceId, requestID: RequestId, initial: Option<string>, closeWhen: string -> bool,
                         sendOk: bool)
      returns (failed: bool)
      requires Valid()
      modifies this`streams, this`controllers
      ensures Valid() && Value() == Step(old(Value()), StartStream(device, requestID, initial, closeWhen, sendOk))
      ensures failed == (requestID == "" || device !in daemons)
    {
      failed := requestID == "" || device !in daemons;
      if failed {
        return;
      }
      var c := |controllers|;
      controllers := controllers + [Controller(requestID, if initial.Some? then [initial.value] else [], false, true)];
      streams := streams[requestID := Entry(c, device, closeWhen)];
      if !sendOk {
        controllers := controllers[c := controllers[c].(log := controllers[c].log + [SEND_ERROR_EVENT])];
        CloseOne(requestID, true);
      }
    }

    method DeliverStream(requestID: RequestId, body: string)
      requires Valid()
      modifies this`streams, this`controllers
      ensures Valid() && Value() == Step(old(Value()), Deliver(requestID, body))
    {
      if requestID !in streams {
        return;
      }
      var entry := streams[requestID];
      var c := entry.controller;
      if controllers[c].closed {
        return;
      }
      controllers := controllers[c := controllers[c].(log := controllers[c].log + [body])];
      if entry.closeWhen(body) {
        CloseOne(requestID, true);
      }
    }

    method OnStreamTimeout(c: nat)
      requires Valid() && c < |controllers|
      modifies this`streams, this`controllers
      ensures Valid() && Value() == Step(old(Value()), StreamTimeout(c))
    {
      if !controllers[c].timer {
        return;
      }
      controllers := controllers[c := controllers[c].(timer := false)];
      if controllers[c].closed {
        return;
      }
      controllers := controllers[c := controllers[c].(log := controllers[c].log + [TIMEOUT_EVENT])];
      CloseOne(controllers[c].requestID, true);
    }
  }

  /** Where failing a device's streams stands when those outside rest are done. */
  ghost predicate FailProgress(h: Hub, device: DeviceId, rest: set<RequestId>, v: Hub) {
    && Registered(h) && rest <= h.streams.Keys
    && v == h.(streams := v.streams, controllers := v.controllers)
    && (forall id :: id in v.streams <==> id in h.streams && (id in rest || h.streams[id].device != device))
    && (forall id | id in v.streams :: v.streams[id] == h.streams[id])
    && |v.controllers| == |h.controllers|
    && forall c: nat | c < |v.controllers| ::
         v.controllers[c] == if Failing(h, device, c) && h.controllers[c].requestID !in rest
                             then Failed(h.controllers[c]) else h.controllers[c]
  }

  lemma NothingFailed(h: Hub, device: DeviceId)
    requires Registered(h)
    ensures FailProgress(h, device, h.streams.Keys, h)
  {
  }

  lemma PendingFailure(h: Hub, device: DeviceId, rest: set<RequestId>, id: RequestId, v: Hub)
    requires id !in rest && FailProgress(h, device, rest + {id}, v)
    ensures id in h.streams && id in v.streams && v.streams[id] == h.streams[id]
    ensures v.streams[id].controller < |v.controllers|
  {
  }

  lemma FailOne(h: Hub, device: DeviceId, rest: set<RequestId>, id: RequestId, v: Hub)
    requires id !in rest && FailProgress(h, device, rest + {id}, v) && id in h.streams && h.streams[id].device == device
    ensures id in v.streams && v.streams[id].controller < |v.controllers|
    ensures FailProgress(h, device, rest, CloseStream(Write(v, v.streams[id].controller, FAILED_EVENT), id, true))
  {
    var c := v.streams[id].controller;
    assert h.controllers[c].requestID == id && Failing(h, device, c);
    assert v.controllers[c] == h.controllers[c];
    var v' := CloseStream(Write(v, c, FAILED_EVENT), id, true);
    assert v'.streams == v.streams - {id};
    forall d: nat | d < |v.controllers| && d != c ensures v'.controllers[d] == v.controllers[d] {
    }
  }

  lemma SkipOne(h: Hub, device: DeviceId, rest: set<RequestId>, id: RequestId, v: Hub)
    requires id !in rest && FailProgress(h, device, rest + {id}, v) && id in h.streams && h.streams[id].device != device
    ensures FailProgress(h, device, rest, v)
  {
  }

  lemma AllFailed(h: Hub, device: DeviceId, v: Hub)
    requires FailProgress(h, device, {}, v)
    ensures v == FailStreams(h, device)
  {
    assert v.streams == FailStreams(h, device).streams;
    assert v.controllers == FailStreams(h, device).controllers;
  }
}
