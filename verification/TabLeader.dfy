/** Browser tabs electing one leader through a lease in shared storage. */
module TabLeader {
  import opened Maps

  type TabId = string

  /** The stored lease; times are in milliseconds. */
  datatype Lease = Lease(tab: TabId, expiresAt: real)

  function Max(a: real, b: real): real { if a >= b then a else b }

  function Min(a: real, b: real): real { if a <= b then a else b }

  const DEFAULT_LEASE_MS: real := 8000.0
  const DEFAULT_RENEW_MS: real := 2500.0

  function LeaseMs(option: Option<real>): real {
    Max(1000.0, if option.Some? then option.value else DEFAULT_LEASE_MS)
  }

  function RenewMs(leaseMs: real, option: Option<real>): real {
    Max(250.0, Min(leaseMs / 2.0, if option.Some? then option.value else DEFAULT_RENEW_MS))
  }

  /** An option within its bounds is taken as it is, else the nearest bound; without options it is 8 s and 2.5 s. */
  lemma OptionsAreClamped(o: real, leaseMs: real)
    requires leaseMs >= 1000.0
    ensures LeaseMs(Some(o)) == (if o < 1000.0 then 1000.0 else o)
    ensures RenewMs(leaseMs, Some(o)) == if o < 250.0 then 250.0 else if o > leaseMs / 2.0 then leaseMs / 2.0 else o
    ensures LeaseMs(None) == 8000.0 && RenewMs(8000.0, None) == 2500.0
  {
  }

  /** Whatever the options, a tab renews at least twice a lease. */
  lemma RenewsTwiceALease(lease: Option<real>, renew: Option<real>)
    ensures 250.0 <= RenewMs(LeaseMs(lease), renew) <= LeaseMs(lease) / 2.0
  {
  }

  /** A stored lease without a positive expiry is read as no lease. */
  function ReadLease(stored: Option<Lease>): Option<Lease> {
    if stored.Some? && stored.value.expiresAt > 0.0 then stored else None
  }

  predicate MayLead(tab: TabId, stored: Option<Lease>, now: real) {
    var current := ReadLease(stored);
    !(current.Some? && current.value.expiresAt > now) || current.value.tab == tab
  }

  // ---- The tab object

  class LeaseStorage {
    var lease: Option<Lease>

    constructor ()
      ensures lease == None
    {
      lease := None;
    }
  }

  class WorkspaceTabLeader {
    const tabID: TabId
    const leaseMs: real
    const storage: LeaseStorage?
    var leader: bool
    var closed: bool

    /** A tab without storage or channel coordinates with nobody and leads itself. */
    constructor (tabID: TabId, leaseMs: real, storage: LeaseStorage?, now: real)
      modifies if storage == null then {} else {storage}
      ensures this.tabID == tabID && this.leaseMs == leaseMs && this.storage == storage && !closed
      ensures storage == null ==> leader
      ensures storage != null ==> leader == MayLead(tabID, old(storage.lease), now)
      ensures storage != null ==>
                storage.lease == if leader then Some(Lease(tabID, now + leaseMs)) else old(storage.lease)
    {
      this.tabID, this.leaseMs, this.storage := tabID, leaseMs, storage;
      leader, closed := false, false;
      new;
      var _ := Heartbeat(now);
    }

    method Heartbeat(now: real) returns (posted: Option<Lease>)
      modifies this`leader, if storage == null then {} else {storage}
      ensures closed ==>
                leader == old(leader) && (storage != null ==> storage.lease == old(storage.lease)) && posted == None
      ensures !closed && storage == null ==> leader && posted == None
      ensures !closed && storage != null ==>
                && leader == MayLead(tabID, old(storage.lease), now)
                && storage.lease == (if leader then Some(Lease(tabID, now + leaseMs)) else old(storage.lease))
                && posted == (if leader then storage.lease else None)
    {
      posted := None;
      if closed {
        return;
      }
      if storage == null {
        leader := true;
        return;
      }
      var current := ReadLease(storage.lease);
      var currentLive := current.Some? && current.value.expiresAt > now;
      if !currentLive || current.value.tab == tabID {
        storage.lease := Some(Lease(tabID, now + leaseMs));
        leader := true;
        posted := storage.lease;
        return;
      }
      leader := false;
    }

    /** A live lease announced by another tab makes this one step down. */
    method OnChannelMessage(message: Lease, now: real)
      modifies this`leader
      ensures leader == (old(leader) && (closed || storage == null || message.tab == tabID || message.expiresAt <= now))
    {
      if closed {
        return;
      }
      if storage != null && message.tab != tabID && message.expiresAt > now {
        leader := false;
      }
    }

    method Close()
      modifies this`closed, if storage == null then {} else {storage}
      ensures closed && leader == old(leader)
      ensures storage != null ==>
                storage.lease == if !old(closed) && leader && ReadLease(old(storage.lease)).Some?
                                    && old(storage.lease).value.tab == tabID
                                 then None else old(storage.lease)
    {
      if closed {
        return;
      }
      closed := true;
      if leader && storage != null {
        var current := ReadLease(storage.lease);
        if current.Some? && current.value.tab == tabID {
          storage.lease := None;
        }
      }
    }
  }

  // ---- All tabs together

  /** A tab as the others can observe it; lastBeat is when its heartbeat ran last. */
  datatype Tab = Tab(leader: bool, closed: bool, lastBeat: real, leaseMs: real)

  datatype World = World(tabs: map<TabId, Tab>, lease: Option<Lease>, now: real)

  datatype Event =
    | Wait(until: real)
    | Open(tab: TabId, leaseMs: real)
    | Beat(tab: TabId)
    | Deliver(tab: TabId, message: Lease)
    | CloseTab(tab: TabId)

  /** What a heartbeat does to its tab and to the lease. */
  ghost function Beaten(w: World, id: TabId, leaseMs: real): World {
    var leads := MayLead(id, w.lease, w.now);
    w.(tabs := w.tabs[id := Tab(leads, false, w.now, leaseMs)],
       lease := if leads then Some(Lease(id, w.now + leaseMs)) else w.lease)
  }

  ghost predicate IsOpen(w: World, id: TabId) { id in w.tabs && !w.tabs[id].closed }

  /** One step. Heartbeats are atomic, tab ids are never reused, and a tab that leads beats again before its lease
      time is over; the others may be as late as they like. Messages may be late, repeated, reordered or lost: any
      message can arrive at any time. */
  ghost predicate Step(w: World, e: Event, w': World) {
    match e
    case Wait(until) =>
      && until >= w.now && w' == w.(now := until)
      && forall id | IsOpen(w, id) && w.tabs[id].leader :: until < w.tabs[id].lastBeat + w.tabs[id].leaseMs
    case Open(id, leaseMs) => id !in w.tabs && leaseMs >= 1000.0 && w' == Beaten(w, id, leaseMs)
    case Beat(id) => IsOpen(w, id) && w' == Beaten(w, id, w.tabs[id].leaseMs)
    case Deliver(id, message) =>
      && IsOpen(w, id)
      && var leads := w.tabs[id].leader && (message.tab == id || message.expiresAt <= w.now);
      w' == w.(tabs := w.tabs[id := w.tabs[id].(leader := leads)])
    case CloseTab(id) =>
      && IsOpen(w, id)
      && w' == w.(tabs := w.tabs[id := w.tabs[id].(closed := true)],
                  lease := if w.tabs[id].leader && ReadLease(w.lease).Some? && w.lease.value.tab == id then None
                           else w.lease)
  }

  /** Every open leader owns the stored lease, and it is still live. */
  ghost predicate Inv(w: World) {
    && w.now >= 0.0
    && forall id | IsOpen(w, id) ::
         && w.tabs[id].leaseMs >= 1000.0
         && (w.tabs[id].leader ==>
               && w.now < w.tabs[id].lastBeat + w.tabs[id].leaseMs
               && w.lease == Some(Lease(id, w.tabs[id].lastBeat + w.tabs[id].leaseMs)))
  }

  ghost predicate AtMostOneLeader(w: World) {
    forall a, b | IsOpen(w, a) && IsOpen(w, b) && w.tabs[a].leader && w.tabs[b].leader :: a == b
  }

  /** A heartbeat leads exactly when no lease is stored, the stored one has run out, or it is its own; then it stores
      a lease for its full time, and otherwise leaves the stored one. */
  lemma BeatLeadsIff(w: World, id: TabId, leaseMs: real)
    ensures var w' := Beaten(w, id, leaseMs);
            && id in w'.tabs && !w'.tabs[id].closed && w'.tabs[id].lastBeat == w.now
            && (w'.tabs[id].leader <==>
                  || w.lease.None? || w.lease.value.expiresAt <= w.now || w.lease.value.expiresAt <= 0.0
                  || w.lease.value.tab == id)
            && w'.lease == (if w'.tabs[id].leader then Some(Lease(id, w.now + leaseMs)) else w.lease)
  {
  }

  /** The heartbeat of a leader leaves it leader, with its lease renewed. */
  lemma LeaderRenews(w: World, id: TabId, leaseMs: real)
    requires Inv(w) && IsOpen(w, id) && w.tabs[id].leader
    ensures var w' := Beaten(w, id, leaseMs);
            IsOpen(w', id) && w'.tabs[id].leader && w'.lease == Some(Lease(id, w.now + leaseMs))
  {
    BeatLeadsIff(w, id, leaseMs);
  }

  /** A heartbeat takes the lease only when no other tab can be leading. */
  lemma BeatKeepsInv(w: World, id: TabId, leaseMs: real)
    requires Inv(w) && leaseMs >= 1000.0
    ensures Inv(Beaten(w, id, leaseMs))
  {
    var w' := Beaten(w, id, leaseMs);
    forall t | IsOpen(w', t) && t != id
      ensures && w'.tabs[t].leaseMs >= 1000.0
              && (w'.tabs[t].leader ==>
                    && w'.now < w'.tabs[t].lastBeat + w'.tabs[t].leaseMs
                    && w'.lease == Some(Lease(t, w'.tabs[t].lastBeat + w'.tabs[t].leaseMs)))
    {
      assert IsOpen(w, t);
    }
  }

  lemma StepKeepsInv(w: World, e: Event, w': World)
    requires Inv(w) && Step(w, e, w')
    ensures Inv(w')
  {
    match e
    case Wait(_) =>
      assert forall t | IsOpen(w', t) :: IsOpen(w, t);
    case Open(id, leaseMs) => BeatKeepsInv(w, id, leaseMs);
    case Beat(id) => BeatKeepsInv(w, id, w.tabs[id].leaseMs);
    case Deliver(_, _) =>
      assert forall t | IsOpen(w', t) :: IsOpen(w, t);
    case CloseTab(_) =>
      assert forall t | IsOpen(w', t) :: IsOpen(w, t);
  }

  /** What can happen at all: waiting as long as the leaders stay in time, opening under a new id, and at any moment a
      heartbeat, any message or the close of an open tab. */
  lemma EventsThatCanHappen(w: World, e: Event)
    ensures (exists w' :: Step(w, e, w')) <==>
            match e
            case Wait(until) =>
              && until >= w.now
              && forall id | IsOpen(w, id) && w.tabs[id].leader :: until < w.tabs[id].lastBeat + w.tabs[id].leaseMs
            case Open(id, leaseMs) => id !in w.tabs && leaseMs >= 1000.0
            case Beat(id) => id in w.tabs && !w.tabs[id].closed
            case Deliver(id, _) => id in w.tabs && !w.tabs[id].closed
            case CloseTab(id) => id in w.tabs && !w.tabs[id].closed
  {
    match e
    case Wait(until) =>
      if until >= w.now &&
         forall id | IsOpen(w, id) && w.tabs[id].leader :: until < w.tabs[id].lastBeat + w.tabs[id].leaseMs {
        assert Step(w, e, w.(now := until));
      }
    case Open(id, leaseMs) =>
      if id !in w.tabs && leaseMs >= 1000.0 {
        assert Step(w, e, Beaten(w, id, leaseMs));
      }
    case Beat(id) =>
      if IsOpen(w, id) {
        assert Step(w, e, Beaten(w, id, w.tabs[id].leaseMs));
      }
    case Deliver(id, message) =>
      if IsOpen(w, id) {
        var leads := w.tabs[id].leader && (message.tab == id || message.expiresAt <= w.now);
        assert Step(w, e, w.(tabs := w.tabs[id := w.tabs[id].(leader := leads)]));
      }
    case CloseTab(id) =>
      if IsOpen(w, id) {
        var lease := if w.tabs[id].leader && ReadLease(w.lease).Some? && w.lease.value.tab == id then None else w.lease;
        assert Step(w, e, w.(tabs := w.tabs[id := w.tabs[id].(closed := true)], lease := lease));
      }
  }

  /** A tab that closes takes away no other tab's lease, not even if it still believes it leads. */
  lemma CloseKeepsOthersLease(w: World, id: TabId, w': World)
    requires Step(w, CloseTab(id), w') && w.lease.Some? && w.lease.value.tab != id
    ensures w'.lease == w.lease
  {
  }

  ghost predicate IsRun(worlds: seq<World>, events: seq<Event>) {
    |worlds| == |events| + 1 && forall i | 0 <= i < |events| :: Step(worlds[i], events[i], worlds[i + 1])
  }

  lemma {:induction false} RunKeepsInv(worlds: seq<World>, events: seq<Event>)
    requires IsRun(worlds, events)
    requires worlds[0].tabs == map[] && worlds[0].now >= 0.0
    ensures forall i | 0 <= i < |worlds| :: Inv(worlds[i])
  {
    for n := 0 to |events|
      invariant forall i | 0 <= i <= n :: Inv(worlds[i])
    {
      StepKeepsInv(worlds[n], events[n], worlds[n + 1]);
    }
  }

  /** No reachable state has two open tabs that both believe they lead. */
  lemma {:induction false} NeverTwoLeaders(worlds: seq<World>, events: seq<Event>)
    requires IsRun(worlds, events)
    requires worlds[0].tabs == map[] && worlds[0].now >= 0.0
    ensures forall i | 0 <= i < |worlds| :: AtMostOneLeader(worlds[i])
  {
    RunKeepsInv(worlds, events);
    assert forall i | 0 <= i < |worlds| :: Inv(worlds[i]);
  }

  /** The tab closes, or hears of another tab's live lease. */
  ghost predicate Unseats(w: World, e: Event, id: TabId) {
    e == CloseTab(id) || (e.Deliver? && e.tab == id && e.message.tab != id && e.message.expiresAt > w.now)
  }

  lemma StepKeepsLeader(w: World, e: Event, w': World, id: TabId)
    requires Inv(w) && Step(w, e, w') && IsOpen(w, id) && w.tabs[id].leader
    ensures IsOpen(w', id) && w'.tabs[id].leader <==> !Unseats(w, e, id)
  {
    if e == Beat(id) {
      LeaderRenews(w, id, w.tabs[id].leaseMs);
    }
  }

  /** Over runs: a leader leads on, whatever other tabs do and however often it beats itself, exactly until it closes or
      a live lease of another tab is delivered to it. */
  lemma {:induction false} LeadsUntilUnseated(worlds: seq<World>, events: seq<Event>, i: nat, j: nat, id: TabId)
    requires IsRun(worlds, events) && worlds[0].tabs == map[] && worlds[0].now >= 0.0
    requires i <= j <= |events| && IsOpen(worlds[i], id) && worlds[i].tabs[id].leader
    ensures (forall n | i <= n <= j :: IsOpen(worlds[n], id) && worlds[n].tabs[id].leader) <==>
            forall n | i <= n < j :: !Unseats(worlds[n], events[n], id)
  {
    RunKeepsInv(worlds, events);
    for n := i to j
      invariant (forall k | i <= k <= n :: IsOpen(worlds[k], id) && worlds[k].tabs[id].leader) <==>
                forall k | i <= k < n :: !Unseats(worlds[k], events[k], id)
    {
      if forall k | i <= k <= n :: IsOpen(worlds[k], id) && worlds[k].tabs[id].leader {
        StepKeepsLeader(worlds[n], events[n], worlds[n + 1], id);
      }
    }
  }

  /** The timing assumption is exact: after any wait, the heartbeat of a new or an open tab leaves at most one leader if
      and only if no other leader has let its lease run out. */
  lemma OneLeaderIffInTime(w: World, b: TabId, until: real, leaseMs: real)
    requires Inv(w) && (b in w.tabs ==> IsOpen(w, b)) && until >= w.now
    ensures AtMostOneLeader(Beaten(w.(now := until), b, leaseMs)) <==>
            forall a | a != b && IsOpen(w, a) && w.tabs[a].leader :: until < w.tabs[a].lastBeat + w.tabs[a].leaseMs
  {
    var w' := Beaten(w.(now := until), b, leaseMs);
    forall a | a != b && IsOpen(w, a) && w.tabs[a].leader
      ensures w'.tabs[b].leader <==> until >= w.tabs[a].lastBeat + w.tabs[a].leaseMs
      ensures IsOpen(w', a) && w'.tabs[a].leader && IsOpen(w', b)
    {
    }
    forall a | a != b && IsOpen(w', a) && w'.tabs[a].leader ensures IsOpen(w, a) && w.tabs[a].leader {
    }
  }

  /** An input on which it fails: the leader's lease of 8 seconds has run out when a second tab opens. */
  lemma LateLeaderSplits(a: TabId, b: TabId)
    requires a != b
    ensures var w := Beaten(World(map[], None, 0.0), a, 8000.0);
            Inv(w) && !AtMostOneLeader(Beaten(w.(now := 8000.0), b, 8000.0))
  {
    var w0 := World(map[], None, 0.0);
    var w := Beaten(w0, a, 8000.0);
    BeatKeepsInv(w0, a, 8000.0);
    OneLeaderIffInTime(w, b, 8000.0, 8000.0);
    assert IsOpen(w, a) && w.tabs[a].leader;
  }

  /** Handover: after a leader closes, the next open tab to beat leads. */
  lemma NextBeatTakesOver(w: World, a: TabId, w': World, b: TabId)
    requires Inv(w) && IsOpen(w, a) && w.tabs[a].leader && Step(w, CloseTab(a), w') && IsOpen(w', b)
    ensures Beaten(w', b, w'.tabs[b].leaseMs).tabs[b].leader
  {
    assert IsOpen(w, a);
  }
}
