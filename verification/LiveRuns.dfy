/**
 Whole runs of the service object.  Events are addressed to sockets, dead or alive, and reach the service only through
 handlers that are still attached.  That makes the rule "only the current socket is heard" a result: the object
 follows exactly the run in which every other socket is ignored.
 */
module LiveRuns {
  import opened LiveClient
  import opened LiveObjects

  /** Something happens; if it happens on a socket, it is the one that was opened as number `from`. */
  datatype Arrival = Arrival(event: Event, from: nat)

  predicate OnSocket(e: Event) {
    e.Opened? || e.Received? || e.Dropped?
  }

  /** Of `count` sockets, the last one is current while the client has a socket. */
  predicate Heard(c: Client, count: nat, a: Arrival) {
    OnSocket(a.event) ==> c.socket && a.from + 1 == count
  }

  function OpenedAfter(c: Client, count: nat, e: Event): nat {
    if !c.socket && Step(c, e).socket then count + 1 else count
  }

  /** The events of the arrivals that are heard. */
  function Audible(c: Client, count: nat, arrivals: seq<Arrival>): seq<Event>
    decreases arrivals
  {
    if arrivals == [] then []
    else if Heard(c, count, arrivals[0]) then
      var e := arrivals[0].event;
      [e] + Audible(Step(c, e), OpenedAfter(c, count, e), arrivals[1..])
    else Audible(c, count, arrivals[1..])
  }

  /** One event of a run, with the socket that the factory would make. */
  method Handle(live: LiveService, e: Event, made: LiveSocket)
    requires live.Valid() && live.OneChannel() && Healthy(live.State()) && Possible(live.State(), e)
    requires made !in live.sockets && !made.attached
    modifies live, live.bus, live.sockets, made
    ensures live.Valid() && live.OneChannel() && Healthy(live.State())
    ensures live.State() == Step(old(live.State()), e)
    ensures live.sockets == old(live.sockets) + if old(live.socket) == null && live.socket != null then {made} else {}
    ensures live.socket == null || live.socket == old(live.socket) || (old(live.socket) == null && live.socket == made)
  {
    match e
    case Start(now, jitter, ok) => live.Connect(now, jitter, if ok then made else null);
    case Opened(now) => live.OnOpen(now);
    case Received(now, frame) => live.OnMessage(frame, now);
    case Dropped(now, jitter) => live.HandleDrop(now, jitter);
    case ReconnectDue(now, jitter, ok) => live.ReconnectFires(now, jitter, if ok then made else null);
    case BumpDue(_) => live.BumpFires();
    case StableDue(_) => live.StableFires();
    case Stop(_) => live.Disconnect();
  }

  /** The sockets opened so far, in order: pairwise different, and the last one is current if any is. */
  ghost predicate History(live: LiveService, past: seq<LiveSocket>)
    reads live
  {
    && (forall i, j :: 0 <= i < j < |past| ==> past[i] != past[j])
    && (forall i :: 0 <= i < |past| ==> past[i] in live.sockets)
    && (live.socket != null ==> past != [] && live.socket == past[|past| - 1])
  }

  /** Attached handlers are exactly those of the current socket. */
  lemma AttachedIsCurrent(live: LiveService, past: seq<LiveSocket>, from: nat)
    requires live.Valid() && live.OneChannel() && History(live, past)
    ensures from < |past| && past[from].attached <==> live.socket != null && from + 1 == |past|
  {
    if from < |past| && past[from].attached {
      assert past[from] in live.sockets;
    }
  }

  lemma StartsHealthy(c: Client)
    requires c == INITIAL.(bumps := c.bumps)
    ensures Healthy(c)
  {}

  /**
   Any run: the service is built and everything that arrives is dispatched to whatever handlers are attached.  At the
   end, as at every point before, only the current socket has handlers, the client is healthy, and its state is that
   of the run of audible events.
   */
  method Play(bus: RefreshBus, arrivals: seq<Arrival>) returns (live: LiveService)
    requires Trace(INITIAL.(bumps := bus.n), Audible(INITIAL.(bumps := bus.n), 0, arrivals))
    modifies bus
    ensures fresh(live) && live.Valid() && live.OneChannel() && Healthy(live.State())
    ensures live.State() == After(old(INITIAL.(bumps := bus.n)), Audible(old(INITIAL.(bumps := bus.n)), 0, arrivals))
  {
    hide Step, Possible, Healthy;
    live := new LiveService(bus);
    StartsHealthy(live.State());
    var past: seq<LiveSocket> := [];
    ghost var start := live.State();
    ghost var goal := After(start, Audible(start, 0, arrivals));
    assert arrivals[0..] == arrivals;
    for k := 0 to |arrivals|
      invariant fresh(live) && live.bus == bus && fresh(live.sockets)
      invariant live.Valid() && live.OneChannel() && Healthy(live.State()) && History(live, past)
      invariant Trace(live.State(), Audible(live.State(), |past|, arrivals[k..]))
      invariant After(live.State(), Audible(live.State(), |past|, arrivals[k..])) == goal
    {
      var a := arrivals[k];
      AttachedIsCurrent(live, past, a.from);
      ghost var c := live.State();
      assert arrivals[k..][0] == a && arrivals[k..][1..] == arrivals[k + 1..];
      if !OnSocket(a.event) || (a.from < |past| && past[a.from].attached) {
        var before := live.socket;
        var spare := new LiveSocket();
        ghost var events := Audible(Step(c, a.event), OpenedAfter(c, |past|, a.event), arrivals[k + 1..]);
        assert Audible(c, |past|, arrivals[k..]) == [a.event] + events && ([a.event] + events)[1..] == events;
        Handle(live, a.event, spare);
        if before == null && live.socket != null {
          past := past + [spare];
        }
      }
    }
  }
}
