/**
 The objects of the browser half: the refresh bus, a socket whose handlers can be detached, and the
 `LiveService` whose callbacks update its fields in place.  Every method is specified by the
 function of the same name in module LiveClient.
 */
module LiveObjects {
  import opened LiveClient
  import opened Options

  class RefreshBus {
    var n: nat
    var emitted: seq<nat>  // what subscribers have seen

    constructor ()
      ensures n == 0 && emitted == [0]
    {
      n, emitted := 0, [0];
    }

    method Bump()
      modifies this
      ensures n == old(n) + 1 && emitted == old(emitted) + [n]
    {
      n := n + 1;
      emitted := emitted + [n];
    }
  }

  class LiveSocket {
    var attached: bool
    var closed: bool

    constructor ()
      ensures !attached && !closed
    {
      attached, closed := false, false;
    }
  }

  class LiveService {
    const bus: RefreshBus
    var socket: LiveSocket?
    var connecting: bool
    var stopped: bool
    var status: Status
    var backoff: nat
    var lastRev: int
    var reconnectTimer: Option<nat>
    var bumpTimer: Option<nat>
    var stableTimer: Option<nat>
    ghost var sockets: set<LiveSocket>  // every socket this service ever opened

    ghost predicate Valid()
      reads this, sockets
    {
      socket != null ==> socket in sockets && socket.attached
    }

    /** Only the current socket has handlers, so a late frame of a dropped one cannot be seen. */
    ghost predicate OneChannel()
      reads this, sockets
    {
      forall s :: s in sockets && s.attached ==> s == socket
    }

    function State(): Client
      reads this, bus
    {
      Client(socket != null, connecting, stopped, status, backoff, lastRev,
             reconnectTimer, bumpTimer, stableTimer, bus.n)
    }

    constructor (bus: RefreshBus)
      ensures Valid() && OneChannel() && State() == INITIAL.(bumps := bus.n) && this.bus == bus && sockets == {}
    {
      this.bus := bus;
      socket, connecting, stopped, status := null, false, false, Offline;
      backoff, lastRev := BACKOFF_START, 0;
      reconnectTimer, bumpTimer, stableTimer := None, None, None;
      sockets := {};
    }

    /** `made` is what the socket factory returns, null when it throws. */
    method Connect(now: nat, jitter: nat, made: LiveSocket?)
      requires Valid() && (made != null ==> made !in sockets && !made.attached)
      modifies this, made
      ensures Valid() && (OneChannel() <==> old(OneChannel()))
      ensures State() == LiveClient.Connect(old(State()), now, jitter, made != null)
      ensures if old(socket == null && !connecting)
              then socket == made && sockets == old(sockets) + if made == null then {} else {made}
              else socket == old(socket) && sockets == old(sockets)
    {
      if socket != null || connecting {
        return;
      }
      stopped := false;
      OpenSocket(now, jitter, made);
    }

    /** Nothing detaches a socket that is still there: it keeps its handlers beside the new one. */
    method OpenSocket(now: nat, jitter: nat, made: LiveSocket?)
      requires Valid() && (made != null ==> made !in sockets && !made.attached)
      modifies this, made
      ensures Valid()
      ensures State() == LiveClient.OpenSocket(old(State()), now, jitter, made != null)
      ensures made == null ==> socket == old(socket) && sockets == old(sockets)
      ensures made != null ==> socket == made && sockets == old(sockets) + {made}
      ensures OneChannel() <==> old(OneChannel()) && (made == null || old(socket) == null)
    {
      connecting := true;
      if status.Offline? {
        status := Connecting;
      }
      lastRev := 0;
      if made == null {
        connecting := false;
        ScheduleReconnect(now, jitter);
        return;
      }
      ghost var before := socket;
      socket := made;
      socket.attached := true;
      sockets := sockets + {made};
      assert before != null ==> before in sockets && before.attached && before != socket;
    }

    method OnOpen(now: nat)
      requires Valid() && socket != null
      modifies this
      ensures Valid() && socket == old(socket) && sockets == old(sockets)
      ensures State() == LiveClient.OnOpen(old(State()), now)
    {
      connecting := false;
      status := Live;
      stableTimer := Some(now + STABLE_AFTER_MS);
      ScheduleBump(now);
    }

    method OnMessage(frame: Frame, now: nat)
      requires Valid() && socket != null
      modifies this
      ensures Valid() && socket == old(socket) && sockets == old(sockets)
      ensures State() == LiveClient.OnMessage(old(State()), frame, now)
    {
      if frame.Unusable? {
        return;
      }
      if frame.rev <= lastRev {
        return;
      }
      lastRev := frame.rev;
      ScheduleBump(now);
    }

    method ScheduleBump(now: nat)
      modifies this`bumpTimer
      ensures State() == LiveClient.ScheduleBump(old(State()), now)
    {
      bumpTimer := Some(now + DEBOUNCE_MS);
    }

    method HandleDrop(now: nat, jitter: nat)
      requires Valid()
      modifies this, socket
      ensures Valid() && socket == null && sockets == old(sockets)
      ensures old(OneChannel()) ==> forall s :: s in sockets ==> !s.attached
      ensures State() == LiveClient.HandleDrop(old(State()), now, jitter)
    {
      connecting := false;
      var dead := socket;
      if dead != null {
        dead.attached := false;
      }
      socket := null;
      stableTimer := None;
      if stopped {
        return;
      }
      status := Reconnecting;
      ScheduleReconnect(now, jitter);
    }

    method ScheduleReconnect(now: nat, jitter: nat)
      modifies this`reconnectTimer, this`backoff
      ensures State() == LiveClient.ScheduleReconnect(old(State()), now, jitter)
    {
      if stopped || reconnectTimer.Some? {
        return;
      }
      reconnectTimer := Some(now + Min(backoff, BACKOFF_CAP) + jitter);
      backoff := Min(backoff * 2, BACKOFF_CAP);
    }

    method ReconnectFires(now: nat, jitter: nat, made: LiveSocket?)
      requires Valid() && (made != null ==> made !in sockets && !made.attached)
      modifies this, made
      ensures Valid()
      ensures made == null ==> socket == old(socket) && sockets == old(sockets)
      ensures made != null ==> socket == made && sockets == old(sockets) + {made}
      ensures State() == LiveClient.ReconnectFires(old(State()), now, jitter, made != null)
      ensures OneChannel() <==> old(OneChannel()) && (made == null || old(socket) == null)
    {
      reconnectTimer := None;
      OpenSocket(now, jitter, made);
    }

    method BumpFires()
      requires Valid()
      modifies this, bus
      ensures Valid() && socket == old(socket) && sockets == old(sockets)
      ensures State() == LiveClient.BumpFires(old(State()))
      ensures bus.emitted == old(bus.emitted) + [bus.n]
    {
      bumpTimer := None;
      bus.Bump();
    }

    method StableFires()
      requires Valid()
      modifies this
      ensures Valid() && socket == old(socket) && sockets == old(sockets)
      ensures State() == LiveClient.StableFires(old(State()))
    {
      stableTimer := None;
      backoff := BACKOFF_START;
    }

    method Disconnect()
      requires Valid()
      modifies this, socket
      ensures Valid() && socket == null && sockets == old(sockets)
      ensures State() == LiveClient.Disconnect(old(State()))
      ensures old(socket) != null ==> old(socket).closed
      ensures old(OneChannel()) ==> forall s :: s in sockets ==> !s.attached
    {
      stopped := true;
      connecting := false;
      reconnectTimer := None;
      bumpTimer := None;
      stableTimer := None;
      if socket != null {
        socket.attached := false;
        socket.closed := true;
        socket := null;
      }
      status := Offline;
    }
  }

  /**
   What becomes of a `connect()` while a reconnect is pending: the timer still fires and opens another socket, and
   from then on two sockets deliver frames to one service.
   */
  method ConnectTwice(bus: RefreshBus, first: LiveSocket, second: LiveSocket, third: LiveSocket)
    returns (live: LiveService)
    requires first != second && first != third && second != third
    requires !first.attached && !second.attached && !third.attached
    modifies first, second, third
    ensures fresh(live) && live.Valid() && live.socket == third
    ensures !first.attached && second.attached && third.attached
  {
    live := new LiveService(bus);
    live.Connect(0, 0, first);
    live.OnOpen(1);
    live.HandleDrop(2, 0);
    live.Connect(10, 0, second);
    assert Due(live.State().reconnectTimer, 502);
    live.ReconnectFires(502, 0, third);
  }
}
