/**
 The live-update protocol end to end: mutation handlers, hub, write pumps, sockets and any number of
 browsers, interleaved step by step.

 A change is numbered by its commit.  Its handler then takes a revision (`Assign`) and only later
 offers the event to every registered client (`Enqueue`); between the two it is in flight.  If reading the saved
 rollout back fails, the handler returns without broadcasting (`Forget`).  A browser's
 link goes through accept and register on the server while the socket opens on the client, in either
 order.  A refetch is cancelled by the next one (`switchMap`), reads the database when it is served, and
 replaces the view when the answer arrives.
 */
module LiveProtocol {
  import L = LiveClient
  import Hub
  import Backlog

  datatype Phase = NoLink | Dialing | Accepted | Registered | Gone

  datatype Fetch = Idle | Requested | Served(version: nat)

  /** `queue` is the hub's buffer for this link, `wire` the frames written but not yet received. */
  datatype Peer = Peer(live: L.Client, phase: Phase, queue: seq<int>, wire: seq<int>, fetch: Fetch, view: nat)

  /**
   `db` counts commits; `waiting` are committed changes whose handler has not taken a revision yet;
   `revs` records which change each revision of this server process announces.
   */
  datatype System = System(
    now: nat,
    db: nat,
    waiting: set<nat>,
    rev: nat,
    revs: map<int, nat>,
    inflight: set<int>,
    peers: seq<Peer>)

  datatype PeerStep =
    | Connect(jitter: nat, ok: bool)
    | Accept
    | Register
    | Hangup
    | Pump
    | Open
    | Receive
    | Drop(jitter: nat)
    | Reconnect(jitter: nat, ok: bool)
    | BumpDue
    | StableDue
    | LocalBump
    | Serve
    | Respond
    | Disconnect

  datatype Action =
    | Tick(ms: nat)
    | Commit
    | Assign(change: nat)
    | Enqueue(r: int)
    | Forget(change: nat)
    | Restart
    | At(i: nat, step: PeerStep)

  // ---------- Steps ----------

  /** A new socket starts with empty buffers; without one there is no link. */
  function Redialed(p: Peer, live: L.Client): Peer {
    p.(live := live, phase := if live.socket then Dialing else NoLink, queue := [], wire := [])
  }

  predicate CanStep(now: nat, p: Peer, step: PeerStep) {
    match step
    case Connect(_, _) => p.live.status.Offline?
    case Accept => p.phase.Dialing?
    case Register => p.phase.Accepted?
    case Hangup => !p.phase.NoLink?
    case Pump => p.phase.Registered? && p.queue != []
    case Open => p.live.connecting && !p.phase.NoLink? && !p.phase.Dialing?
    case Receive => L.IsOpen(p.live) && p.wire != []
    case Drop(_) => p.live.socket
    case Reconnect(_, _) => L.Due(p.live.reconnectTimer, now)
    case BumpDue => L.Due(p.live.bumpTimer, now)
    case StableDue => L.Due(p.live.stableTimer, now)
    case LocalBump => true
    case Serve => p.fetch.Requested?
    case Respond => p.fetch.Served?
    case Disconnect => true
  }

  function NextPeer(now: nat, db: nat, p: Peer, step: PeerStep): Peer
    requires CanStep(now, p, step)
  {
    match step
    case Connect(jitter, ok) => Redialed(p, L.Connect(p.live, now, jitter, ok))
    case Accept => p.(phase := Accepted)
    case Register => p.(phase := Registered)
    case Hangup => p.(phase := Gone)
    case Pump => p.(queue := p.queue[1..], wire := p.wire + [p.queue[0]])
    case Open => p.(live := L.OnOpen(p.live, now))
    case Receive => p.(live := L.OnMessage(p.live, L.Numbered(p.wire[0]), now), wire := p.wire[1..])
    case Drop(jitter) => Redialed(p, L.HandleDrop(p.live, now, jitter))
    case Reconnect(jitter, ok) => Redialed(p, L.ReconnectFires(p.live, now, jitter, ok))
    case BumpDue => p.(live := L.BumpFires(p.live), fetch := Requested)
    case StableDue => p.(live := L.StableFires(p.live))
    case LocalBump => p.(live := p.live.(bumps := p.live.bumps + 1), fetch := Requested)
    case Serve => p.(fetch := Served(db))
    case Respond => p.(fetch := Idle, view := p.fetch.version)
    case Disconnect => Redialed(p, L.Disconnect(p.live))
  }

  function Offered(p: Peer, r: int): Peer {
    if p.phase.Registered? then p.(queue := Hub.Offer(p.queue, r)) else p
  }

  function Abandoned(p: Peer): Peer {
    if p.phase.NoLink? then p else p.(phase := Gone)
  }

  predicate Can(s: System, a: Action) {
    match a
    case Tick(_) => true
    case Commit => true
    case Assign(change) => change in s.waiting
    case Enqueue(r) => r in s.inflight
    case Forget(change) => change in s.waiting
    case Restart => true
    case At(i, step) => i < |s.peers| && CanStep(s.now, s.peers[i], step)
  }

  function Next(s: System, a: Action): System
    requires Can(s, a)
  {
    match a
    case Tick(ms) => s.(now := s.now + ms)
    case Commit => s.(db := s.db + 1, waiting := s.waiting + {s.db + 1})
    case Assign(change) =>
      s.(waiting := s.waiting - {change}, rev := s.rev + 1,
         revs := s.revs[s.rev + 1 := change], inflight := s.inflight + {s.rev + 1})
    case Enqueue(r) =>
      s.(inflight := s.inflight - {r},
         peers := seq(|s.peers|, i requires 0 <= i < |s.peers| => Offered(s.peers[i], r)))
    case Forget(change) => s.(waiting := s.waiting - {change})
    case Restart =>
      s.(waiting := {}, rev := 0, revs := map[], inflight := {},
         peers := seq(|s.peers|, i requires 0 <= i < |s.peers| => Abandoned(s.peers[i])))
    case At(i, step) => s.(peers := s.peers[i := NextPeer(s.now, s.db, s.peers[i], step)])
  }

  /** Every open view starts with a first fetch of its own. */
  const IDLE_PEER: Peer := Peer(L.INITIAL, NoLink, [], [], Requested, 0)

  function Init(n: nat): System {
    System(0, 0, {}, 0, map[], {}, seq(n, _ => IDLE_PEER))
  }

  // ---------- Runs ----------

  /**
   The catch-up refetch of a link that the browser already sees as open is served although the hub has
   not registered the link yet.  `websocket.Accept` precedes `Register`, so only the 150 ms debounce stands
   against this.
   */
  predicate ServedTooEarly(s: System, a: Action) {
    && a.At? && a.step.Serve? && a.i < |s.peers|
    && L.IsOpen(s.peers[a.i].live) && s.peers[a.i].phase.Accepted? && s.peers[a.i].live.bumpTimer.None?
  }

  /**
   At most `width` broadcasts are in flight at once; `early` tells whether too early serving may happen, and `silent`
   whether a handler may return after its commit without broadcasting.
   */
  datatype Discipline = Discipline(width: nat, early: bool, silent: bool)

  const SOUND: Discipline := Discipline(Hub.CLIENT_BUFFER, false, false)

  predicate Allowed(s: System, a: Action, d: Discipline) {
    && (a.Assign? ==> |s.inflight| < d.width)
    && (d.early || !ServedTooEarly(s, a))
    && (d.silent || !a.Forget?)
  }

  predicate Run(s: System, actions: seq<Action>, d: Discipline)
    decreases actions
  {
    actions == [] ||
    (&& Can(s, actions[0]) && Allowed(s, actions[0], d)
     && Run(Next(s, actions[0]), actions[1..], d))
  }

  function Final(s: System, actions: seq<Action>, d: Discipline): System
    requires Run(s, actions, d)
    decreases actions
  {
    if actions == [] then s else Final(Next(s, actions[0]), actions[1..], d)
  }

  // ---------- What must hold ----------

  /** The view contains change `k`, or a refetch that will contain it is certain. */
  ghost predicate Covered(p: Peer, k: nat) {
    || p.live.bumpTimer.Some?
    || p.fetch.Requested?
    || (p.fetch.Served? && k <= p.fetch.version)
    || k <= p.view
  }

  /** A frame the client will accept is queued or on the wire. */
  ghost predicate NewsUnderway(p: Peer) {
    exists i :: 0 <= i < |p.wire + p.queue| && (p.wire + p.queue)[i] > p.live.lastRev
  }

  /** The broadcast of change `k` has not reached its enqueue step. */
  ghost predicate Unannounced(s: System, k: nat) {
    k in s.waiting || exists r :: r in s.inflight && r in s.revs && s.revs[r] == k
  }

  ghost predicate Tracked(p: Peer) {
    p.phase.Registered? && L.IsOpen(p.live)
  }

  /** No committed change is lost on a live, registered client. */
  ghost predicate NoLostUpdate(s: System, p: Peer) {
    Tracked(p) ==>
      forall k :: 1 <= k <= s.db ==> Covered(p, k) || NewsUnderway(p) || Unannounced(s, k)
  }

  /** Every change announced up to the last accepted revision is covered, so stale frames may be ignored. */
  ghost predicate StaleFramesCovered(s: System, p: Peer) {
    Tracked(p) ==> forall r :: r in s.revs && r <= p.live.lastRev ==> Covered(p, s.revs[r])
  }

  // ---------- The invariant ----------

  function History(p: Peer): seq<int> {
    [p.live.lastRev] + (p.wire + p.queue)
  }

  ghost predicate Distinct(h: seq<int>) {
    forall i, j :: 0 <= i < j < |h| ==> h[i] != h[j]
  }

  ghost predicate GlobalInv(s: System) {
    && (forall r :: r in s.revs <==> 1 <= r <= s.rev)
    && (forall r :: r in s.revs ==> s.revs[r] <= s.db)
    && (forall r :: r in s.inflight ==> r in s.revs)
    && (forall k :: k in s.waiting ==> k <= s.db)
    && |s.inflight| <= Hub.CLIENT_BUFFER
  }

  /** Frames come from revisions of this process that were enqueued once, and their backlog is bounded. */
  ghost predicate PipeInv(s: System, h: seq<int>) {
    && (forall i :: 0 <= i < |h| ==> 0 <= h[i] <= s.rev && h[i] !in s.inflight)
    && Distinct(h)
    && Backlog.Bounded(h, s.inflight)
  }

  ghost predicate PeerInv(s: System, p: Peer) {
    && L.Healthy(p.live)
    && p.view <= s.db
    && (p.fetch.Served? ==> p.view <= p.fetch.version <= s.db)
    && (p.live.socket <==> !p.phase.NoLink?)
    && (p.phase.Dialing? ==> p.live.connecting)
    && (p.phase.Dialing? || p.phase.Accepted? ==> p.queue == [] && p.wire == [] && p.live.lastRev == 0)
    && (p.phase.Accepted? && L.IsOpen(p.live) ==> p.live.bumpTimer.Some? || p.fetch.Requested?)
    && (p.phase.Registered? ==> PipeInv(s, History(p)) && |p.queue| <= Hub.CLIENT_BUFFER)
    && NoLostUpdate(s, p)
    && StaleFramesCovered(s, p)
  }

  ghost predicate Inv(s: System) {
    GlobalInv(s) && forall i :: 0 <= i < |s.peers| ==> PeerInv(s, s.peers[i])
  }

  // ---------- Preservation ----------

  lemma EmptyBelow(xs: set<int>)
    requires forall r :: r in xs ==> r >= 1
    ensures Backlog.Bounded([0], xs)
  {
    assert Backlog.Below(xs, 0) == {};
  }

  lemma KeepsOnRegister(s: System, p: Peer)
    requires GlobalInv(s) && PeerInv(s, p) && p.phase.Accepted?
    ensures PeerInv(s, p.(phase := Registered))
  {
    var q := p.(phase := Registered);
    EmptyBelow(s.inflight);
    assert History(q) == [0];
    if L.IsOpen(p.live) {
      assert forall k :: Covered(q, k);
    }
  }

  lemma KeepsOnPump(s: System, p: Peer)
    requires PeerInv(s, p) && p.phase.Registered? && p.queue != []
    ensures PeerInv(s, p.(queue := p.queue[1..], wire := p.wire + [p.queue[0]]))
  {
    var q := p.(queue := p.queue[1..], wire := p.wire + [p.queue[0]]);
    assert q.wire + q.queue == p.wire + p.queue;
    assert forall k :: Covered(q, k) == Covered(p, k);
    if NewsUnderway(p) {
      var i :| 0 <= i < |p.wire + p.queue| && (p.wire + p.queue)[i] > p.live.lastRev;
      assert (q.wire + q.queue)[i] > q.live.lastRev;
    }
  }

  lemma PipeSkip(s: System, last: int, frame: int, rest: seq<int>)
    requires PipeInv(s, [last, frame] + rest)
    ensures PipeInv(s, [last] + rest) && PipeInv(s, [frame] + rest)
  {
    var h := [last, frame] + rest;
    Backlog.BoundedSkip(last, frame, rest, s.inflight);
    forall i | 0 <= i < |[last] + rest|
      ensures ([last] + rest)[i] == h[if i == 0 then 0 else i + 1]
      ensures ([frame] + rest)[i] == h[i + 1]
    {}
  }

  /** Ignoring a stale frame leaves the news that is still underway. */
  lemma StaleFrameIsNoNews(p: Peer, q: Peer)
    requires p.wire != [] && p.wire[0] <= p.live.lastRev && NewsUnderway(p)
    requires q.wire == p.wire[1..] && q.queue == p.queue && q.live.lastRev == p.live.lastRev
    ensures NewsUnderway(q)
  {
    var i :| 0 <= i < |p.wire + p.queue| && (p.wire + p.queue)[i] > p.live.lastRev;
    assert (q.wire + q.queue)[i - 1] > q.live.lastRev;
  }

  lemma KeepsOnReceive(s: System, now: nat, p: Peer)
    requires PeerInv(s, p) && L.IsOpen(p.live) && p.wire != []
    ensures PeerInv(s, p.(live := L.OnMessage(p.live, L.Numbered(p.wire[0]), now), wire := p.wire[1..]))
  {
    hide PipeInv;
    var q := p.(live := L.OnMessage(p.live, L.Numbered(p.wire[0]), now), wire := p.wire[1..]);
    var frame, rest := p.wire[0], q.wire + q.queue;
    assert p.wire + p.queue == [frame] + rest;
    if p.phase.Registered? {
      assert History(p) == [p.live.lastRev, frame] + rest;
      PipeSkip(s, p.live.lastRev, frame, rest);
      if frame > p.live.lastRev {
        assert forall k :: Covered(q, k);
      } else {
        assert forall k :: Covered(q, k) == Covered(p, k);
        if NewsUnderway(p) {
          StaleFrameIsNoNews(p, q);
        }
      }
    }
  }

  lemma KeepsOnRefetch(s: System, p: Peer, q: Peer)
    requires GlobalInv(s) && PeerInv(s, p)
    requires q == p.(fetch := Served(s.db)) || (p.fetch.Served? && q == p.(fetch := Idle, view := p.fetch.version))
    requires p.phase.Accepted? && L.IsOpen(p.live) ==> p.live.bumpTimer.Some? || q.fetch.Idle?
    ensures PeerInv(s, q)
  {
    assert NewsUnderway(p) ==> NewsUnderway(q);
    forall k | 1 <= k <= s.db && Covered(p, k) ensures Covered(q, k) {}
    forall r | r in s.revs && Covered(p, s.revs[r]) ensures Covered(q, s.revs[r]) {}
  }

  lemma PeerKeeps(s: System, p: Peer, step: PeerStep)
    requires GlobalInv(s) && PeerInv(s, p) && CanStep(s.now, p, step)
    requires step.Serve? && L.IsOpen(p.live) && p.phase.Accepted? ==> p.live.bumpTimer.Some?
    ensures PeerInv(s, NextPeer(s.now, s.db, p, step))
  {
    var q := NextPeer(s.now, s.db, p, step);
    match step
    case Register => KeepsOnRegister(s, p);
    case Pump => KeepsOnPump(s, p);
    case Receive => KeepsOnReceive(s, s.now, p);
    case Serve => KeepsOnRefetch(s, p, q);
    case Respond => KeepsOnRefetch(s, p, q);
    case Open => assert forall k :: Covered(q, k); assert History(q) == History(p);
    case BumpDue => assert forall k :: Covered(q, k); assert History(q) == History(p);
    case LocalBump => assert forall k :: Covered(q, k); assert History(q) == History(p);
    case StableDue =>
      assert forall k :: Covered(q, k) == Covered(p, k);
      assert History(q) == History(p);
      assert NewsUnderway(p) ==> NewsUnderway(q);
    case _ =>
  }

  /** While at most 32 broadcasts are in flight, a full buffer always holds a frame the client will accept. */
  lemma FullBufferIsNews(s: System, p: Peer)
    requires PipeInv(s, History(p)) && |p.queue| >= Hub.CLIENT_BUFFER
    ensures NewsUnderway(p)
  {
    forall j | 0 <= j < |p.queue| ensures p.queue[j] != p.live.lastRev {
      assert History(p)[0] != History(p)[1 + |p.wire| + j];
    }
    Backlog.FullBufferHasNews(p.live.lastRev, p.wire, p.queue, s.inflight);
    var f :| f in p.queue && f > p.live.lastRev;
    var j :| 0 <= j < |p.queue| && p.queue[j] == f;
    assert (p.wire + p.queue)[|p.wire| + j] > p.live.lastRev;
  }

  lemma EnqueueLosesNothing(s: System, r: int, p: Peer)
    requires GlobalInv(s) && PeerInv(s, p) && r in s.inflight && Tracked(p)
    ensures var t := s.(inflight := s.inflight - {r}); NoLostUpdate(t, Offered(p, r))
  {
    var t := s.(inflight := s.inflight - {r});
    var q := Offered(p, r);
    assert forall k :: Covered(q, k) == Covered(p, k);
    if |p.queue| < Hub.CLIENT_BUFFER {
      assert (q.wire + q.queue)[|p.wire + p.queue|] == r;
    } else {
      FullBufferIsNews(s, p);
    }
    if NewsUnderway(p) {
      var i :| 0 <= i < |p.wire + p.queue| && (p.wire + p.queue)[i] > p.live.lastRev;
      assert (q.wire + q.queue)[i] > q.live.lastRev;
    }
    forall k | 1 <= k <= s.db && !Unannounced(t, k)
      ensures Covered(q, k) || NewsUnderway(q)
    {
      if Unannounced(s, k) {
        assert s.revs[r] == k;
      }
    }
  }

  /** The enqueue step: kept, or dropped at a full buffer; either way nothing is lost. */
  lemma EnqueueKeeps(s: System, r: int, p: Peer)
    requires GlobalInv(s) && PeerInv(s, p) && r in s.inflight
    ensures var t := s.(inflight := s.inflight - {r}); PeerInv(t, Offered(p, r))
  {
    var t := s.(inflight := s.inflight - {r});
    var q := Offered(p, r);
    if p.phase.Registered? {
      if |p.queue| < Hub.CLIENT_BUFFER {
        Backlog.BoundedEnqueue(History(p), r, s.inflight);
        assert History(q) == History(p) + [r];
      } else {
        Backlog.BoundedFewer(History(p), s.inflight, t.inflight);
      }
      if L.IsOpen(p.live) {
        EnqueueLosesNothing(s, r, p);
      }
    }
  }

  lemma AssignAnnounces(s: System, change: nat, k: nat)
    requires GlobalInv(s) && change in s.waiting && Unannounced(s, k)
    ensures var t := s.(waiting := s.waiting - {change}, rev := s.rev + 1,
                        revs := s.revs[s.rev + 1 := change], inflight := s.inflight + {s.rev + 1});
            Unannounced(t, k)
  {
    var revs := s.revs[s.rev + 1 := change];
    if k == change {
      assert revs[s.rev + 1] == k;
    } else if k !in s.waiting {
      var r :| r in s.inflight && r in s.revs && s.revs[r] == k;
      assert revs[r] == k;
    }
  }

  lemma AssignKeeps(s: System, change: nat, p: Peer)
    requires GlobalInv(s) && PeerInv(s, p) && change in s.waiting
    ensures var t := s.(waiting := s.waiting - {change}, rev := s.rev + 1,
                        revs := s.revs[s.rev + 1 := change], inflight := s.inflight + {s.rev + 1});
            PeerInv(t, p)
  {
    var t := s.(waiting := s.waiting - {change}, rev := s.rev + 1,
                revs := s.revs[s.rev + 1 := change], inflight := s.inflight + {s.rev + 1});
    if p.phase.Registered? {
      Backlog.BoundedAssign(History(p), s.rev + 1, s.inflight);
      assert History(p)[0] == p.live.lastRev;
    }
    forall k | Unannounced(s, k) ensures Unannounced(t, k) {
      AssignAnnounces(s, change, k);
    }
  }

  lemma CommitKeeps(s: System, p: Peer)
    requires GlobalInv(s) && PeerInv(s, p)
    ensures PeerInv(s.(db := s.db + 1, waiting := s.waiting + {s.db + 1}), p)
  {
    var t := s.(db := s.db + 1, waiting := s.waiting + {s.db + 1});
    forall k | Unannounced(s, k) ensures Unannounced(t, k) {}
    assert Unannounced(t, s.db + 1);
  }

  /** A peer's invariant does not look at the other peers or the clock. */
  lemma SamePeerInv(s: System, t: System, p: Peer)
    requires PeerInv(s, p)
    requires t.db == s.db && t.waiting == s.waiting && t.rev == s.rev && t.revs == s.revs && t.inflight == s.inflight
    ensures PeerInv(t, p)
  {
    assert forall k :: Unannounced(s, k) == Unannounced(t, k);
  }

  lemma EnqueueStepKeeps(s: System, r: int)
    requires Inv(s) && r in s.inflight
    ensures Inv(Next(s, Enqueue(r)))
  {
    var t := Next(s, Enqueue(r));
    forall i | 0 <= i < |s.peers| ensures PeerInv(t, t.peers[i]) {
      EnqueueKeeps(s, r, s.peers[i]);
      SamePeerInv(s.(inflight := s.inflight - {r}), t, t.peers[i]);
    }
  }

  lemma AssignStepKeeps(s: System, change: nat)
    requires Inv(s) && change in s.waiting && |s.inflight| < Hub.CLIENT_BUFFER
    ensures Inv(Next(s, Assign(change)))
  {
    hide PeerInv;
    var t := Next(s, Assign(change));
    forall i | 0 <= i < |s.peers| ensures PeerInv(t, t.peers[i]) {
      AssignKeeps(s, change, s.peers[i]);
    }
  }

  lemma PeerStepKeeps(s: System, i: nat, step: PeerStep)
    requires Inv(s) && Can(s, At(i, step)) && !ServedTooEarly(s, At(i, step))
    ensures Inv(Next(s, At(i, step)))
  {
    var t := Next(s, At(i, step));
    PeerKeeps(s, s.peers[i], step);
    forall j | 0 <= j < |s.peers| ensures PeerInv(t, t.peers[j]) {
      SamePeerInv(s, t, t.peers[j]);
    }
  }

  lemma StepKeeps(s: System, a: Action)
    requires Inv(s) && Can(s, a) && Allowed(s, a, SOUND)
    ensures Inv(Next(s, a))
  {
    match a
    case Tick(_) =>
      forall i | 0 <= i < |s.peers| ensures PeerInv(Next(s, a), s.peers[i]) {
        SamePeerInv(s, Next(s, a), s.peers[i]);
      }
    case Commit =>
      forall i | 0 <= i < |s.peers| ensures PeerInv(Next(s, a), s.peers[i]) {
        CommitKeeps(s, s.peers[i]);
      }
    case Assign(change) => AssignStepKeeps(s, change);
    case Enqueue(r) => EnqueueStepKeeps(s, r);
    case Forget(_) => assert false;
    case Restart =>
    case At(i, step) => PeerStepKeeps(s, i, step);
  }

  lemma {:induction false} RunKeeps(s: System, actions: seq<Action>)
    requires Inv(s) && Run(s, actions, SOUND)
    ensures Inv(Final(s, actions, SOUND))
    decreases actions
  {
    if actions != [] {
      StepKeeps(s, actions[0]);
      RunKeeps(Next(s, actions[0]), actions[1..]);
    }
  }
}
