/**
 What the live-update protocol guarantees on every run, and exactly under which conditions.
 */
module LiveGuarantees {
  import opened LiveProtocol
  import L = LiveClient
  import Hub

  // ---------- Safety over all runs ----------

  lemma InitialInv(n: nat)
    ensures Inv(Init(n))
  {
    var s := Init(n);
    forall i | 0 <= i < |s.peers| ensures PeerInv(s, s.peers[i]) {
      assert s.peers[i] == IDLE_PEER;
    }
  }

  lemma {:induction false} PeersStay(s: System, actions: seq<Action>, d: Discipline)
    requires Run(s, actions, d)
    ensures |Final(s, actions, d).peers| == |s.peers|
    decreases actions
  {
    if actions != [] {
      PeersStay(Next(s, actions[0]), actions[1..], d);
    }
  }

  /**
   In every state reachable with at most 32 broadcasts in flight: if a live, registered client shows an older
   state than the database, then a bump or a refetch that will fix it is pending, or a frame it will
   accept is queued or on the wire, or a change it misses is still on its way to the enqueue step.  This
   holds although full buffers drop events and revisions overtake each other.
   */
  lemma NoUpdateIsLost(n: nat, actions: seq<Action>, i: nat)
    requires Run(Init(n), actions, SOUND) && i < n
    ensures var s := Final(Init(n), actions, SOUND);
            && i < |s.peers|
            && var p := s.peers[i];
            p.phase.Registered? && p.live.status.Live? && p.view < s.db ==>
              || p.live.bumpTimer.Some?
              || p.fetch.Requested?
              || (p.fetch.Served? && p.fetch.version == s.db)
              || (exists f :: f in p.wire + p.queue && f > p.live.lastRev)
              || Unannounced(s, s.db)
  {
    InitialInv(n);
    RunKeeps(Init(n), actions);
    PeersStay(Init(n), actions, SOUND);
    var s := Final(Init(n), actions, SOUND);
    var p := s.peers[i];
    if p.phase.Registered? && p.live.status.Live? && p.view < s.db {
      assert Covered(p, s.db) || NewsUnderway(p) || Unannounced(s, s.db);
      if NewsUnderway(p) {
        var j :| 0 <= j < |p.wire + p.queue| && (p.wire + p.queue)[j] > p.live.lastRev;
        assert (p.wire + p.queue)[j] in p.wire + p.queue;
      }
    }
  }

  /**
   Ignoring stale frames is safe: on every run, every revision up to the last one a client accepted announces
   a change that is already committed and that this client shows or is certain to refetch.
   */
  lemma StaleFramesAreSafe(n: nat, actions: seq<Action>, i: nat, r: int)
    requires Run(Init(n), actions, SOUND) && i < n
    ensures var s := Final(Init(n), actions, SOUND);
            && i < |s.peers|
            && var p := s.peers[i];
            Tracked(p) && 1 <= r <= p.live.lastRev ==> r in s.revs && s.revs[r] <= s.db && Covered(p, s.revs[r])
  {
    InitialInv(n);
    RunKeeps(Init(n), actions);
    PeersStay(Init(n), actions, SOUND);
    var s := Final(Init(n), actions, SOUND);
    var p := s.peers[i];
    if Tracked(p) {
      assert History(p)[0] == p.live.lastRev;
    }
  }

  // ---------- Convergence ----------

  /** Nothing is on its way to this client any more. */
  predicate Quiet(s: System, p: Peer) {
    && s.waiting == {} && s.inflight == {}
    && p.wire == [] && p.queue == [] && p.live.bumpTimer.None? && p.fetch.Idle?
  }

  /** Once the protocol has nothing left to do for a client, the client shows the database. */
  lemma QuietMeansUpToDate(s: System, p: Peer)
    requires GlobalInv(s) && PeerInv(s, p) && Tracked(p) && Quiet(s, p)
    ensures p.view == s.db
  {
    assert 1 <= s.db ==> Covered(p, s.db) || NewsUnderway(p) || Unannounced(s, s.db);
  }

  /** The steps the system takes on its own to settle, without new changes or connection trouble. */
  predicate Settles(a: Action) {
    || a.Assign? || a.Enqueue?
    || (a.At? && (a.step.Pump? || a.step.Receive? || a.step.BumpDue? || a.step.Serve? || a.step.Respond?))
  }

  function FetchWork(f: Fetch): nat {
    match f case Idle => 0 case Served(_) => 1 case Requested => 2
  }

  function PeerWork(p: Peer): nat {
    5 * |p.queue| + 4 * |p.wire| + (if p.live.bumpTimer.Some? then 3 else 0) + FetchWork(p.fetch)
  }

  function PeersWork(peers: seq<Peer>): nat {
    if peers == [] then 0 else PeerWork(peers[0]) + PeersWork(peers[1..])
  }

  /** A bound on the settling steps that are left. */
  function Work(s: System): nat {
    |s.waiting| * (5 * |s.peers| + 2) + |s.inflight| * (5 * |s.peers| + 1) + PeersWork(s.peers)
  }

  lemma {:induction false} PeersWorkUpdate(peers: seq<Peer>, i: nat, q: Peer)
    requires i < |peers|
    ensures PeersWork(peers[i := q]) == PeersWork(peers) - PeerWork(peers[i]) + PeerWork(q)
  {
    if i == 0 {
      assert peers[i := q][1..] == peers[1..];
    } else {
      assert peers[i := q][1..] == peers[1..][i - 1 := q];
      PeersWorkUpdate(peers[1..], i - 1, q);
    }
  }

  lemma {:induction false} PeersWorkOffered(peers: seq<Peer>, others: seq<Peer>, r: int)
    requires |peers| == |others| && forall i :: 0 <= i < |peers| ==> others[i] == Offered(peers[i], r)
    ensures PeersWork(others) <= PeersWork(peers) + 5 * |peers|
  {
    if peers != [] {
      PeersWorkOffered(peers[1..], others[1..], r);
    }
  }

  lemma Spread(w: int, f: int, n: int)
    ensures (w - 1) * (5 * n + 2) == w * (5 * n + 2) - (5 * n + 2)
    ensures (f + 1) * (5 * n + 1) == f * (5 * n + 1) + (5 * n + 1)
  {}

  lemma AssignUsesWork(s: System, change: nat)
    requires GlobalInv(s) && change in s.waiting
    ensures Work(Next(s, Assign(change))) < Work(s)
  {
    var t := Next(s, Assign(change));
    assert s.rev + 1 !in s.inflight;
    assert |t.inflight| == |s.inflight| + 1 && |t.waiting| == |s.waiting| - 1;
    Spread(|s.waiting|, |s.inflight|, |s.peers|);
  }

  lemma EnqueueUsesWork(s: System, r: int)
    requires r in s.inflight
    ensures Work(Next(s, Enqueue(r))) < Work(s)
  {
    var t := Next(s, Enqueue(r));
    PeersWorkOffered(s.peers, t.peers, r);
    assert |t.inflight| == |s.inflight| - 1 && |t.peers| == |s.peers|;
    Spread(|s.waiting|, |s.inflight| - 1, |s.peers|);
  }

  lemma PeerUsesWork(now: nat, db: nat, p: Peer, step: PeerStep)
    requires CanStep(now, p, step) && Settles(At(0, step))
    ensures PeerWork(NextPeer(now, db, p, step)) < PeerWork(p)
  {}

  /** Settling always ends: every settling step uses up part of a finite amount of work. */
  lemma SettlingTerminates(s: System, a: Action)
    requires GlobalInv(s) && Can(s, a) && Settles(a)
    ensures Work(Next(s, a)) < Work(s)
  {
    match a
    case Assign(change) => AssignUsesWork(s, change);
    case Enqueue(r) => EnqueueUsesWork(s, r);
    case At(i, step) =>
      PeerUsesWork(s.now, s.db, s.peers[i], step);
      PeersWorkUpdate(s.peers, i, NextPeer(s.now, s.db, s.peers[i], step));
  }

  lemma NoElements(xs: set<int>)
    requires forall x :: x !in xs
    ensures xs == {}
  {
    forall x: int ensures x in xs <==> x in {} {}
  }

  /** The settling steps that client `i` depends on. */
  predicate Concerns(a: Action, i: nat) {
    Settles(a) && (a.At? ==> a.i == i)
  }

  /** The step is possible after waiting `ms`, and within the discipline. */
  predicate Ready(s: System, ms: nat, a: Action) {
    Can(Next(s, Tick(ms)), a) && Allowed(Next(s, Tick(ms)), a, SOUND)
  }

  /** And it never gets stuck: a tracked client that is not quiet has a settling step, at the latest after a wait. */
  lemma SettlingNeverStuck(s: System, i: nat) returns (ms: nat, a: Action)
    requires i < |s.peers| && Tracked(s.peers[i]) && !Quiet(s, s.peers[i])
    ensures Concerns(a, i) && Ready(s, ms, a)
  {
    var p := s.peers[i];
    ms := 0;
    if forall r :: r !in s.inflight {
      NoElements(s.inflight);
    }
    if s.inflight != {} {
      var r :| r in s.inflight;
      a := Enqueue(r);
    } else if s.waiting != {} {
      var k :| k in s.waiting;
      a := Assign(k);
    } else if p.queue != [] {
      a := At(i, Pump);
    } else if p.wire != [] {
      a := At(i, Receive);
    } else if p.live.bumpTimer.Some? {
      ms := p.live.bumpTimer.value;
      a := At(i, BumpDue);
    } else if p.fetch.Requested? {
      a := At(i, Serve);
    } else {
      a := At(i, Respond);
    }
  }

  predicate OnlySettles(actions: seq<Action>) {
    forall j :: 0 <= j < |actions| ==> actions[j].Tick? || Settles(actions[j])
  }

  function SettlingSteps(actions: seq<Action>): nat {
    if actions == [] then 0 else (if Settles(actions[0]) then 1 else 0) + SettlingSteps(actions[1..])
  }

  lemma StepUsesWork(s: System, a: Action)
    requires Inv(s) && Can(s, a) && (a.Tick? || Settles(a))
    ensures Work(Next(s, a)) + (if Settles(a) then 1 else 0) <= Work(s)
  {
    if Settles(a) {
      SettlingTerminates(s, a);
    }
  }

  lemma {:induction false} SettlingIsFinite(s: System, actions: seq<Action>)
    requires Inv(s) && Run(s, actions, SOUND) && OnlySettles(actions)
    ensures SettlingSteps(actions) + Work(Final(s, actions, SOUND)) <= Work(s)
    decreases actions
  {
    hide Inv, Settles;
    if actions != [] {
      StepKeeps(s, actions[0]);
      StepUsesWork(s, actions[0]);
      SettlingIsFinite(Next(s, actions[0]), actions[1..]);
    }
  }

  /** Settling neither changes the database nor loses a link. */
  ghost predicate SameClients(s: System, t: System) {
    && t.db == s.db && |t.peers| == |s.peers|
    && forall i :: 0 <= i < |s.peers| ==> (Tracked(t.peers[i]) <==> Tracked(s.peers[i]))
  }

  lemma SettlingKeepsClients(s: System, a: Action)
    requires Can(s, a) && (Settles(a) || a.Tick?)
    ensures SameClients(s, Next(s, a))
  {}

  /** Every live, registered client shows exactly the database. */
  ghost predicate AllUpToDate(s: System) {
    forall i :: 0 <= i < |s.peers| && Tracked(s.peers[i]) ==> s.peers[i].view == s.db
  }

  lemma QuietSystemIsUpToDate(s: System)
    requires Inv(s) && forall i :: 0 <= i < |s.peers| && Tracked(s.peers[i]) ==> Quiet(s, s.peers[i])
    ensures AllUpToDate(s)
  {
    forall i | 0 <= i < |s.peers| && Tracked(s.peers[i]) ensures s.peers[i].view == s.db {
      QuietMeansUpToDate(s, s.peers[i]);
    }
  }

  lemma WaitThenStep(s: System, ms: nat, a: Action, rest: seq<Action>)
    requires Ready(s, ms, a)
    requires Run(Next(Next(s, Tick(ms)), a), rest, SOUND)
    ensures var actions := [Tick(ms), a] + rest;
            && Run(s, actions, SOUND)
            && Final(s, actions, SOUND) ==
               Final(Next(Next(s, Tick(ms)), a), rest, SOUND)
  {
    var actions := [Tick(ms), a] + rest;
    assert actions[1..] == [a] + rest && actions[1..][1..] == rest;
    assert Run(Next(s, Tick(ms)), actions[1..], SOUND);
  }

  /** From every state of the invariant the system can settle, and then every live client is up to date. */
  lemma {:induction false} CanSettle(s: System) returns (actions: seq<Action>)
    requires Inv(s)
    ensures Run(s, actions, SOUND) && OnlySettles(actions)
    ensures var t := Final(s, actions, SOUND);
            Inv(t) && SameClients(s, t) && AllUpToDate(t)
    decreases Work(s)
  {
    hide Inv, Tracked, Quiet;
    if i :| 0 <= i < |s.peers| && Tracked(s.peers[i]) && !Quiet(s, s.peers[i]) {
      var ms, a := SettlingNeverStuck(s, i);
      var waited := Next(s, Tick(ms));
      var stepped := Next(waited, a);
      StepKeeps(s, Tick(ms));
      StepKeeps(waited, a);
      SettlingTerminates(waited, a);
      SettlingKeepsClients(waited, a);
      var rest := CanSettle(stepped);
      actions := [Tick(ms), a] + rest;
      WaitThenStep(s, ms, a, rest);
    } else {
      actions := [];
      QuietSystemIsUpToDate(s);
    }
  }

  /** When no step that client `i` depends on is left, however long one waits, the client shows the database. */
  lemma SettledMeansUpToDate(s: System, i: nat)
    requires Inv(s) && i < |s.peers| && Tracked(s.peers[i])
    requires forall ms: nat, a :: Concerns(a, i) ==> !Ready(s, ms, a)
    ensures s.peers[i].view == s.db
  {
    if Quiet(s, s.peers[i]) {
      QuietMeansUpToDate(s, s.peers[i]);
    } else {
      var ms, a := SettlingNeverStuck(s, i);
    }
  }

  /**
   Eventual consistency.  Take any run of the whole system, and any settling after it, finished or not.  The settling
   steps are bounded in number by the work outstanding.  A live registered client for which no step is left shows
   exactly the database.  And the settling can be completed, whatever the order of its steps so far: a continuation
   exists after which every client that was live and registered shows exactly the database.
   */
  lemma EventuallyUpToDate(n: nat, actions: seq<Action>, settling: seq<Action>) returns (more: seq<Action>)
    requires Run(Init(n), actions, SOUND)
    requires var s := Final(Init(n), actions, SOUND);
             Run(s, settling, SOUND) && OnlySettles(settling)
    ensures var s := Final(Init(n), actions, SOUND);
            var t := Final(s, settling, SOUND);
            && SettlingSteps(settling) <= Work(s)
            && (forall i: nat :: i < |t.peers| && Tracked(t.peers[i])
                                 && (forall ms: nat, a :: Concerns(a, i) ==> !Ready(t, ms, a))
                                 ==> t.peers[i].view == t.db)
            && Run(t, more, SOUND) && OnlySettles(more)
            && var u := Final(t, more, SOUND);
            && SameClients(t, u) && AllUpToDate(u)
            && SettlingSteps(settling) + SettlingSteps(more) <= Work(s)
  {
    InitialInv(n);
    RunKeeps(Init(n), actions);
    var s := Final(Init(n), actions, SOUND);
    SettlingIsFinite(s, settling);
    RunKeeps(s, settling);
    var t := Final(s, settling, SOUND);
    forall i: nat | i < |t.peers| && Tracked(t.peers[i]) && (forall ms: nat, a :: Concerns(a, i) ==> !Ready(t, ms, a))
      ensures t.peers[i].view == t.db
    {
      SettledMeansUpToDate(t, i);
    }
    more := CanSettle(t);
    SettlingIsFinite(t, more);
  }

  // ---------- Exactly when ----------

  ghost predicate Reaches(s: System, t: System, d: Discipline) {
    exists actions :: Run(s, actions, d) && Final(s, actions, d) == t
  }

  /** The guarantee under a discipline: no run within it loses an update on any client. */
  ghost predicate Safe(d: Discipline) {
    forall n: nat, t: System :: Reaches(Init(n), t, d) ==>
      forall i :: 0 <= i < |t.peers| ==> NoLostUpdate(t, t.peers[i])
  }

  lemma ReachesSelf(s: System, d: Discipline)
    ensures Reaches(s, s, d)
  {
    assert Run(s, [], d) && Final(s, [], d) == s;
  }

  lemma {:induction false} RunThen(s: System, actions: seq<Action>, a: Action, d: Discipline)
    requires Run(s, actions, d)
    requires var t := Final(s, actions, d); Can(t, a) && Allowed(t, a, d)
    ensures Run(s, actions + [a], d)
    ensures Final(s, actions + [a], d) == Next(Final(s, actions, d), a)
    decreases actions
  {
    if actions == [] {
      assert actions + [a] == [a] && [a][1..] == [];
      assert Run(Next(s, a), [], d);
    } else {
      assert (actions + [a])[1..] == actions[1..] + [a];
      RunThen(Next(s, actions[0]), actions[1..], a, d);
    }
  }

  lemma ReachesNext(s: System, t: System, a: Action, d: Discipline)
    requires Reaches(s, t, d) && Can(t, a) && Allowed(t, a, d)
    ensures Reaches(s, Next(t, a), d)
  {
    var actions :| Run(s, actions, d) && Final(s, actions, d) == t;
    RunThen(s, actions, a, d);
  }

  /** The discipline allows no more than the sound one. */
  predicate Sound(d: Discipline) {
    d.width <= SOUND.width && !d.early && !d.silent
  }

  lemma {:induction false} RunIsSound(s: System, actions: seq<Action>, d: Discipline)
    requires Run(s, actions, d) && Sound(d)
    ensures Run(s, actions, SOUND)
    ensures Final(s, actions, SOUND) == Final(s, actions, d)
    decreases actions
  {
    if actions != [] {
      RunIsSound(Next(s, actions[0]), actions[1..], d);
    }
  }

  lemma SafeIfSound(d: Discipline)
    requires Sound(d)
    ensures Safe(d)
  {
    forall n: nat, t: System, i | Reaches(Init(n), t, d) && 0 <= i < |t.peers|
      ensures NoLostUpdate(t, t.peers[i])
    {
      var actions :| Run(Init(n), actions, d) && Final(Init(n), actions, d) == t;
      RunIsSound(Init(n), actions, d);
      InitialInv(n);
      RunKeeps(Init(n), actions);
      assert PeerInv(t, t.peers[i]);
    }
  }

  // One client, opened and registered at time 0.
  const OPENED: L.Client := L.OnOpen(L.Connect(L.INITIAL, 0, 0, true), 0)

  function Linked(phase: Phase): System {
    System(0, 0, {}, 0, map[], {}, [Peer(OPENED, phase, [], [], Requested, 0)])
  }

  /** One step of the only client. */
  lemma ClientMoves(t: System, step: PeerStep, q: Peer, d: Discipline)
    requires Reaches(Init(1), t, d) && |t.peers| == 1
    requires CanStep(t.now, t.peers[0], step) && q == NextPeer(t.now, t.db, t.peers[0], step)
    requires d.early || !ServedTooEarly(t, At(0, step))
    ensures Reaches(Init(1), t.(peers := [q]), d)
  {
    ReachesNext(Init(1), t, At(0, step), d);
    assert t.peers[0 := q] == [q];
  }

  lemma ReachesLinked(d: Discipline)
    ensures Reaches(Init(1), Linked(Accepted), d)
    ensures Reaches(Init(1), Linked(Registered), d)
  {
    var s := Init(1);
    assert s.peers == [IDLE_PEER];
    ReachesSelf(s, d);
    var dialed := IDLE_PEER.(live := L.Connect(L.INITIAL, 0, 0, true), phase := Dialing);
    ClientMoves(s, Connect(0, true), dialed, d);
    ClientMoves(s.(peers := [dialed]), Accept, dialed.(phase := Accepted), d);
    var p := Linked(Accepted).peers[0];
    ClientMoves(s.(peers := [dialed.(phase := Accepted)]), Open, p, d);
    ClientMoves(Linked(Accepted), Register, p.(phase := Registered), d);
  }

  predicate Within(lo: int, r: int, hi: int) {
    lo <= r <= hi
  }

  function Range(lo: int, hi: int): (s: set<int>)
    ensures forall r :: r in s <==> lo <= r <= hi
  {
    set r: int | lo <= r <= hi && Within(lo, r, hi)
  }

  lemma {:induction false} RangeSize(lo: int, hi: int)
    requires lo <= hi + 1
    ensures |Range(lo, hi)| == hi + 1 - lo
    decreases hi - lo
  {
    if lo == hi + 1 {
      assert Range(lo, hi) == {};
    } else {
      RangeSize(lo, hi - 1);
      assert Range(lo, hi) == Range(lo, hi - 1) + {hi};
    }
  }

  function Numbered(j: nat): map<int, nat> {
    map r | r in Range(1, j) :: r as nat
  }

  /** One change is committed and gets its revision. */
  lemma ChangePiles(t: System, d: Discipline)
    requires Reaches(Init(1), t, d) && t.db == t.rev && t.waiting == {}
    requires t.inflight <= Range(1, t.db) && |t.inflight| < d.width && t.revs == Numbered(t.db)
    ensures Reaches(Init(1), t.(db := t.db + 1, rev := t.db + 1, revs := Numbered(t.db + 1),
                                inflight := t.inflight + {t.db + 1}), d)
  {
    ReachesNext(Init(1), t, Commit, d);
    var u := Next(t, Commit);
    ReachesNext(Init(1), u, Assign(t.db + 1), d);
    var v := Next(u, Assign(t.db + 1));
    assert v.waiting == {};
    assert v.revs == Numbered(t.db + 1);
  }

  /** One revision reaches the only client's buffer, or is dropped. */
  lemma EventArrives(t: System, r: int, d: Discipline)
    requires Reaches(Init(1), t, d) && |t.peers| == 1 && r in t.inflight
    ensures Reaches(Init(1), t.(inflight := t.inflight - {r}, peers := [Offered(t.peers[0], r)]), d)
  {
    ReachesNext(Init(1), t, Enqueue(r), d);
    assert Next(t, Enqueue(r)).peers == [Offered(t.peers[0], r)];
  }

  // Changes 1..j committed and given revisions 1..j, all still in flight.
  function Piled(j: nat): System {
    Linked(Registered).(db := j, rev := j, revs := Numbered(j), inflight := Range(1, j))
  }

  lemma {:induction false} ReachesPiled(j: nat, d: Discipline)
    requires j <= d.width
    ensures Reaches(Init(1), Piled(j), d)
  {
    if j == 0 {
      ReachesLinked(d);
      assert Numbered(0) == map[] && Range(1, 0) == {};
    } else {
      ReachesPiled(j - 1, d);
      RangeSize(1, j - 1);
      assert Range(1, j) == Range(1, j - 1) + {j};
      ChangePiles(Piled(j - 1), d);
    }
  }

  // The newest of 33 is delivered and refetched first; then j of the 32 older ones are enqueued.
  const OVERTOOK: Peer := Peer(L.BumpFires(OPENED.(lastRev := 33)), Registered, [], [], Idle, 33)

  function Overtaken(j: nat): System {
    Piled(33).(now := 150, inflight := Range(j + 1, 32), peers := [OVERTOOK.(queue := seq(j, i => i + 1))])
  }

  lemma ReachesNewestAccepted(d: Discipline)
    requires d.width >= 33
    ensures var accepted := Peer(OPENED.(lastRev := 33), Registered, [], [], Requested, 0);
            Reaches(Init(1), Piled(33).(inflight := Range(1, 32), peers := [accepted]), d)
  {
    ReachesPiled(33, d);
    EventArrives(Piled(33), 33, d);
    assert Range(1, 33) - {33} == Range(1, 32);
    var s := Piled(33).(inflight := Range(1, 32));
    var p := s.peers[0];
    assert Offered(p, 33) == p.(queue := [33]);
    ClientMoves(s.(peers := [p.(queue := [33])]), Pump, p.(wire := [33]), d);
    ClientMoves(s.(peers := [p.(wire := [33])]), Receive, p.(live := OPENED.(lastRev := 33)), d);
  }

  lemma ReachesOvertakenStart(d: Discipline)
    requires d.width >= 33
    ensures Reaches(Init(1), Overtaken(0), d)
  {
    ReachesNewestAccepted(d);
    var p := Peer(OPENED.(lastRev := 33), Registered, [], [], Requested, 0);
    var s := Piled(33).(inflight := Range(1, 32), peers := [p]);
    ReachesNext(Init(1), s, Tick(150), d);
    var t := s.(now := 150);
    ClientMoves(t, BumpDue, p.(live := L.BumpFires(p.live)), d);
    ClientMoves(t.(peers := [p.(live := L.BumpFires(p.live))]), Serve,
                p.(live := L.BumpFires(p.live), fetch := Served(33)), d);
    ClientMoves(t.(peers := [p.(live := L.BumpFires(p.live), fetch := Served(33))]), Respond, OVERTOOK, d);
    assert OVERTOOK.(queue := seq(0, i => i + 1)) == OVERTOOK;
  }

  lemma {:induction false} ReachesOvertaken(j: nat, d: Discipline)
    requires d.width >= 33 && j <= 32
    ensures Reaches(Init(1), Overtaken(j), d)
  {
    if j == 0 {
      ReachesOvertakenStart(d);
    } else {
      ReachesOvertaken(j - 1, d);
      EventArrives(Overtaken(j - 1), j, d);
      assert Range(j, 32) - {j} == Range(j + 1, 32);
      assert seq(j - 1, i => i + 1) + [j] == seq(j, i => i + 1);
    }
  }

  /** With 33 broadcasts in flight a queue can fill with 32 stale frames while a fresh one is dropped. */
  lemma LostWith33InFlight(d: Discipline) returns (t: System)
    requires d.width >= 33
    ensures Reaches(Init(1), t, d)
    ensures |t.peers| == 1 && !NoLostUpdate(t, t.peers[0])
  {
    ReachesOvertaken(32, d);
    var s := Overtaken(32);
    ChangePiles(s, d);
    var u := s.(db := 34, rev := 34, revs := Numbered(34), inflight := s.inflight + {34});
    EventArrives(u, 34, d);
    var p := s.peers[0];
    assert Offered(p, 34) == p;
    t := u.(inflight := u.inflight - {34}, peers := [p]);
    assert !NewsUnderway(p);
    assert !Covered(p, 34) && !Unannounced(t, 34);
  }

  /** The client has made its catch-up refetch and is quiet, whether the hub knows it already or not. */
  lemma ReachesCaughtUp(phase: Phase, d: Discipline)
    requires phase.Registered? || (phase.Accepted? && d.early)
    ensures var p := Peer(L.BumpFires(OPENED), phase, [], [], Idle, 0);
            Reaches(Init(1), Linked(phase).(now := 150, peers := [p]), d)
  {
    ReachesLinked(d);
    ReachesNext(Init(1), Linked(phase), Tick(150), d);
    var s := Linked(phase).(now := 150);
    var p := Peer(L.BumpFires(OPENED), phase, [], [], Requested, 0);
    ClientMoves(s, BumpDue, p, d);
    ClientMoves(s.(peers := [p]), Serve, p.(fetch := Served(0)), d);
    ClientMoves(s.(peers := [p.(fetch := Served(0))]), Respond, p.(fetch := Idle), d);
  }

  /** A change announced between a too early catch-up refetch and the registration is lost as well. */
  lemma LostWhenServedTooEarly(d: Discipline) returns (t: System)
    requires d.width >= 1 && d.early
    ensures Reaches(Init(1), t, d)
    ensures |t.peers| == 1 && !NoLostUpdate(t, t.peers[0])
  {
    ReachesCaughtUp(Accepted, d);
    var p := Peer(L.BumpFires(OPENED), Accepted, [], [], Idle, 0);
    var s := Linked(Accepted).(now := 150, peers := [p]);
    assert Numbered(0) == map[];
    ChangePiles(s, d);
    var u := s.(db := 1, rev := 1, revs := Numbered(1), inflight := {1});
    assert s.inflight + {1} == {1} && u.inflight - {1} == {};
    EventArrives(u, 1, d);
    var q := p.(phase := Registered);
    ClientMoves(u.(inflight := {}), Register, q, d);
    t := u.(inflight := {}, peers := [q]);
    assert !Covered(q, 1) && !NewsUnderway(q) && !Unannounced(t, 1);
  }

  /** So is a change whose handler returns after the commit without broadcasting. */
  lemma LostWhenNeverAnnounced(d: Discipline) returns (t: System)
    requires d.silent
    ensures Reaches(Init(1), t, d)
    ensures |t.peers| == 1 && !NoLostUpdate(t, t.peers[0])
  {
    ReachesCaughtUp(Registered, d);
    var p := Peer(L.BumpFires(OPENED), Registered, [], [], Idle, 0);
    var s := Linked(Registered).(now := 150, peers := [p]);
    ReachesNext(Init(1), s, Commit, d);
    var u := s.(db := 1, waiting := {1});
    assert Next(s, Commit) == u && u.waiting - {1} == {};
    ReachesNext(Init(1), u, Forget(1), d);
    t := u.(waiting := {});
    assert Next(u, Forget(1)) == t;
    assert !Covered(p, 1) && !NewsUnderway(p) && !Unannounced(t, 1);
  }

  /**
   The claim that dropping events for slow clients is safe holds exactly when at most 32 broadcasts can be
   between taking a revision and enqueueing it, no catch-up refetch is served before its link is registered, and
   every committed change is broadcast.  (A width of 0 would mean that nothing is ever broadcast.)
   */
  lemma DroppingIsSafeIff(d: Discipline)
    requires d.width >= 1
    ensures Safe(d) <==> d.width <= 32 && !d.early && !d.silent
  {
    if Sound(d) {
      SafeIfSound(d);
    } else if d.early {
      var t := LostWhenServedTooEarly(d);
      assert !NoLostUpdate(t, t.peers[0]);
    } else if d.silent {
      var t := LostWhenNeverAnnounced(d);
      assert !NoLostUpdate(t, t.peers[0]);
    } else {
      var t := LostWith33InFlight(d);
      assert !NoLostUpdate(t, t.peers[0]);
    }
  }
}
