/**
 Clients that lost their link catch up: from every state the system can bring all of them back and then settle.
 */
module LiveRecovery {
  import opened LiveProtocol
  import opened LiveGuarantees
  import L = LiveClient

  /** The steps of coming back: notice the loss, dial again, be accepted, registered and opened. */
  predicate Relinks(step: PeerStep) {
    || step.Drop? || (step.Reconnect? && step.ok) || step.Accept? || step.Register? || step.Open?
  }

  /** Nothing but waiting, settling and coming back: no new changes, no further trouble, no user at work. */
  predicate Recovers(a: Action) {
    a.Tick? || Settles(a) || (a.At? && Relinks(a.step))
  }

  ghost predicate OnlyRecovers(actions: seq<Action>) {
    forall j :: 0 <= j < |actions| ==> Recovers(actions[j])
  }

  /** How many steps the client is away from a live, registered link. */
  function Distance(p: Peer): nat {
    match p.phase
    case Gone => 5
    case NoLink => 4
    case Dialing => 3
    case Accepted => if p.live.connecting then 2 else 1
    case Registered => if p.live.connecting then 1 else 0
  }

  /** The client is switched off, or live and registered. */
  predicate Back(p: Peer) {
    p.live.status.Offline? || (p.phase.Registered? && L.IsOpen(p.live))
  }

  function NextLink(p: Peer): PeerStep {
    match p.phase
    case Gone => Drop(0)
    case NoLink => Reconnect(0, true)
    case Dialing => Accept
    case Accepted => Register
    case Registered => Open
  }

  /** A client that is not back has a step that brings it closer, at the latest when its reconnect timer is due. */
  lemma LinkStep(s: System, p: Peer) returns (ms: nat)
    requires PeerInv(s, p) && !Back(p)
    ensures CanStep(s.now + ms, p, NextLink(p))
    ensures var q := NextPeer(s.now + ms, s.db, p, NextLink(p));
            Distance(q) < Distance(p) && !q.live.status.Offline?
  {
    ms := if p.live.reconnectTimer.Some? then p.live.reconnectTimer.value else 0;
  }

  /** Who is switched on, and the database, stay the same. */
  ghost predicate SameUsers(s: System, t: System) {
    && t.db == s.db && |t.peers| == |s.peers|
    && forall i :: 0 <= i < |s.peers| ==> (t.peers[i].live.status.Offline? <==> s.peers[i].live.status.Offline?)
  }

  lemma InvOf(s: System, k: nat)
    requires Inv(s) && k < |s.peers|
    ensures PeerInv(s, s.peers[k])
  {}

  lemma LinkIsReady(s: System, k: nat, ms: nat)
    requires k < |s.peers| && CanStep(s.now + ms, s.peers[k], NextLink(s.peers[k]))
    ensures Ready(s, ms, At(k, NextLink(s.peers[k]))) && Relinks(NextLink(s.peers[k]))
  {}

  /** Brings back the clients from `k` on, one after the other. */
  lemma {:induction false} BringBack(s: System, k: nat) returns (actions: seq<Action>)
    requires Inv(s) && k <= |s.peers| && forall i :: 0 <= i < k ==> Back(s.peers[i])
    ensures Run(s, actions, SOUND) && OnlyRecovers(actions)
    ensures var t := Final(s, actions, SOUND);
            Inv(t) && SameUsers(s, t) && forall i :: 0 <= i < |t.peers| ==> Back(t.peers[i])
    decreases |s.peers| - k, if k < |s.peers| then Distance(s.peers[k]) else 0
  {
    hide Inv, Distance, Back;
    if k == |s.peers| {
      actions := [];
    } else if Back(s.peers[k]) {
      actions := BringBack(s, k + 1);
    } else {
      InvOf(s, k);
      var ms := LinkStep(s, s.peers[k]);
      var a := At(k, NextLink(s.peers[k]));
      LinkIsReady(s, k, ms);
      StepKeeps(s, Tick(ms));
      StepKeeps(Next(s, Tick(ms)), a);
      var rest := BringBack(Next(Next(s, Tick(ms)), a), k);
      WaitThenStep(s, ms, a, rest);
      actions := [Tick(ms), a] + rest;
    }
  }

  lemma SettlingStepKeepsBack(s: System, a: Action)
    requires Can(s, a) && (a.Tick? || Settles(a)) && forall i :: 0 <= i < |s.peers| ==> Back(s.peers[i])
    ensures SameUsers(s, Next(s, a)) && forall i :: 0 <= i < |Next(s, a).peers| ==> Back(Next(s, a).peers[i])
  {}

  /** Settling leaves everyone's link and status alone. */
  lemma {:induction false} SettlingKeepsBack(s: System, actions: seq<Action>)
    requires Run(s, actions, SOUND) && OnlySettles(actions) && forall i :: 0 <= i < |s.peers| ==> Back(s.peers[i])
    ensures var t := Final(s, actions, SOUND);
            SameUsers(s, t) && forall i :: 0 <= i < |t.peers| ==> Back(t.peers[i])
    decreases actions
  {
    if actions != [] {
      SettlingStepKeepsBack(s, actions[0]);
      SettlingKeepsBack(Next(s, actions[0]), actions[1..]);
    }
  }

  lemma {:induction false} RunsConcatenate(s: System, first: seq<Action>, second: seq<Action>)
    requires Run(s, first, SOUND) && Run(Final(s, first, SOUND), second, SOUND)
    ensures Run(s, first + second, SOUND)
    ensures Final(s, first + second, SOUND) == Final(Final(s, first, SOUND), second, SOUND)
    decreases first
  {
    if first == [] {
      assert first + second == second;
    } else {
      assert (first + second)[1..] == first[1..] + second;
      RunsConcatenate(Next(s, first[0]), first[1..], second);
    }
  }

  /**
   A client that lost its link reconnects and catches up.  After any run of the whole system, with links lost in every
   possible way and the server restarted any number of times, the system can come back and settle: every client that is
   switched on is then live and registered again, and shows exactly the database.
   */
  lemma EveryoneCatchesUp(n: nat, past: seq<Action>) returns (actions: seq<Action>)
    requires Run(Init(n), past, SOUND)
    ensures var s := Final(Init(n), past, SOUND);
            && Run(s, actions, SOUND) && OnlyRecovers(actions)
            && var t := Final(s, actions, SOUND);
            && SameUsers(s, t)
            && forall i :: 0 <= i < |t.peers| && !t.peers[i].live.status.Offline? ==>
                 Tracked(t.peers[i]) && t.peers[i].view == t.db
  {
    InitialInv(n);
    RunKeeps(Init(n), past);
    var s := Final(Init(n), past, SOUND);
    var links := BringBack(s, 0);
    var t := Final(s, links, SOUND);
    var settling := CanSettle(t);
    SettlingKeepsBack(t, settling);
    RunsConcatenate(s, links, settling);
    actions := links + settling;
  }
}
