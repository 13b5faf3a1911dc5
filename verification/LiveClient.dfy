/**
 The browser half of the live-update channel: `LiveService` and `RefreshBus`.

 `Client` is the whole mutable state of the service as a value, and every callback of the
 service is a function on it.  The class `LiveService` (module LiveObjects) performs the same updates
 in place, on sockets with detachable handlers, and each of its methods computes its function.
 Time is integer milliseconds: `setTimeout` truncates its delay, so the random jitter contributes a
 whole number of milliseconds as well.
 */
module LiveClient {
  import opened Options

  const BACKOFF_START: nat := 500
  const BACKOFF_CAP: nat := 8000
  const DEBOUNCE_MS: nat := 150
  const STABLE_AFTER_MS: nat := 3000

  datatype Status = Connecting | Live | Reconnecting | Offline

  /** A text frame: either it carries a numeric `rev`, or it is not usable. */
  datatype Frame = Unusable | Numbered(rev: int)

  /** A timer holds the instant it is due; `bumps` is the counter of the refresh bus. */
  datatype Client = Client(
    socket: bool,
    connecting: bool,
    stopped: bool,
    status: Status,
    backoff: nat,
    lastRev: int,
    reconnectTimer: Option<nat>,
    bumpTimer: Option<nat>,
    stableTimer: Option<nat>,
    bumps: nat)

  const INITIAL: Client := Client(false, false, false, Offline, BACKOFF_START, 0, None, None, None, 0)

  function Min(a: nat, b: nat): nat {
    if a <= b then a else b
  }

  // ---------- The callbacks as functions ----------

  function ScheduleReconnect(c: Client, now: nat, jitter: nat): Client {
    if c.stopped || c.reconnectTimer.Some? then c
    else c.(reconnectTimer := Some(now + Min(c.backoff, BACKOFF_CAP) + jitter),
            backoff := Min(2 * c.backoff, BACKOFF_CAP))
  }

  /** `ok` is false when the socket factory throws. */
  function OpenSocket(c: Client, now: nat, jitter: nat, ok: bool): Client {
    var status := if c.status.Offline? then Connecting else c.status;
    if ok then c.(connecting := true, status := status, lastRev := 0, socket := true)
    else ScheduleReconnect(c.(connecting := false, status := status, lastRev := 0), now, jitter)
  }

  function Connect(c: Client, now: nat, jitter: nat, ok: bool): Client {
    if c.socket || c.connecting then c
    else OpenSocket(c.(stopped := false), now, jitter, ok)
  }

  function ScheduleBump(c: Client, now: nat): Client {
    c.(bumpTimer := Some(now + DEBOUNCE_MS))
  }

  function OnOpen(c: Client, now: nat): Client {
    ScheduleBump(c.(connecting := false, status := Live, stableTimer := Some(now + STABLE_AFTER_MS)), now)
  }

  function OnMessage(c: Client, frame: Frame, now: nat): Client {
    if frame.Unusable? || frame.rev <= c.lastRev then c
    else ScheduleBump(c.(lastRev := frame.rev), now)
  }

  function HandleDrop(c: Client, now: nat, jitter: nat): Client {
    var dropped := c.(connecting := false, socket := false, stableTimer := None);
    if c.stopped then dropped
    else ScheduleReconnect(dropped.(status := Reconnecting), now, jitter)
  }

  function Disconnect(c: Client): Client {
    c.(stopped := true, connecting := false, reconnectTimer := None, bumpTimer := None,
       stableTimer := None, socket := false, status := Offline)
  }

  function ReconnectFires(c: Client, now: nat, jitter: nat, ok: bool): Client {
    OpenSocket(c.(reconnectTimer := None), now, jitter, ok)
  }

  function BumpFires(c: Client): Client {
    c.(bumpTimer := None, bumps := c.bumps + 1)
  }

  function StableFires(c: Client): Client {
    c.(stableTimer := None, backoff := BACKOFF_START)
  }

  // ---------- The client never wedges ----------

  predicate BackoffStep(b: nat) {
    b == 500 || b == 1000 || b == 2000 || b == 4000 || b == 8000
  }

  /** The socket handshake has completed and the connection has not been dropped. */
  predicate IsOpen(c: Client) {
    c.socket && !c.connecting
  }

  /**
   Either fully off, or running with exactly one of a socket and a reconnect timer; the indicator
   says `Live` exactly while a connection is open.
   */
  predicate Healthy(c: Client) {
    && BackoffStep(c.backoff)
    && (c.status.Live? <==> IsOpen(c))
    && (c.connecting ==> c.socket && c.lastRev == 0)
    && (c.stableTimer.Some? ==> c.status.Live?)
    && if c.status.Offline?
       then !c.socket && c.reconnectTimer.None? && c.bumpTimer.None?
       else !c.stopped && (c.socket <==> c.reconnectTimer.None?)
  }

  datatype Event =
    | Start(now: nat, jitter: nat, ok: bool)
    | Opened(now: nat)
    | Received(now: nat, frame: Frame)
    | Dropped(now: nat, jitter: nat)
    | ReconnectDue(now: nat, jitter: nat, ok: bool)
    | BumpDue(now: nat)
    | StableDue(now: nat)
    | Stop(now: nat)

  predicate Due(timer: Option<nat>, now: nat) {
    timer.Some? && timer.value <= now
  }

  /**
   Socket events reach only the handlers of the current socket, a timer fires no earlier than its
   deadline, and `connect()` is called from the offline state, as the application initializer does.
   */
  predicate Possible(c: Client, e: Event) {
    match e
    case Start(_, _, _) => c.status.Offline?
    case Opened(_) => c.socket && c.connecting
    case Received(_, _) => IsOpen(c)
    case Dropped(_, _) => c.socket
    case ReconnectDue(now, _, _) => Due(c.reconnectTimer, now)
    case BumpDue(now) => Due(c.bumpTimer, now)
    case StableDue(now) => Due(c.stableTimer, now)
    case Stop(_) => true
  }

  function Step(c: Client, e: Event): Client {
    match e
    case Start(now, jitter, ok) => Connect(c, now, jitter, ok)
    case Opened(now) => OnOpen(c, now)
    case Received(now, frame) => OnMessage(c, frame, now)
    case Dropped(now, jitter) => HandleDrop(c, now, jitter)
    case ReconnectDue(now, jitter, ok) => ReconnectFires(c, now, jitter, ok)
    case BumpDue(_) => BumpFires(c)
    case StableDue(_) => StableFires(c)
    case Stop(_) => Disconnect(c)
  }

  predicate Trace(c: Client, es: seq<Event>)
    decreases es
  {
    es == [] || (Possible(c, es[0]) && Trace(Step(c, es[0]), es[1..]))
  }

  function After(c: Client, es: seq<Event>): Client
    decreases es
  {
    if es == [] then c else After(Step(c, es[0]), es[1..])
  }

  lemma {:induction false} StaysHealthy(c: Client, es: seq<Event>)
    requires Healthy(c) && Trace(c, es)
    ensures Healthy(After(c, es))
    decreases es
  {
    if es != [] {
      StaysHealthy(Step(c, es[0]), es[1..]);
    }
  }

  /**
   Between `connect()` and `disconnect()` every reachable state has exactly one of an open or opening
   socket and a pending reconnect timer; after `disconnect()` neither socket nor timer is left.
   */
  lemma NeverWedges(es: seq<Event>)
    requires Trace(INITIAL, es)
    ensures var c := After(INITIAL, es);
            && (!c.status.Offline? ==> c.socket != c.reconnectTimer.Some?)
            && (c.status.Live? <==> c.socket && !c.connecting)
            && (c.status.Offline? ==> !c.socket && c.reconnectTimer.None? && c.bumpTimer.None? && c.stableTimer.None?)
            && BackoffStep(c.backoff)
  {
    StaysHealthy(INITIAL, es);
  }

  /**
   `connect()` is documented as ignored when the channel is already up or opening.  It is not ignored
   while a reconnect is pending: it then opens a second channel.  It keeps the client healthy, whatever
   the socket factory does, exactly when no reconnect timer is pending.
   */
  lemma ConnectIsSafeIffNoTimer(c: Client)
    requires Healthy(c)
    ensures (forall now: nat, jitter: nat, ok: bool :: Healthy(Connect(c, now, jitter, ok)))
            <==> c.reconnectTimer.None?
  {
    if c.reconnectTimer.Some? {
      assert !Healthy(Connect(c, 0, 0, true));
    }
  }

  /** A concrete run: drop once, then call `connect()` before the timer: a socket and a timer coexist. */
  lemma ConnectWhileReconnecting() returns (c: Client)
    ensures exists es :: Trace(INITIAL, es) && c == After(INITIAL, es)
    ensures var d := Connect(c, 10, 0, true); d.socket && d.reconnectTimer.Some?
  {
    var es := [Start(0, 0, true), Opened(1), Dropped(2, 0)];
    var c1 := Step(INITIAL, es[0]);
    var c2 := Step(c1, es[1]);
    c := Step(c2, es[2]);
    assert es[1..] == [es[1], es[2]] && es[1..][1..] == [es[2]] && es[1..][1..][1..] == [];
    assert Trace(c, []) && After(c, []) == c;
    assert Trace(c2, [es[2]]) && After(c2, [es[2]]) == c;
    assert Trace(c1, es[1..]) && After(c1, es[1..]) == c;
    assert Trace(INITIAL, es) && After(INITIAL, es) == c;
  }

  /** `disconnect()` is final whatever state the client is in: even a drop reported afterwards starts nothing. */
  lemma LateDropIsIgnored(c: Client, now: nat, jitter: nat)
    ensures var d := HandleDrop(Disconnect(c), now, jitter);
            && d.status.Offline? && !d.socket && !d.connecting
            && d.reconnectTimer.None? && d.bumpTimer.None? && d.stableTimer.None?
  {}

  // ---------- Bursts collapse into one refetch ----------

  /** The event (re)arms the debounce: a connection opened, or a frame newer than any before arrived. */
  predicate Arms(c: Client, e: Event) {
    e.Opened? || (e.Received? && e.frame.Numbered? && e.frame.rev > c.lastRev)
  }

  /** When the debounce was last armed, unless it has fired or the channel was torn down since. */
  function ArmedAt(c: Client, es: seq<Event>, armed: Option<nat>): Option<nat>
    decreases es
  {
    if es == [] then armed
    else
      ArmedAt(Step(c, es[0]), es[1..],
              if Arms(c, es[0]) then Some(es[0].now) else if es[0].BumpDue? || es[0].Stop? then None else armed)
  }

  function Armings(c: Client, es: seq<Event>): nat
    decreases es
  {
    if es == [] then 0 else (if Arms(c, es[0]) then 1 else 0) + Armings(Step(c, es[0]), es[1..])
  }

  function DueAfter(armed: Option<nat>): Option<nat> {
    if armed.None? then None else Some(armed.value + DEBOUNCE_MS)
  }

  lemma {:induction false} DebounceRun(c: Client, es: seq<Event>, armed: Option<nat>)
    requires Trace(c, es) && c.bumpTimer == DueAfter(armed)
    ensures After(c, es).bumpTimer == DueAfter(ArmedAt(c, es, armed))
    ensures After(c, es).bumps + (if ArmedAt(c, es, armed).Some? then 1 else 0)
            <= c.bumps + Armings(c, es) + if armed.Some? then 1 else 0
    decreases es
  {
    if es != [] {
      var next := if Arms(c, es[0]) then Some(es[0].now) else if es[0].BumpDue? || es[0].Stop? then None else armed;
      DebounceRun(Step(c, es[0]), es[1..], next);
    }
  }

  /**
   Trailing debounce, on every run: a refetch can happen exactly when the last event that asked for one lies 150 ms
   or more in the past, and a burst of requests costs one refetch, so there are never more refetches than requests.
   */
  lemma DebounceIsTrailing(es: seq<Event>, now: nat)
    requires Trace(INITIAL, es)
    ensures var armed := ArmedAt(INITIAL, es, None);
            Possible(After(INITIAL, es), BumpDue(now)) <==> armed.Some? && armed.value + 150 <= now
    ensures After(INITIAL, es).bumps <= Armings(INITIAL, es)
  {
    DebounceRun(INITIAL, es, None);
  }

  // ---------- Reconnect storms are bounded ----------

  function Doubled(base: nat, times: nat): (r: nat)
    ensures base <= r
  {
    if times == 0 then base else 2 * Doubled(base, times - 1)
  }

  /** The backoff after `n` scheduled reconnects without a stable connection. */
  function BackoffAfter(n: nat): nat {
    if n <= 4 then Doubled(BACKOFF_START, n) else BACKOFF_CAP
  }

  /** The closed form of the earliest n-th reconnect, measured from the first drop. */
  function Earliest(n: nat): nat {
    if n <= 5 then Doubled(BACKOFF_START, n) - BACKOFF_START else 15500 + 8000 * (n - 5)
  }

  /** All events happen at or after `t`, in order. */
  predicate Chronological(es: seq<Event>, t: nat) {
    es == [] || (t <= es[0].now && Chronological(es[1..], es[0].now))
  }

  /**
   No connection lasts `STABLE_AFTER_MS`: whatever happens while the stability timer is running
   happens before its deadline.  (No `Start` or `Stop`: the storm is one uninterrupted outage.)
   */
  predicate ShortLived(c: Client, es: seq<Event>)
    decreases es
  {
    es == [] ||
    (&& (c.stableTimer.Some? ==> es[0].now < c.stableTimer.value)
     && !es[0].Start? && !es[0].Stop?
     && ShortLived(Step(c, es[0]), es[1..]))
  }

  function Reconnects(es: seq<Event>): nat {
    if es == [] then 0 else (if es[0].ReconnectDue? then 1 else 0) + Reconnects(es[1..])
  }

  /** `n` reconnects after a first drop at `t0`; earlier failures may have raised the backoff further. */
  predicate InStorm(c: Client, t0: nat, n: nat, now: nat) {
    && Healthy(c) && !c.status.Offline?
    && if c.reconnectTimer.Some?
       then c.backoff >= BackoffAfter(n + 1) && t0 + Earliest(n + 1) <= c.reconnectTimer.value
       else c.backoff >= BackoffAfter(n) && t0 + Earliest(n) <= now
  }

  lemma EarliestStep(n: nat)
    ensures Earliest(n + 1) == Earliest(n) + BackoffAfter(n)
    ensures BackoffAfter(n + 1) == Min(2 * BackoffAfter(n), BACKOFF_CAP)
    ensures BackoffAfter(n) <= BackoffAfter(n + 1) <= BACKOFF_CAP
  {
    assert Doubled(500, 1) == 1000 && Doubled(500, 2) == 2000 && Doubled(500, 3) == 4000;
    assert Doubled(500, 4) == 8000 && Doubled(500, 5) == 16000;
  }

  lemma StormStep(c: Client, e: Event, t0: nat, n: nat, now: nat)
    requires InStorm(c, t0, n, now) && Possible(c, e) && now <= e.now
    requires c.stableTimer.Some? ==> e.now < c.stableTimer.value
    requires !e.Start? && !e.Stop?
    ensures InStorm(Step(c, e), t0, if e.ReconnectDue? then n + 1 else n, e.now)
    ensures e.ReconnectDue? ==> t0 + Earliest(n + 1) <= e.now
  {
    hide Earliest, BackoffAfter;
    EarliestStep(n);
    EarliestStep(n + 1);
  }

  lemma {:induction false} StormRun(c: Client, es: seq<Event>, t0: nat, n: nat, now: nat)
    requires InStorm(c, t0, n, now)
    requires Trace(c, es) && Chronological(es, now) && ShortLived(c, es)
    ensures es != [] && es[|es| - 1].ReconnectDue? ==> t0 + Earliest(n + Reconnects(es)) <= es[|es| - 1].now
    decreases es
  {
    if es != [] {
      var m := if es[0].ReconnectDue? then n + 1 else n;
      StormStep(c, es[0], t0, n, now);
      StormRun(Step(c, es[0]), es[1..], t0, m, es[0].now);
      assert Reconnects(es) == m - n + Reconnects(es[1..]);
    }
  }

  /**
   Whatever happened before a drop: as long as no connection stays open for three seconds, the n-th reconnect
   after the drop happens at least 500*(2^n - 1) ms after it for n <= 5, and at least 15500 + 8000*(n - 5) ms
   after it beyond.
   */
  lemma ReconnectStormBounded(c: Client, jitter: nat, t0: nat, es: seq<Event>)
    requires Healthy(c) && c.socket
    requires var d := HandleDrop(c, t0, jitter); Trace(d, es) && ShortLived(d, es)
    requires Chronological(es, t0)
    requires es != [] && es[|es| - 1].ReconnectDue?
    ensures var n := Reconnects(es);
            es[|es| - 1].now - t0 >= if n <= 5 then Doubled(500, n) - 500 else 15500 + 8000 * (n - 5)
  {
    EarliestStep(0);
    StormRun(HandleDrop(c, t0, jitter), es, t0, 0, t0);
  }
}
