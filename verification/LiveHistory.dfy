/**
 The state of the client told from its history: every field is a function of the events so far, without any state in
 between.  The callbacks compute exactly this.
 */
module LiveHistory {
  import opened Options
  import opened LiveClient

  /** A reconnect has to be scheduled: a connection dropped, or the factory threw. */
  predicate Fails(e: Event) {
    e.Dropped? || (e.Start? && !e.ok) || (e.ReconnectDue? && !e.ok)
  }

  predicate Dials(e: Event) {
    e.Start? || e.ReconnectDue?
  }

  /** 500 ms doubled with every failure, at most four times. */
  function Delay(failures: nat): nat {
    if failures == 0 then 500
    else if failures == 1 then 1000
    else if failures == 2 then 2000
    else if failures == 3 then 4000
    else 8000
  }

  /** Failures since a connection last proved stable. */
  function Failures(es: seq<Event>): nat {
    if es == [] then 0
    else
      var n := |es| - 1;
      if es[n].StableDue? then 0 else Failures(es[..n]) + if Fails(es[n]) then 1 else 0
  }

  /** When the next attempt is due. */
  function RetryAt(es: seq<Event>): Option<nat> {
    if es == [] then None
    else
      var n := |es| - 1;
      if Fails(es[n]) then Some(es[n].now + Delay(Failures(es[..n])) + es[n].jitter)
      else if Dials(es[n]) || es[n].Stop? then None
      else RetryAt(es[..n])
  }

  /** When the connection opened that has not dropped or proved stable yet. */
  function OpenedAt(es: seq<Event>): Option<nat> {
    if es == [] then None
    else
      var n := |es| - 1;
      if es[n].Opened? then Some(es[n].now)
      else if es[n].Dropped? || es[n].StableDue? || es[n].Stop? then None
      else OpenedAt(es[..n])
  }

  predicate HasRev(e: Event) {
    e.Received? && e.frame.Numbered?
  }

  /** The highest revision received since the last attempt to connect. */
  function Highest(es: seq<Event>): int {
    if es == [] then 0
    else
      var n := |es| - 1;
      if Dials(es[n]) then 0
      else if HasRev(es[n]) && es[n].frame.rev > Highest(es[..n]) then es[n].frame.rev
      else Highest(es[..n])
  }

  /** When a refetch was last asked for that has not happened yet. */
  function AskedAt(es: seq<Event>): Option<nat> {
    if es == [] then None
    else
      var n := |es| - 1;
      if es[n].Opened? || (HasRev(es[n]) && es[n].frame.rev > Highest(es[..n])) then Some(es[n].now)
      else if es[n].BumpDue? || es[n].Stop? then None
      else AskedAt(es[..n])
  }

  function Refetches(es: seq<Event>): nat {
    if es == [] then 0 else Refetches(es[..|es| - 1]) + if es[|es| - 1].BumpDue? then 1 else 0
  }

  /** The indicator: the last of connect, open, drop and disconnect. */
  function Shown(es: seq<Event>): Status {
    if es == [] then Offline
    else
      var n := |es| - 1;
      match es[n]
      case Start(_, _, _) => Connecting
      case Opened(_) => Live
      case Dropped(_, _) => Reconnecting
      case Stop(_) => Offline
      case _ => Shown(es[..n])
  }

  predicate TornDown(es: seq<Event>) {
    es != [] && (es[|es| - 1].Stop? || (!es[|es| - 1].Start? && TornDown(es[..|es| - 1])))
  }

  function After150(t: Option<nat>): Option<nat> {
    if t.None? then None else Some(t.value + 150)
  }

  function After3000(t: Option<nat>): Option<nat> {
    if t.None? then None else Some(t.value + 3000)
  }

  /** The whole state, from the history alone. */
  function Told(es: seq<Event>): Client {
    var socket := !Shown(es).Offline? && RetryAt(es).None?;
    Client(socket, socket && !Shown(es).Live?, TornDown(es), Shown(es), Delay(Failures(es)), Highest(es),
           RetryAt(es), After150(AskedAt(es)), After3000(OpenedAt(es)), Refetches(es))
  }

  lemma {:induction false} TraceSnoc(c: Client, es: seq<Event>)
    requires Trace(c, es) && es != []
    ensures var n := |es| - 1;
            Trace(c, es[..n]) && Possible(After(c, es[..n]), es[n]) && After(c, es) == Step(After(c, es[..n]), es[n])
    decreases es
  {
    var n := |es| - 1;
    if n == 0 {
      assert es[1..] == [] && es[..0] == [];
      assert After(Step(c, es[0]), []) == Step(c, es[0]);
    } else {
      TraceSnoc(Step(c, es[0]), es[1..]);
      assert es[1..][..n - 1] == es[..n][1..];
    }
  }

  /** One more event. */
  lemma ToldStep(es: seq<Event>, e: Event)
    requires Healthy(Told(es)) && Possible(Told(es), e)
    ensures Step(Told(es), e) == Told(es + [e])
  {
    assert (es + [e])[..|es|] == es;
  }

  lemma NothingTold()
    ensures Told([]) == INITIAL
  {}

  lemma StartsHealthy()
    ensures Healthy(INITIAL)
  {}

  /**
   On every run the state is what the history tells.  In particular the backoff is 500 ms doubled once per failure since
   the last stable connection, at most four times, and back to 500 ms after a stable one; a reconnect timer is due
   exactly that backoff plus jitter after the failure that set it; a refetch is due 150 ms after it was last asked for;
   and a connection counts as stable after 3000 ms.
   */
  lemma {:induction false} StateIsHistory(es: seq<Event>)
    requires Trace(INITIAL, es)
    ensures After(INITIAL, es) == Told(es)
  {
    hide Step, Told, Possible, Healthy;
    if es == [] {
      NothingTold();
    } else {
      var n := |es| - 1;
      TraceSnoc(INITIAL, es);
      StateIsHistory(es[..n]);
      StartsHealthy();
      StaysHealthy(INITIAL, es[..n]);
      ToldStep(es[..n], es[n]);
      assert es[..n] + [es[n]] == es;
    }
  }

  /** The delay before a reconnect, on every run: determined by the failures since the last stable connection. */
  lemma RetryDelay(es: seq<Event>, e: Event)
    requires Trace(INITIAL, es + [e]) && Fails(e)
    ensures var c := After(INITIAL, es + [e]);
            && c.reconnectTimer == Some(e.now + Delay(Failures(es)) + e.jitter)
            && c.backoff == Delay(Failures(es) + 1)
            && 500 <= Delay(Failures(es)) <= 8000
  {
    StateIsHistory(es + [e]);
    assert (es + [e])[..|es|] == es;
  }

  lemma {:induction false} NoFailures(es: seq<Event>, quiet: seq<Event>)
    requires forall i :: 0 <= i < |quiet| ==> !Fails(quiet[i])
    ensures Failures(es + quiet) == Failures(es) || Failures(es + quiet) == 0
  {
    if quiet == [] {
      assert es + quiet == es;
    } else {
      var n := |quiet| - 1;
      NoFailures(es, quiet[..n]);
      assert (es + quiet)[..|es + quiet| - 1] == es + quiet[..n];
    }
  }

  lemma StableResets(es: seq<Event>, stable: Event)
    requires stable.StableDue?
    ensures Failures(es + [stable]) == 0
  {}

  /** Once a connection has proved stable, the next failure is retried after 500 ms plus jitter again. */
  lemma FastAgainAfterStable(es: seq<Event>, stable: Event, quiet: seq<Event>, e: Event)
    requires stable.StableDue? && Fails(e) && forall i :: 0 <= i < |quiet| ==> !Fails(quiet[i])
    requires Trace(INITIAL, es + [stable] + quiet + [e])
    ensures After(INITIAL, es + [stable] + quiet + [e]).reconnectTimer == Some(e.now + 500 + e.jitter)
  {
    hide Trace, After, Fails;
    NoFailures(es + [stable], quiet);
    StableResets(es, stable);
    RetryDelay(es + [stable] + quiet, e);
  }
}
