/**
 The dispatcher never starves a row.  Rows due at some moment sort before everything planned later, every tick
 serves the first hundred, and every try uses up one of five attempts.
 */
module Fairness {
  import opened Notifications
  import opened Dispatcher
  import opened Sets

  /** Tries a row due by `due` still has ahead of it. */
  function Left(rows: map<nat, Row>, due: int, id: nat): nat {
    if IsDue(rows, due, id) && rows[id].attempts < MAX_ATTEMPTS then MAX_ATTEMPTS - rows[id].attempts else 0
  }

  /** The row ids below `n` that wait for delivery. */
  function Waiting(rows: map<nat, Row>, due: int, n: nat): set<nat> {
    set id: nat | id < n && Left(rows, due, id) > 0
  }

  function TotalLeft(rows: map<nat, Row>, due: int, n: nat): nat {
    if n == 0 then 0 else TotalLeft(rows, due, n - 1) + Left(rows, due, n - 1)
  }

  function MaxLeft(rows: map<nat, Row>, due: int, n: nat): (m: nat)
    ensures m <= MAX_ATTEMPTS
  {
    if n == 0 then 0
    else
      var m, l := MaxLeft(rows, due, n - 1), Left(rows, due, n - 1);
      if m < l then l else m
  }

  /** Ticks that certainly suffice for the ids below `n`. */
  function Quota(rows: map<nat, Row>, due: int, n: nat): nat {
    if |Waiting(rows, due, n)| >= PAGE_SIZE then TotalLeft(rows, due, n) / PAGE_SIZE + MAX_ATTEMPTS
    else MaxLeft(rows, due, n)
  }

  // ---------- Sums over ids ----------

  lemma WaitingStep(rows: map<nat, Row>, due: int, n: nat)
    requires n > 0
    ensures |Waiting(rows, due, n)| == |Waiting(rows, due, n - 1)| + if Left(rows, due, n - 1) > 0 then 1 else 0
  {
    assert Waiting(rows, due, n) ==
           Waiting(rows, due, n - 1) + if Left(rows, due, n - 1) > 0 then {n - 1} else {};
  }

  lemma {:induction false} TotalBetween(rows: map<nat, Row>, due: int, n: nat)
    ensures |Waiting(rows, due, n)| <= TotalLeft(rows, due, n) <= MAX_ATTEMPTS * |Waiting(rows, due, n)|
  {
    if n == 0 {
      assert Waiting(rows, due, 0) == {};
    } else {
      TotalBetween(rows, due, n - 1);
      WaitingStep(rows, due, n);
    }
  }

  /** Since `before`, every id in `served` has lost a try or is settled, and no id has gained one. */
  ghost predicate Advanced(before: map<nat, Row>, after: map<nat, Row>, due: int, n: nat, served: set<nat>) {
    forall id: nat :: id < n ==>
      Left(after, due, id) <= (if id in served && Left(before, due, id) > 0 then Left(before, due, id) - 1
                               else Left(before, due, id))
  }

  lemma ServedStep(rows: map<nat, Row>, due: int, n: nat, served: set<nat>)
    requires n > 0
    ensures |served * Waiting(rows, due, n)| ==
            |served * Waiting(rows, due, n - 1)| + if n - 1 in served && Left(rows, due, n - 1) > 0 then 1 else 0
  {
    var last := if n - 1 in served && Left(rows, due, n - 1) > 0 then {n - 1} else {};
    assert served * Waiting(rows, due, n) == served * Waiting(rows, due, n - 1) + last;
  }

  lemma LeftDrops(before: map<nat, Row>, after: map<nat, Row>, due: int, n: nat, served: set<nat>, id: nat)
    requires Advanced(before, after, due, n, served) && id < n
    ensures Left(after, due, id) + (if id in served && Left(before, due, id) > 0 then 1 else 0) <= Left(before, due, id)
  {}

  /** Serving `served` lowers the total by as much. */
  lemma {:induction false} TotalDrops(before: map<nat, Row>, after: map<nat, Row>,
                                      due: int, n: nat, served: set<nat>, m: nat)
    requires Advanced(before, after, due, m, served) && n <= m
    ensures TotalLeft(after, due, n) + |served * Waiting(before, due, n)| <= TotalLeft(before, due, n)
  {
    hide Advanced, Left;
    if n == 0 {
      assert served * Waiting(before, due, 0) == {};
    } else {
      TotalDrops(before, after, due, n - 1, served, m);
      ServedStep(before, due, n, served);
      LeftDrops(before, after, due, m, served, n - 1);
    }
  }

  lemma {:induction false} MaxDrops(before: map<nat, Row>, after: map<nat, Row>,
                                    due: int, n: nat, served: set<nat>, m: nat)
    requires Advanced(before, after, due, m, served) && n <= m
    ensures MaxLeft(after, due, n) <= MaxLeft(before, due, n)
    ensures Waiting(before, due, n) <= served && MaxLeft(before, due, n) > 0 ==>
              MaxLeft(after, due, n) < MaxLeft(before, due, n)
  {
    if n > 0 {
      MaxDrops(before, after, due, n - 1, served, m);
      assert Waiting(before, due, n - 1) <= Waiting(before, due, n);
      if Waiting(before, due, n) <= served && Left(before, due, n - 1) > 0 {
        assert n - 1 in Waiting(before, due, n);
      }
    }
  }

  lemma WaitingShrinks(before: map<nat, Row>, after: map<nat, Row>, due: int, n: nat, served: set<nat>)
    requires Advanced(before, after, due, n, served)
    ensures |Waiting(after, due, n)| <= |Waiting(before, due, n)|
  {
    forall id | id in Waiting(after, due, n) ensures id in Waiting(before, due, n) {}
    SubsetSize(Waiting(after, due, n), Waiting(before, due, n));
  }

  lemma DivStep(a: nat, b: nat)
    requires a + PAGE_SIZE <= b
    ensures a / PAGE_SIZE + 1 <= b / PAGE_SIZE
  {}

  lemma DivMonotone(a: nat, b: nat)
    requires a <= b
    ensures a / PAGE_SIZE <= b / PAGE_SIZE
  {}

  /** Nothing that happens outside a tick raises the quota. */
  lemma QuotaNeverRises(before: map<nat, Row>, after: map<nat, Row>, due: int, n: nat, served: set<nat>)
    requires Advanced(before, after, due, n, served)
    ensures Quota(after, due, n) <= Quota(before, due, n)
  {
    WaitingShrinks(before, after, due, n, served);
    MaxDrops(before, after, due, n, served, n);
    TotalDrops(before, after, due, n, served, n);
    DivMonotone(TotalLeft(after, due, n), TotalLeft(before, due, n));
  }

  // ---------- One tick ----------

  function Ids(page: seq<nat>): set<nat> {
    set i | 0 <= i < |page| :: page[i]
  }

  lemma {:induction false} IdsSize(page: seq<nat>)
    requires forall i, j :: 0 <= i < j < |page| ==> page[i] != page[j]
    ensures |Ids(page)| == |page|
  {
    if page == [] {
      assert Ids(page) == {};
    } else {
      var n := |page| - 1;
      IdsSize(page[..n]);
      assert Ids(page) == Ids(page[..n]) + {page[n]} by {
        forall id | id in Ids(page) ensures id in Ids(page[..n]) + {page[n]} {
          var i :| 0 <= i < |page| && page[i] == id;
          assert i < n ==> page[..n][i] == id;
        }
        forall id | id in Ids(page[..n]) ensures id in Ids(page) {
          var i :| 0 <= i < n && page[..n][i] == id;
          assert page[i] == id;
        }
      }
    }
  }

  /** Pending rows can still be tried, and rows from `n` on were planned for later than `due`. */
  ghost predicate Ordered(rows: map<nat, Row>, due: int, n: nat) {
    && (forall id :: id in rows && rows[id].sentAt.None? ==> rows[id].attempts < MAX_ATTEMPTS)
    && (forall id :: id in rows && id >= n ==> rows[id].key.fireAt > due)
  }

  /** A page either contains every waiting row or consists of a hundred of them. */
  lemma PageServesWaiting(rows: map<nat, Row>, now: int, page: seq<nat>, due: int, n: nat)
    requires IsPage(rows, now, page) && due <= now && Ordered(rows, due, n)
    ensures Waiting(rows, due, n) <= Ids(page) || (Ids(page) <= Waiting(rows, due, n) && |Ids(page)| == PAGE_SIZE)
  {
    if x :| x in Waiting(rows, due, n) && x !in Ids(page) {
      assert x !in page by {
        forall i | 0 <= i < |page| ensures page[i] != x {
          assert page[i] in Ids(page);
        }
      }
      assert IsDue(rows, now, x);
      IdsSize(page);
      forall id | id in Ids(page) ensures id in Waiting(rows, due, n) {
        var i :| 0 <= i < |page| && page[i] == id;
        assert rows[id].key.fireAt <= rows[x].key.fireAt;
      }
    }
  }

  /** A completed tick lowers the quota by at least one, until nobody waits. */
  lemma TickLowersQuota(before: map<nat, Row>, after: map<nat, Row>, now: int, page: seq<nat>, due: int, n: nat)
    requires IsPage(before, now, page) && due <= now && Ordered(before, due, n)
    requires Advanced(before, after, due, n, Ids(page))
    ensures Quota(before, due, n) > 0 ==> Quota(after, due, n) < Quota(before, due, n)
    ensures Quota(after, due, n) <= Quota(before, due, n)
  {
    var served, waiting := Ids(page), Waiting(before, due, n);
    QuotaNeverRises(before, after, due, n, served);
    PageServesWaiting(before, now, page, due, n);
    MaxDrops(before, after, due, n, served, n);
    WaitingShrinks(before, after, due, n, served);
    if |waiting| >= PAGE_SIZE {
      TotalDrops(before, after, due, n, served, n);
      TotalBetween(before, due, n);
      assert served * waiting == if waiting <= served then waiting else served;
      DivStep(TotalLeft(after, due, n), TotalLeft(before, due, n));
    } else if !(waiting <= served) {
      SubsetSize(served, waiting);
      assert false;
    }
  }

  // ---------- Runs ----------

  /** A tick completes when its snapshot is exhausted, at once if nothing was pending. */
  predicate CompletesTick(s: System, a: Action) {
    (a.StartTick? && a.page == []) || (a.TryNext? && |s.batch| == 1)
  }

  ghost function CompletedTicks(s: System, actions: seq<Action>): nat
    requires Run(s, actions, TIMELY)
    decreases actions
  {
    if actions == [] then 0
    else (if CompletesTick(s, actions[0]) then 1 else 0) + CompletedTicks(Next(s, actions[0]), actions[1..])
  }

  /** How far the current tick has come: its page, taken from `start`, is served up to position `k`. */
  datatype Progress = Progress(start: map<nat, Row>, startNow: int, page: seq<nat>, k: nat)

  ghost predicate InTick(s: System, due: int, n: nat, p: Progress) {
    && IsPage(p.start, p.startNow, p.page) && due <= p.startNow && Ordered(p.start, due, n)
    && p.k <= |p.page| && |s.batch| == |p.page| - p.k
    && (forall i :: 0 <= i < |s.batch| ==> s.batch[i].id == p.page[p.k + i])
    && Advanced(p.start, s.table.rows, due, n, Ids(p.page[..p.k]))
  }

  ghost predicate Steady(s: System, due: int, n: nat) {
    && QueueInv(s) && BatchInv(s) && OneRowPerKey(s)
    && due <= s.now && n <= s.table.nextId
    && (forall id :: id in s.table.rows && id >= n ==> s.table.rows[id].key.fireAt > due)
  }

  lemma SteadyStep(s: System, a: Action, due: int, n: nat)
    requires Steady(s, due, n) && Can(s, a) && Allowed(s, a, TIMELY)
    ensures Steady(Next(s, a), due, n)
  {
    StepKeeps(s, a);
    OneRowPerKeyStep(s, a);
    StepForward(s, a, 0);
    var t := Next(s, a);
    forall id | id in t.table.rows && id >= n ensures t.table.rows[id].key.fireAt > due {
      if a.Plan? {
        PlanIsAhead(s, a, id);
      }
    }
  }

  /** Every step other than a try leaves each row's remaining tries alone or settles it; a try serves its row. */
  lemma StepAdvances(s: System, a: Action, due: int, n: nat, id: nat)
    requires Steady(s, due, n) && Can(s, a) && Allowed(s, a, TIMELY) && id < n
    ensures Left(Next(s, a).table.rows, due, id) <=
            (if a.TryNext? && s.batch[0].id == id && Left(s.table.rows, due, id) > 0
             then Left(s.table.rows, due, id) - 1 else Left(s.table.rows, due, id))
  {
    if a.Plan? {
      PlanIsAhead(s, a, id);
      StepForward(s, a, id);
    }
  }

  lemma ServeNext(page: seq<nat>, k: nat)
    requires k < |page|
    ensures Ids(page[..k + 1]) == Ids(page[..k]) + {page[k]}
  {
    forall id | id in Ids(page[..k + 1]) ensures id in Ids(page[..k]) + {page[k]} {
      var i :| 0 <= i < k + 1 && page[..k + 1][i] == id;
      assert i < k ==> page[..k][i] == id;
    }
    forall id | id in Ids(page[..k]) ensures id in Ids(page[..k + 1]) {
      var i :| 0 <= i < k && page[..k][i] == id;
      assert page[..k + 1][i] == id;
    }
    assert page[..k + 1][k] == page[k];
  }

  lemma AdvancesFurther(s: System, a: Action, due: int, n: nat, start: map<nat, Row>, served: set<nat>)
    requires Steady(s, due, n) && Can(s, a) && Allowed(s, a, TIMELY)
    requires Advanced(start, s.table.rows, due, n, served)
    requires a.TryNext? ==> s.batch[0].id !in served
    ensures Advanced(start, Next(s, a).table.rows, due, n, if a.TryNext? then served + {s.batch[0].id} else served)
  {
    var t := Next(s, a);
    forall id: nat | id < n
      ensures Left(t.table.rows, due, id) <=
              (if a.TryNext? && s.batch[0].id == id && Left(s.table.rows, due, id) > 0
               then Left(s.table.rows, due, id) - 1 else Left(s.table.rows, due, id))
    {
      StepAdvances(s, a, due, n, id);
    }
  }

  lemma NotServedTwice(rows: map<nat, Row>, now: int, page: seq<nat>, k: nat)
    requires IsPage(rows, now, page) && k < |page|
    ensures page[k] !in Ids(page[..k])
  {
    forall i | 0 <= i < k ensures page[..k][i] != page[k] {}
  }

  /** One step inside a tick. */
  lemma InTickStep(s: System, a: Action, due: int, n: nat, p: Progress)
    requires Steady(s, due, n) && Can(s, a) && Allowed(s, a, TIMELY) && s.batch != [] && InTick(s, due, n, p)
    ensures InTick(Next(s, a), due, n, if a.TryNext? then p.(k := p.k + 1) else p)
  {
    hide Steady, Advanced, Ordered, IsPage, Ids;
    assert s.batch[0].id == p.page[p.k + 0];
    NotServedTwice(p.start, p.startNow, p.page, p.k);
    AdvancesFurther(s, a, due, n, p.start, Ids(p.page[..p.k]));
    if a.TryNext? {
      ServeNext(p.page, p.k);
      var t := Next(s, a);
      forall i | 0 <= i < |t.batch| ensures t.batch[i].id == p.page[p.k + 1 + i] {
        assert t.batch[i] == s.batch[i + 1];
      }
    }
  }

  lemma TickStarts(s: System, page: seq<nat>, due: int, n: nat)
    requires Steady(s, due, n) && Can(s, StartTick(page))
    ensures InTick(Next(s, StartTick(page)), due, n, Progress(s.table.rows, s.now, page, 0))
  {
    assert page[..0] == [] && Ids([]) == {};
  }

  /** At most `quota` more ticks are needed, counted from the start of the current tick if there is one. */
  ghost predicate Needs(s: System, due: int, n: nat, quota: nat, p: Progress) {
    && Steady(s, due, n)
    && if s.batch == [] then Quota(s.table.rows, due, n) <= quota
       else InTick(s, due, n, p) && Quota(p.start, due, n) <= quota
  }

  function Lowered(quota: nat, completes: bool): nat {
    if completes && quota > 0 then quota - 1 else quota
  }

  lemma NeedsInTick(s: System, a: Action, due: int, n: nat, quota: nat, p: Progress)
    requires Needs(s, due, n, quota, p) && s.batch != [] && Can(s, a) && Allowed(s, a, TIMELY)
    ensures Needs(Next(s, a), due, n, Lowered(quota, CompletesTick(s, a)), if a.TryNext? then p.(k := p.k + 1) else p)
  {
    hide Steady, Advanced, Quota;
    SteadyStep(s, a, due, n);
    InTickStep(s, a, due, n, p);
    var t := Next(s, a);
    if t.batch == [] {
      assert p.page[..p.k + 1] == p.page;
      TickLowersQuota(p.start, t.table.rows, p.startNow, p.page, due, n);
    }
  }

  lemma NeedsBetweenTicks(s: System, a: Action, due: int, n: nat, quota: nat, p: Progress)
    requires Needs(s, due, n, quota, p) && s.batch == [] && Can(s, a) && Allowed(s, a, TIMELY)
    ensures Needs(Next(s, a), due, n, Lowered(quota, CompletesTick(s, a)),
                  if a.StartTick? then Progress(s.table.rows, s.now, a.page, 0) else p)
  {
    hide Quota;
    SteadyStep(s, a, due, n);
    var t := Next(s, a);
    forall id: nat | id < n ensures Left(t.table.rows, due, id) <= Left(s.table.rows, due, id) {
      StepAdvances(s, a, due, n, id);
    }
    QuotaNeverRises(s.table.rows, t.table.rows, due, n, {});
    if a.StartTick? {
      TickStarts(s, a.page, due, n);
      if a.page == [] {
        assert a.page[..0] == a.page;
        TickLowersQuota(s.table.rows, t.table.rows, s.now, a.page, due, n);
      }
    }
  }

  /** The quota left after the completed ticks, by induction over the run. */
  lemma {:induction false} QuotaRun(s: System, actions: seq<Action>, due: int, n: nat, quota: nat, p: Progress)
    requires Needs(s, due, n, quota, p) && Run(s, actions, TIMELY)
    ensures CompletedTicks(s, actions) >= quota ==> Quota(Final(s, actions, TIMELY).table.rows, due, n) == 0
    decreases actions
  {
    hide Steady, Advanced, IsPage, Quota, CompletesTick;
    if actions == [] {
      if s.batch != [] {
        QuotaNeverRises(p.start, s.table.rows, due, n, Ids(p.page[..p.k]));
      }
    } else {
      var a := actions[0];
      var left := Lowered(quota, CompletesTick(s, a));
      if s.batch != [] {
        NeedsInTick(s, a, due, n, quota, p);
        QuotaRun(Next(s, a), actions[1..], due, n, left, if a.TryNext? then p.(k := p.k + 1) else p);
      } else {
        NeedsBetweenTicks(s, a, due, n, quota, p);
        QuotaRun(Next(s, a), actions[1..], due, n, left,
                 if a.StartTick? then Progress(s.table.rows, s.now, a.page, 0) else p);
      }
    }
  }

  lemma {:induction false} ZeroQuota(rows: map<nat, Row>, due: int, n: nat, id: nat)
    requires MaxLeft(rows, due, n) == 0 && id < n
    ensures Left(rows, due, id) == 0
  {
    if id < n - 1 {
      ZeroQuota(rows, due, n - 1, id);
    }
  }

  /** At the start, the quota is within the advertised number of ticks. */
  lemma QuotaAtStart(rows: map<nat, Row>, due: int, n: nat)
    ensures Quota(rows, due, n) <= |Waiting(rows, due, n)| / 20 + 5
  {
    TotalBetween(rows, due, n);
    DivMonotone(TotalLeft(rows, due, n), 5 * |Waiting(rows, due, n)|);
  }

  lemma DueAreWaiting(s: System)
    requires QueueInv(s)
    ensures (set i | i in s.table.rows && IsDue(s.table.rows, s.now, i)) == Waiting(s.table.rows, s.now, s.table.nextId)
  {}

  lemma SettledWhenQuotaIsZero(s: System, future: seq<Action>, id: nat)
    requires QueueInv(s) && BatchInv(s) && Run(s, future, TIMELY) && IsDue(s.table.rows, s.now, id)
    requires Quota(Final(s, future, TIMELY).table.rows, s.now, s.table.nextId) == 0
    ensures var t := Final(s, future, TIMELY); id !in t.table.rows || t.table.rows[id].sentAt.Some?
  {
    var t := Final(s, future, TIMELY);
    ZeroQuota(t.table.rows, s.now, s.table.nextId, id);
    RowsOnlyMoveForward(s, future, TIMELY, id);
    RunKeeps(s, future, TIMELY);
  }

  /**
   No starvation.  Take any moment between two ticks of any run with timely planning, and let N rows be due then.  After
   floor(N/20) + 5 more completed ticks, each of them is delivered, dead-lettered or deleted, whatever else is planned,
   edited or deleted meanwhile and however the tries go.
   */
  lemma NeverStarves(t0: int, past: seq<Action>, future: seq<Action>, id: nat)
    requires Run(Init(t0), past, TIMELY)
    requires var s := Final(Init(t0), past, TIMELY); s.batch == [] && Run(s, future, TIMELY)
    ensures var s := Final(Init(t0), past, TIMELY);
            var t := Final(s, future, TIMELY);
            var due := set i | i in s.table.rows && IsDue(s.table.rows, s.now, i);
            CompletedTicks(s, future) >= |due| / 20 + 5 && id in due ==>
              id !in t.table.rows || t.table.rows[id].sentAt.Some?
  {
    RunKeeps(Init(t0), past, TIMELY);
    OneRowPerKeyRun(Init(t0), past);
    var s := Final(Init(t0), past, TIMELY);
    var rows, n := s.table.rows, s.table.nextId;
    var due := set i | i in rows && IsDue(rows, s.now, i);
    DueAreWaiting(s);
    QuotaAtStart(rows, s.now, n);
    QuotaRun(s, future, s.now, n, Quota(rows, s.now, n), Progress(rows, s.now, [], 0));
    if CompletedTicks(s, future) >= |due| / 20 + 5 && id in due {
      SettledWhenQuotaIsZero(s, future, id);
    }
  }
}
