/**
 The notification queue as a whole: handlers that save, schedule and delete rollouts, interleaved with the
 dispatcher, which takes a snapshot of the pending rows and then tries them one by one.
 */
module Dispatcher {
  import opened Options
  import opened Schedule
  import opened Notifications

  datatype Pending = Pending(id: nat, key: Key)

  datatype Try = Try(id: nat, key: Key, ok: bool)

  /** `batch` is the rest of the current snapshot; `log` records every try made so far. */
  datatype System = System(now: int, rollouts: map<string, nat>, table: Table, batch: seq<Pending>, log: seq<Try>)

  datatype Action =
    | Clock(elapsed: nat)
    | Save(rollout: string, stages: nat)
    | Plan(rollout: string, stageList: seq<Stage>, readAt: int)
    | Delete(rollout: string)
    | StartTick(page: seq<nat>)
    | TryNext(error: string)

  function Init(t0: int): System {
    System(t0, map[], Table(map[], 0), [], [])
  }

  /**
   `Plan` uses a clock reading taken at or before the transaction.  A try may end in any way: what it looked up may have
   changed by the time it is marked.
   */
  ghost predicate Can(s: System, a: Action) {
    match a
    case Clock(_) => true
    case Save(_, _) => true
    case Plan(_, _, readAt) => readAt <= s.now
    case Delete(_) => true
    case StartTick(page) => s.batch == [] && IsPage(s.table.rows, s.now, page)
    case TryNext(_) => s.batch != []
  }

  function Planned(s: System, rollout: string, items: seq<Item>): Table {
    if rollout in s.rollouts || items == [] then Reschedule(s.table, rollout, items)
    else s.table.(nextId := s.table.nextId + 1)
  }

  ghost function Next(s: System, a: Action): System
    requires Can(s, a)
  {
    match a
    case Clock(elapsed) => s.(now := s.now + elapsed)
    case Save(rollout, stages) => s.(rollouts := s.rollouts[rollout := stages])
    case Plan(rollout, stages, readAt) => s.(table := Planned(s, rollout, Items(stages, readAt)))
    case Delete(rollout) =>
      s.(rollouts := map r | r in s.rollouts && r != rollout :: s.rollouts[r],
         table := s.table.(rows := DropRollout(s.table.rows, rollout)))
    case StartTick(page) =>
      s.(batch := seq(|page|, i requires 0 <= i < |page| => Pending(page[i], s.table.rows[page[i]].key)))
    case TryNext(error) =>
      s.(table := s.table.(rows := Mark(s.table.rows, s.batch[0].id, error, s.now)),
         batch := s.batch[1..],
         log := s.log + [Try(s.batch[0].id, s.batch[0].key, error == "")])
  }

  /** All items of a plan are still ahead when it commits, however long ago the clock was read. */
  const TIMELY: Option<nat> := Some(0)

  /** How late a plan may commit: none of its items has been due for `overdue` or longer; None for no limit. */
  predicate Allowed(s: System, a: Action, overdue: Option<nat>) {
    a.Plan? && overdue.Some? ==>
      forall item :: item in Items(a.stageList, a.readAt) ==> s.now < item.fireAt + overdue.value
  }

  /** A plan is timely exactly if no window of its stages opened, and no catch-up fell due, since the clock was read. */
  lemma TimelyIff(s: System, a: Action)
    requires a.Plan?
    ensures Allowed(s, a, TIMELY) <==>
            forall i :: 0 <= i < |a.stageList| ==> KeepsAhead(a.stageList[i], a.readAt, s.now)
  {
    StillAheadIff(a.stageList, a.readAt, s.now);
  }

  ghost predicate Run(s: System, actions: seq<Action>, overdue: Option<nat>)
    decreases actions
  {
    actions == [] || (Can(s, actions[0]) && Allowed(s, actions[0], overdue) &&
      Run(Next(s, actions[0]), actions[1..], overdue))
  }

  ghost function Final(s: System, actions: seq<Action>, overdue: Option<nat>): System
    requires Run(s, actions, overdue)
    decreases actions
  {
    if actions == [] then s else Final(Next(s, actions[0]), actions[1..], overdue)
  }

  // ---------- Attempts ----------

  function Tries(log: seq<Try>, id: nat): nat {
    if log == [] then 0
    else var n := |log| - 1; Tries(log[..n], id) + if log[n].id == id then 1 else 0
  }

  function Wins(log: seq<Try>, id: nat): nat {
    if log == [] then 0
    else var n := |log| - 1; Wins(log[..n], id) + if log[n].id == id && log[n].ok then 1 else 0
  }

  lemma LogGrows(log: seq<Try>, e: Try, id: nat)
    ensures Tries(log + [e], id) == Tries(log, id) + if e.id == id then 1 else 0
    ensures Wins(log + [e], id) == Wins(log, id) + if e.id == id && e.ok then 1 else 0
  {
    assert (log + [e])[..|log|] == log;
  }

  /** A pending row has been tried exactly `attempts` times, all in vain, and may be tried again. */
  ghost predicate PendingRow(log: seq<Try>, id: nat, row: Row) {
    row.attempts < MAX_ATTEMPTS && Tries(log, id) == row.attempts && Wins(log, id) == 0
  }

  ghost predicate QueueInv(s: System) {
    && WellFormed(s.table)
    && (forall id :: id in s.table.rows && s.table.rows[id].sentAt.None? ==> PendingRow(s.log, id, s.table.rows[id]))
    && (forall id :: Tries(s.log, id) <= MAX_ATTEMPTS && Wins(s.log, id) <= 1)
    && (forall id :: id >= s.table.nextId ==> Tries(s.log, id) == 0 && Wins(s.log, id) == 0)
  }

  ghost predicate BatchInv(s: System) {
    && (forall i, j :: 0 <= i < j < |s.batch| ==> s.batch[i].id != s.batch[j].id)
    && (forall i :: 0 <= i < |s.batch| ==>
          && s.batch[i].id < s.table.nextId
          && Tries(s.log, s.batch[i].id) < MAX_ATTEMPTS && Wins(s.log, s.batch[i].id) == 0
          && (s.batch[i].id in s.table.rows ==>
                s.table.rows[s.batch[i].id].sentAt.None? && s.table.rows[s.batch[i].id].key == s.batch[i].key))
  }

  lemma PlanKeeps(s: System, a: Action)
    requires QueueInv(s) && BatchInv(s) && Can(s, a) && a.Plan?
    ensures QueueInv(Next(s, a)) && BatchInv(Next(s, a))
  {
    var items := Items(a.stageList, a.readAt);
    RescheduleExactly(s.table, a.rollout, items);
    InsertAllFacts(s.table.(rows := DropUnsent(s.table.rows, a.rollout)), a.rollout, items);
  }

  lemma TryKeeps(s: System, a: Action)
    requires QueueInv(s) && BatchInv(s) && Can(s, a) && a.TryNext?
    ensures QueueInv(Next(s, a)) && BatchInv(Next(s, a))
  {
    hide Tries, Wins;
    var e := s.batch[0];
    forall id ensures Tries(Next(s, a).log, id) == Tries(s.log, id) + if e.id == id then 1 else 0
              ensures Wins(Next(s, a).log, id) == Wins(s.log, id) + if e.id == id && a.error == "" then 1 else 0
    {
      LogGrows(s.log, Try(e.id, e.key, a.error == ""), id);
    }
  }

  lemma StartTickKeeps(s: System, a: Action)
    requires QueueInv(s) && Can(s, a) && a.StartTick?
    ensures QueueInv(Next(s, a)) && BatchInv(Next(s, a))
  {}

  lemma StepKeeps(s: System, a: Action)
    requires QueueInv(s) && BatchInv(s) && Can(s, a)
    ensures QueueInv(Next(s, a)) && BatchInv(Next(s, a))
  {
    match a
    case Plan(_, _, _) => PlanKeeps(s, a);
    case TryNext(_) => TryKeeps(s, a);
    case StartTick(_) => StartTickKeeps(s, a);
    case _ =>
  }

  lemma {:induction false} RunKeeps(s: System, actions: seq<Action>, overdue: Option<nat>)
    requires QueueInv(s) && BatchInv(s) && Run(s, actions, overdue)
    ensures QueueInv(Final(s, actions, overdue)) && BatchInv(Final(s, actions, overdue))
    decreases actions
  {
    if actions != [] {
      StepKeeps(s, actions[0]);
      RunKeeps(Next(s, actions[0]), actions[1..], overdue);
    }
  }

  /**
   Over every interleaving of dispatch, planning and deletion, however late plans commit: pending rows have at most four
   attempts, no row is tried more than five times, and none succeeds twice.
   */
  lemma AttemptsAreBounded(t0: int, actions: seq<Action>, overdue: Option<nat>, id: nat)
    requires Run(Init(t0), actions, overdue)
    ensures var s := Final(Init(t0), actions, overdue);
            && (id in s.table.rows && s.table.rows[id].sentAt.None? ==> s.table.rows[id].attempts <= 4)
            && Tries(s.log, id) <= 5
            && Wins(s.log, id) <= 1
  {
    RunKeeps(Init(t0), actions, overdue);
  }

  // ---------- Rows only move forward ----------

  /** What a row id may become: it is never reused, its key is fixed, and a sent row is frozen until it is deleted. */
  ghost predicate Forward(t: Table, u: Table, id: nat) {
    && t.nextId <= u.nextId
    && (id < t.nextId && id !in t.rows ==> id !in u.rows)
    && (id in t.rows && id in u.rows ==>
          && u.rows[id].key == t.rows[id].key
          && t.rows[id].attempts <= u.rows[id].attempts
          && (t.rows[id].sentAt.Some? ==> u.rows[id] == t.rows[id]))
  }

  lemma StepForward(s: System, a: Action, id: nat)
    requires QueueInv(s) && Can(s, a)
    ensures Forward(s.table, Next(s, a).table, id)
  {
    if a.Plan? {
      var items := Items(a.stageList, a.readAt);
      RescheduleExactly(s.table, a.rollout, items);
      InsertAllFacts(s.table.(rows := DropUnsent(s.table.rows, a.rollout)), a.rollout, items);
    }
  }

  lemma {:induction false} RowsOnlyMoveForward(s: System, actions: seq<Action>, overdue: Option<nat>, id: nat)
    requires QueueInv(s) && BatchInv(s) && Run(s, actions, overdue) && id < s.table.nextId
    ensures Forward(s.table, Final(s, actions, overdue).table, id)
    decreases actions
  {
    if actions != [] {
      var t := Next(s, actions[0]);
      StepKeeps(s, actions[0]);
      StepForward(s, actions[0], id);
      RowsOnlyMoveForward(t, actions[1..], overdue, id);
    }
  }

  /** A try of a row that was deleted meanwhile changes no row, in particular not the one inserted in its place. */
  lemma StaleTryIsHarmless(s: System, error: string)
    requires Can(s, TryNext(error)) && s.batch[0].id !in s.table.rows
    ensures Next(s, TryNext(error)).table == s.table
  {}

  // ---------- At most one announcement per key ----------

  function KeyWins(log: seq<Try>, key: Key): nat {
    if log == [] then 0
    else var n := |log| - 1; KeyWins(log[..n], key) + if log[n].key == key && log[n].ok then 1 else 0
  }

  /** Everything ever tried or about to be tried is due, and equal keys belong to one and the same row. */
  ghost predicate OneRowPerKey(s: System) {
    && (forall i :: 0 <= i < |s.log| ==> s.log[i].key.fireAt <= s.now)
    && (forall i :: 0 <= i < |s.batch| ==> s.batch[i].key.fireAt <= s.now)
    && (forall id :: id in s.table.rows && s.table.rows[id].sentAt.Some? ==> s.table.rows[id].key.fireAt <= s.now)
    && (forall i, j :: 0 <= i < |s.log| && 0 <= j < |s.log| && s.log[i].key == s.log[j].key ==>
          s.log[i].id == s.log[j].id)
    && (forall i, j :: 0 <= i < |s.log| && 0 <= j < |s.batch| && s.log[i].key == s.batch[j].key ==>
          s.log[i].id == s.batch[j].id)
    && (forall i, j :: 0 <= i < |s.batch| && 0 <= j < |s.batch| && s.batch[i].key == s.batch[j].key ==>
          s.batch[i].id == s.batch[j].id)
    && (forall i, id :: 0 <= i < |s.log| && id in s.table.rows && s.log[i].key == s.table.rows[id].key ==>
          s.log[i].id == id)
    && (forall i, id :: 0 <= i < |s.batch| && id in s.table.rows && s.batch[i].key == s.table.rows[id].key ==>
          s.batch[i].id == id)
  }

  lemma PlanIsAhead(s: System, a: Action, id: nat)
    requires QueueInv(s) && Can(s, a) && a.Plan? && Allowed(s, a, TIMELY)
    ensures var u := Next(s, a).table;
            id in u.rows && id !in s.table.rows ==> u.rows[id].key.fireAt > s.now && u.rows[id].sentAt.None?
    ensures var u := Next(s, a).table;
            id in u.rows && id in s.table.rows ==> u.rows[id] == s.table.rows[id]
  {
    var items := Items(a.stageList, a.readAt);
    var d := s.table.(rows := DropUnsent(s.table.rows, a.rollout));
    RescheduleExactly(s.table, a.rollout, items);
    InsertAllFacts(d, a.rollout, items);
    var u := Next(s, a).table;
    if id in u.rows && id !in s.table.rows {
      var i :| 0 <= i < |items| && KeyOf(a.rollout, items[i]) == u.rows[id].key;
      assert items[i] in items;
    }
  }

  lemma OneRowPerKeyPlan(s: System, a: Action)
    requires QueueInv(s) && OneRowPerKey(s) && Can(s, a) && a.Plan? && Allowed(s, a, TIMELY)
    ensures OneRowPerKey(Next(s, a))
  {
    var t := Next(s, a);
    forall id | id in t.table.rows
      ensures if id in s.table.rows then t.table.rows[id] == s.table.rows[id]
              else t.table.rows[id].key.fireAt > s.now && t.table.rows[id].sentAt.None?
    {
      PlanIsAhead(s, a, id);
    }
  }

  lemma OneRowPerKeyTry(s: System, a: Action)
    requires BatchInv(s) && OneRowPerKey(s) && Can(s, a) && a.TryNext?
    ensures OneRowPerKey(Next(s, a))
  {
    hide PendingRow, Tries, Wins;
    var t := Next(s, a);
    forall id | id in t.table.rows
      ensures id in s.table.rows && t.table.rows[id].key == s.table.rows[id].key
      ensures t.table.rows[id].sentAt.Some? ==> t.table.rows[id].key.fireAt <= s.now
    {}
    assert forall i :: 0 <= i < |t.batch| ==> t.batch[i] == s.batch[i + 1];
    assert t.log[|s.log|].key == s.batch[0].key;
  }

  lemma OneRowPerKeyTick(s: System, a: Action)
    requires QueueInv(s) && OneRowPerKey(s) && Can(s, a) && a.StartTick?
    ensures OneRowPerKey(Next(s, a))
  {
    var t := Next(s, a);
    assert forall i :: 0 <= i < |t.batch| ==>
      t.batch[i].id in s.table.rows && t.batch[i].key == s.table.rows[t.batch[i].id].key;
  }

  lemma OneRowPerKeyStep(s: System, a: Action)
    requires QueueInv(s) && BatchInv(s) && OneRowPerKey(s) && Can(s, a) && Allowed(s, a, TIMELY)
    ensures OneRowPerKey(Next(s, a))
  {
    match a
    case Plan(_, _, _) => OneRowPerKeyPlan(s, a);
    case TryNext(_) => OneRowPerKeyTry(s, a);
    case StartTick(_) => OneRowPerKeyTick(s, a);
    case _ =>
  }

  lemma {:induction false} OneRowPerKeyRun(s: System, actions: seq<Action>)
    requires QueueInv(s) && BatchInv(s) && OneRowPerKey(s) && Run(s, actions, TIMELY)
    ensures var t := Final(s, actions, TIMELY); QueueInv(t) && OneRowPerKey(t)
    decreases actions
  {
    if actions != [] {
      StepKeeps(s, actions[0]);
      OneRowPerKeyStep(s, actions[0]);
      OneRowPerKeyRun(Next(s, actions[0]), actions[1..]);
    }
  }

  lemma {:induction false} KeyWinsBound(log: seq<Try>, key: Key, id: nat)
    requires forall i :: 0 <= i < |log| && log[i].key == key ==> log[i].id == id
    ensures KeyWins(log, key) <= Wins(log, id)
  {
    if log != [] {
      KeyWinsBound(log[..|log| - 1], key, id);
    }
  }

  /** Each planned warning is delivered at most once, on every run of the discipline. */
  ghost predicate NoDuplicates(overdue: Option<nat>) {
    forall t0: int, actions: seq<Action>, key: Key :: Run(Init(t0), actions, overdue) ==>
      KeyWins(Final(Init(t0), actions, overdue).log, key) <= 1
  }

  lemma TimelyPlanningNeverDuplicates(t0: int, actions: seq<Action>, key: Key)
    requires Run(Init(t0), actions, TIMELY)
    ensures KeyWins(Final(Init(t0), actions, TIMELY).log, key) <= 1
  {
    OneRowPerKeyRun(Init(t0), actions);
    var log := Final(Init(t0), actions, TIMELY).log;
    if i :| 0 <= i < |log| && log[i].key == key {
      KeyWinsBound(log, key, log[i].id);
    } else {
      KeyWinsBound(log, key, 0);
    }
  }

  lemma StartsInOrder(t0: int)
    ensures QueueInv(Init(t0)) && BatchInv(Init(t0)) && OneRowPerKey(Init(t0))
  {}

  lemma PlansAreNew(s: System, rollout: string, items: seq<Item>, j: nat)
    requires OneRowPerKey(s) && j < |items| && items[j].fireAt > s.now
    ensures !HasKey(DropUnsent(s.table.rows, rollout), KeyOf(rollout, items[j]))
  {}

  lemma PlanInsertsAll(s: System, a: Action, i: nat)
    requires QueueInv(s) && OneRowPerKey(s) && Can(s, a) && a.Plan? && Allowed(s, a, TIMELY) && a.rollout in s.rollouts
    ensures var items := Items(a.stageList, a.readAt);
            var u := Next(s, a).table;
            && u.nextId == s.table.nextId + |items|
            && (i < |items| ==> s.table.nextId + i in u.rows
                                && u.rows[s.table.nextId + i] == FreshRow(a.rollout, items[i]))
  {
    hide OneRowPerKey, HasKey, Items;
    var items := Items(a.stageList, a.readAt);
    var d := s.table.(rows := DropUnsent(s.table.rows, a.rollout));
    ItemsDistinctAndAhead(a.stageList, a.readAt);
    InsertAllFacts(d, a.rollout, items);
    forall j | 0 <= j < |items| ensures !HasKey(d.rows, KeyOf(a.rollout, items[j])) {
      assert items[j] in items;
      PlansAreNew(s, a.rollout, items, j);
    }
    if i < |items| {
      NothingSkipped(d, a.rollout, items, i);
    }
  }

  /**
   Under timely planning `ON CONFLICT` never skips a row: in every reachable state, a timely plan for an existing
   rollout leaves exactly one fresh pending row per computed item, numbered in order.
   */
  lemma TimelyPlanningInsertsAll(t0: int, actions: seq<Action>, a: Action, i: nat)
    requires Run(Init(t0), actions, TIMELY)
    requires var s := Final(Init(t0), actions, TIMELY);
             Can(s, a) && a.Plan? && Allowed(s, a, TIMELY) && a.rollout in s.rollouts
    ensures var s := Final(Init(t0), actions, TIMELY);
            var items := Items(a.stageList, a.readAt);
            var u := Next(s, a).table;
            && u.nextId == s.table.nextId + |items|
            && (i < |items| ==> s.table.nextId + i in u.rows
                                && u.rows[s.table.nextId + i] == FreshRow(a.rollout, items[i]))
  {
    hide QueueInv, OneRowPerKey, BatchInv, Items, Planned;
    StartsInOrder(t0);
    OneRowPerKeyRun(Init(t0), actions);
    PlanInsertsAll(Final(Init(t0), actions, TIMELY), a, i);
  }

  // ---------- Exactly when duplicates are impossible ----------

  lemma {:induction false} RunThen(s: System, actions: seq<Action>, a: Action, overdue: Option<nat>)
    requires Run(s, actions, overdue)
    requires Can(Final(s, actions, overdue), a) && Allowed(Final(s, actions, overdue), a, overdue)
    ensures Run(s, actions + [a], overdue)
    ensures Final(s, actions + [a], overdue) == Next(Final(s, actions, overdue), a)
    decreases actions
  {
    if actions == [] {
      assert actions + [a] == [a] && [a][1..] == [];
      assert Run(Next(s, a), [], overdue);
    } else {
      assert (actions + [a])[1..] == actions[1..] + [a];
      RunThen(Next(s, actions[0]), actions[1..], a, overdue);
    }
  }

  // One rollout with one stage whose only window opens one instant after time 0.
  const LATE_STAGE: Stage := Stage("acceptance", HOUR + 1)
  const LATE_KEY: Key := Key("r", 0, "TMS_PROD", 1)
  const LATE_ROW: Row := Row(LATE_KEY, None, 0, None)

  lemma LateItems()
    ensures Items([LATE_STAGE], 0) == [Item(0, "TMS_PROD", 1)]
  {
    var advances := Advances(LATE_STAGE.env);
    assert advances == [HOUR] && advances[..0] == [];
    assert Windows(0, LATE_STAGE, 0, []) == [];
    assert Windows(0, LATE_STAGE, 0, advances) == [Item(0, "TMS_PROD", 1)];
    assert [LATE_STAGE][..0] == [] && Items([], 0) == [];
    assert Items([LATE_STAGE], 0) == Items([LATE_STAGE][..0], 0) + StageItems(0, LATE_STAGE, 0);
  }

  lemma LateReschedule(t: Table)
    requires forall id :: id in t.rows ==> t.rows[id] == LATE_ROW
    ensures Reschedule(t, "r", Items([LATE_STAGE], 0)) == Table(map[t.nextId := LATE_ROW], t.nextId + 1)
  {
    LateItems();
    var d := t.(rows := DropUnsent(t.rows, "r"));
    var items := [Item(0, "TMS_PROD", 1)];
    assert d.rows == map[];
    assert items[..0] == [] && InsertAll(d, "r", []) == d;
    assert !HasKey(d.rows, LATE_KEY);
    assert InsertAll(d, "r", items) == Insert(InsertAll(d, "r", items[..0]), KeyOf("r", items[0]));
  }

  const LATE_PLAN: Action := Plan("r", [LATE_STAGE], 0)

  lemma LatePlan(s: System, overdue: Option<nat>)
    requires "r" in s.rollouts && forall id :: id in s.table.rows ==> s.table.rows[id] == LATE_ROW
    requires s.now == 0 || (s.now == 1 && overdue != TIMELY)
    ensures Can(s, LATE_PLAN) && Allowed(s, LATE_PLAN, overdue)
    ensures Next(s, LATE_PLAN) == s.(table := Table(map[s.table.nextId := LATE_ROW], s.table.nextId + 1))
  {
    hide Items, Reschedule;
    LateItems();
    LateReschedule(s.table);
  }

  lemma OnlyPage(id: nat)
    ensures IsPage(map[id := LATE_ROW], 1, [id])
  {
    var rows := map[id := LATE_ROW];
    forall other | IsDue(rows, 1, other) ensures other in [id] {}
  }

  /** The state with one late row, the clock at 1, and the given batch and log. */
  function Late(id: nat, batch: seq<Pending>, log: seq<Try>): System {
    System(1, map["r" := 1], Table(map[id := LATE_ROW], id + 1), batch, log)
  }

  /** The discipline concerns planning only. */
  lemma StepsAllowed(overdue: Option<nat>)
    ensures forall s: System, a: Action :: !a.Plan? ==> Allowed(s, a, overdue)
  {}

  lemma ReachesLate(overdue: Option<nat>) returns (actions: seq<Action>)
    ensures Run(Init(0), actions, overdue) && Final(Init(0), actions, overdue) == Late(0, [], [])
  {
    hide Items, Allowed, Planned;
    StepsAllowed(overdue);
    actions := [];
    assert Run(Init(0), actions, overdue) && Final(Init(0), actions, overdue) == Init(0);
    RunThen(Init(0), actions, Save("r", 1), overdue);
    actions := actions + [Save("r", 1)];
    var s := System(0, map["r" := 1], Table(map[], 0), [], []);
    assert Final(Init(0), actions, overdue) == s;
    LatePlan(s, overdue);
    RunThen(Init(0), actions, LATE_PLAN, overdue);
    actions := actions + [LATE_PLAN];
    RunThen(Init(0), actions, Clock(1), overdue);
    actions := actions + [Clock(1)];
  }

  /** A plan computed one instant before it commits replaces the row the dispatcher is about to deliver. */
  lemma ReachesStaleWin(overdue: Option<nat>) returns (actions: seq<Action>)
    requires overdue != TIMELY
    ensures Run(Init(0), actions, overdue)
    ensures Final(Init(0), actions, overdue) == Late(1, [], [Try(0, LATE_KEY, true)])
  {
    hide Items, Allowed, Planned;
    StepsAllowed(overdue);
    actions := ReachesLate(overdue);
    OnlyPage(0);
    RunThen(Init(0), actions, StartTick([0]), overdue);
    actions := actions + [StartTick([0])];
    var batch := [Pending(0, LATE_KEY)];
    assert Final(Init(0), actions, overdue) == Late(0, batch, []);
    LatePlan(Late(0, batch, []), overdue);
    RunThen(Init(0), actions, LATE_PLAN, overdue);
    actions := actions + [LATE_PLAN];
    assert Final(Init(0), actions, overdue) == Late(1, batch, []);
    RunThen(Init(0), actions, TryNext(""), overdue);
    actions := actions + [TryNext("")];
    assert batch[1..] == [];
  }

  lemma CountedTwice()
    ensures KeyWins([Try(0, LATE_KEY, true)] + [Try(1, LATE_KEY, true)], LATE_KEY) == 2
  {
    var log := [Try(0, LATE_KEY, true)];
    var twice := log + [Try(1, LATE_KEY, true)];
    assert twice[..1] == log && log[..0] == [];
    assert KeyWins([], LATE_KEY) == 0 && KeyWins(log, LATE_KEY) == 1;
  }

  /** However little a plan may be late, some run delivers the same warning twice. */
  lemma DuplicateWithLag(overdue: Option<nat>)
    requires overdue != TIMELY
    ensures !NoDuplicates(overdue)
  {
    hide Allowed, Planned, KeyWins;
    StepsAllowed(overdue);
    var actions := ReachesStaleWin(overdue);
    OnlyPage(1);
    RunThen(Init(0), actions, StartTick([1]), overdue);
    actions := actions + [StartTick([1])];
    var log := [Try(0, LATE_KEY, true)];
    assert Final(Init(0), actions, overdue) == Late(1, [Pending(1, LATE_KEY)], log);
    RunThen(Init(0), actions, TryNext(""), overdue);
    actions := actions + [TryNext("")];
    assert Final(Init(0), actions, overdue).log == log + [Try(1, LATE_KEY, true)];
    CountedTwice();
  }

  /**
   The same warning is never delivered twice, on all runs, exactly when no plan commits after one of its items has
   fallen due.  The single transaction alone does not give this: the clock is read before it starts, and being late
   by a single instant is enough for a duplicate.
   */
  lemma NoDuplicatesIff(overdue: Option<nat>)
    ensures NoDuplicates(overdue) <==> overdue == TIMELY
  {
    if overdue == TIMELY {
      forall t0: int, actions: seq<Action>, key: Key | Run(Init(t0), actions, overdue)
        ensures KeyWins(Final(Init(t0), actions, overdue).log, key) <= 1
      {
        TimelyPlanningNeverDuplicates(t0, actions, key);
      }
    } else {
      DuplicateWithLag(overdue);
    }
  }
}
