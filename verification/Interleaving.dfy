/**
 The dispatcher at work amid the handlers: while it goes through its page, rollouts are saved, planned and deleted, also
 between looking a rollout up and marking its row.  Whatever happens, the call is a run of the queue, so everything
 proved of all runs holds of it.
 */
module Interleaving {
  import opened Options
  import opened Schedule
  import opened Notifications
  import opened Dispatcher
  import opened Tick

  /** What may happen in between; a plan uses a clock reading `lag` old. */
  datatype Work =
    | Wait(elapsed: nat)
    | Saved(rollout: string, stages: nat)
    | Planning(rollout: string, stageList: seq<Stage>, lag: nat)
    | Deleted(rollout: string)

  function ActionOf(w: Work, now: int): Action {
    match w
    case Wait(elapsed) => Clock(elapsed)
    case Saved(rollout, stages) => Save(rollout, stages)
    case Planning(rollout, stageList, lag) => Plan(rollout, stageList, now - lag)
    case Deleted(rollout) => Delete(rollout)
  }

  /** The tables of the repository are those of the system. */
  ghost predicate Matches(repo: Repository, now: int, s: System)
    reads repo
  {
    s.now == now && s.rollouts == repo.rollouts && s.table == Table(repo.notifications, repo.nextId)
  }

  method Perform(repo: Repository, now: int, w: Work, ghost s: System) returns (later: int)
    requires repo.Valid() && Matches(repo, now, s)
    modifies repo
    ensures repo.Valid() && Can(s, ActionOf(w, now)) && Matches(repo, later, Next(s, ActionOf(w, now)))
    ensures Next(s, ActionOf(w, now)).batch == s.batch && Next(s, ActionOf(w, now)).log == s.log
  {
    hide Items, Reschedule, WellFormed;
    later := now;
    match w
    case Wait(elapsed) => later := now + elapsed;
    case Saved(rollout, stages) => repo.SaveRollout(rollout, stages);
    case Planning(rollout, stageList, lag) =>
      var items := ScheduleNotifications(stageList, now - lag);
      var ok := repo.RescheduleNotifications(rollout, items);
    case Deleted(rollout) => var found := repo.DeleteRollout(rollout);
  }

  /** The run so far leads from `s0` to the present state, with this much of the snapshot left and these tries made. */
  ghost predicate Reached(s0: System, actions: seq<Action>, repo: Repository, now: int,
                          batch: seq<Pending>, log: seq<Try>)
    reads repo
  {
    && Run(s0, actions, None)
    && Matches(repo, now, Final(s0, actions, None))
    && Final(s0, actions, None).batch == batch && Final(s0, actions, None).log == log
  }

  /** A whole series of such work. */
  method PerformAll(repo: Repository, now: int, works: seq<Work>, ghost s0: System, ghost past: seq<Action>,
                    ghost batch: seq<Pending>, ghost log: seq<Try>)
    returns (later: int, ghost actions: seq<Action>)
    requires repo.Valid() && Reached(s0, past, repo, now, batch, log)
    modifies repo
    ensures repo.Valid() && Reached(s0, actions, repo, later, batch, log) && past <= actions
  {
    hide Can, Next;
    later, actions := now, past;
    for j := 0 to |works|
      invariant repo.Valid() && Reached(s0, actions, repo, later, batch, log) && past <= actions
    {
      ghost var s := Final(s0, actions, None);
      ghost var a := ActionOf(works[j], later);
      later := Perform(repo, later, works[j], s);
      RunThen(s0, actions, a, None);
      actions := actions + [a];
    }
  }

  /** The rollout query, which may itself fail. */
  function Look(rollouts: map<string, nat>, rollout: string, failure: Option<string>): Lookup {
    if failure.Some? then Failed(failure.value)
    else if rollout in rollouts then Found(rollouts[rollout])
    else Failed("not found")
  }

  /** The snapshot as the system sees it. */
  function PendingOf(rows: map<nat, Row>, page: seq<nat>): (batch: seq<Pending>)
    requires forall i :: 0 <= i < |page| ==> page[i] in rows
    ensures |batch| == |page| && forall i :: 0 <= i < |page| ==> batch[i].id == page[i]
  {
    seq(|page|, i requires 0 <= i < |page| => Pending(page[i], rows[page[i]].key))
  }

  /** A row is tried: marked, taken off the snapshot and logged. */
  method TryPending(repo: Repository, now: int, row: Pending, lookup: Lookup, answer: Option<string>,
                    ghost s0: System, ghost past: seq<Action>, ghost batch: seq<Pending>, ghost log: seq<Try>)
    returns (ghost actions: seq<Action>)
    requires repo.Valid() && Reached(s0, past, repo, now, batch, log) && batch != [] && batch[0] == row
    modifies repo`notifications
    ensures repo.Valid() && past <= actions
    ensures var ok := Verdict(row.key.stageSeq, lookup, answer) == "";
            Reached(s0, actions, repo, now, batch[1..], log + [Try(row.id, row.key, ok)])
  {
    hide Mark, Verdict;
    ghost var message := Verdict(row.key.stageSeq, lookup, answer);
    TryRow(repo, row.id, row.key, lookup, answer, now);
    RunThen(s0, past, TryNext(message), None);
    actions := past + [TryNext(message)];
  }

  /**
   A row is delivered: the query found the rollout with the stage in it and the post reported no error.  A query that
   fails with an empty text counts the same.
   */
  predicate Succeeds(rollouts: map<string, nat>, key: Key, failure: Option<string>, answer: Option<string>) {
    || failure == Some("")
    || (&& failure == None && key.rollout in rollouts && key.stageSeq < rollouts[key.rollout]
        && (answer == None || answer == Some("")))
  }

  lemma DeliveredMeans(rollouts: map<string, nat>, key: Key, failure: Option<string>, answer: Option<string>)
    ensures Verdict(key.stageSeq, Look(rollouts, key.rollout, failure), answer) == "" <==>
            Succeeds(rollouts, key, failure, answer)
  {}

  /**
   What the log records of the rows looked up so far: in order, each exactly once, and as delivered exactly if the try
   succeeds with the rollouts there were when the row was looked up, which is after the actions `looks[k]`.
   */
  ghost predicate Logged(s0: System, log: seq<Try>, batch: seq<Pending>, looks: seq<seq<Action>>,
                         failures: nat -> Option<string>, answers: nat -> Option<string>)
  {
    && |looks| <= |batch| && |log| == |s0.log| + |looks| && s0.log <= log
    && forall k :: 0 <= k < |looks| ==>
         var entry := log[|s0.log| + k];
         && Run(s0, looks[k], None)
         && entry.id == batch[k].id && entry.key == batch[k].key
         && (entry.ok <==> Succeeds(Final(s0, looks[k], None).rollouts, batch[k].key, failures(k), answers(k)))
  }

  /** The lookups happened on the way. */
  ghost predicate OnTheWay(looks: seq<seq<Action>>, actions: seq<Action>) {
    forall k :: 0 <= k < |looks| ==> looks[k] <= actions
  }

  lemma LookAdded(looks: seq<seq<Action>>, past: seq<Action>, look: seq<Action>, actions: seq<Action>)
    requires OnTheWay(looks, past) && past <= look <= actions
    ensures OnTheWay(looks + [look], actions)
  {
    forall k | 0 <= k < |looks| ensures looks[k] <= actions {
      assert looks[k] <= past;
    }
  }

  lemma StartReached(s0: System, repo: Repository, now: int, page: seq<nat>)
    requires Matches(repo, now, s0) && s0.batch == [] && IsPage(s0.table.rows, now, page)
    ensures var batch := PendingOf(s0.table.rows, page);
            Reached(s0, [StartTick(page)], repo, now, batch[0..], s0.log)
  {
    RunThen(s0, [], StartTick(page), None);
    assert [] + [StartTick(page)] == [StartTick(page)];
  }

  lemma FinalReached(s0: System, actions: seq<Action>, repo: Repository, now: int, batch: seq<Pending>, log: seq<Try>)
    requires Reached(s0, actions, repo, now, batch, log) && batch == []
    ensures Run(s0, actions, None) && Matches(repo, now, Final(s0, actions, None))
    ensures Final(s0, actions, None).batch == [] && Final(s0, actions, None).log == log
  {}

  lemma LoggedNext(s0: System, log: seq<Try>, batch: seq<Pending>, looks: seq<seq<Action>>,
                   failures: nat -> Option<string>, answers: nat -> Option<string>, look: seq<Action>, ok: bool)
    requires |looks| < |batch| && Logged(s0, log, batch, looks, failures, answers) && Run(s0, look, None)
    requires var n := |looks|;
             ok <==> Succeeds(Final(s0, look, None).rollouts, batch[n].key, failures(n), answers(n))
    ensures var n := |looks|;
            Logged(s0, log + [Try(batch[n].id, batch[n].key, ok)], batch, looks + [look], failures, answers)
  {
    hide Run, Final, Succeeds;
  }

  lemma LookedAt(s0: System, actions: seq<Action>, repo: Repository, now: int, batch: seq<Pending>, log: seq<Try>)
    requires Reached(s0, actions, repo, now, batch, log)
    ensures Run(s0, actions, None) && Final(s0, actions, None).rollouts == repo.rollouts
  {}

  /** One row of the loop, with what happens before it is looked up and between looking it up and marking it. */
  method TryOne(repo: Repository, now: int, row: Pending, failure: Option<string>, answer: Option<string>,
                before: seq<Work>, meanwhile: seq<Work>,
                ghost s0: System, ghost past: seq<Action>, ghost batch: seq<Pending>, ghost log: seq<Try>)
    returns (later: int, ghost actions: seq<Action>, ghost look: seq<Action>, ghost ok: bool)
    requires repo.Valid() && Reached(s0, past, repo, now, batch, log) && batch != [] && batch[0] == row
    modifies repo
    ensures repo.Valid() && past <= look <= actions && Run(s0, look, None)
    ensures Reached(s0, actions, repo, later, batch[1..], log + [Try(row.id, row.key, ok)])
    ensures ok <==> Succeeds(Final(s0, look, None).rollouts, row.key, failure, answer)
  {
    hide WellFormed, Reached, Succeeds, Look, Verdict, Can, Next, Matches, Run, Final;
    later, actions := PerformAll(repo, now, before, s0, past, batch, log);
    look := actions;
    LookedAt(s0, look, repo, later, batch, log);
    var lookup := Look(repo.rollouts, row.key.rollout, failure);
    ok := Verdict(row.key.stageSeq, lookup, answer) == "";
    DeliveredMeans(repo.rollouts, row.key, failure, answer);
    later, actions := PerformAll(repo, later, meanwhile, s0, actions, batch, log);
    actions := TryPending(repo, later, row, lookup, answer, s0, actions, batch, log);
  }

  /**
   One call of the dispatcher.  Before the k-th row is looked up `before(k)` happens, and between looking it up and
   marking it `meanwhile(k)`; `failures` and `answers` are what goes wrong with the query and with the post.  The call
   is a run that starts with the snapshot of the pending page and tries each of its rows once, in order.
   */
  method DispatchAmid(repo: Repository, now: int, failures: nat -> Option<string>, answers: nat -> Option<string>,
                      before: nat -> seq<Work>, meanwhile: nat -> seq<Work>, ghost s0: System)
    returns (page: seq<nat>, later: int, ghost actions: seq<Action>, ghost looks: seq<seq<Action>>)
    requires repo.Valid() && Matches(repo, now, s0) && s0.batch == []
    modifies repo
    ensures repo.Valid() && IsPage(s0.table.rows, now, page)
    ensures actions != [] && actions[0] == StartTick(page)
    ensures Run(s0, actions, None) && Matches(repo, later, Final(s0, actions, None))
    ensures Final(s0, actions, None).batch == []
    ensures |looks| == |page| && OnTheWay(looks, actions)
    ensures Logged(s0, Final(s0, actions, None).log, PendingOf(s0.table.rows, page), looks, failures, answers)
  {
    page := repo.PendingNotifications(now);
    var batch := PendingOf(repo.notifications, page);
    later, actions, looks := now, [StartTick(page)], [];
    ghost var log := s0.log;
    StartReached(s0, repo, now, page);
    assert Logged(s0, log, batch, looks, failures, answers) && OnTheWay(looks, actions);
    hide WellFormed, ActionOf;
    hide Reached, Logged, Succeeds, Look, IsPage, PendingOf, Verdict, Can, Next, Matches, Run, Final, OnTheWay;
    for k := 0 to |batch|
      invariant repo.Valid() && actions != [] && actions[0] == StartTick(page)
      invariant Reached(s0, actions, repo, later, batch[k..], log)
      invariant |looks| == k && Logged(s0, log, batch, looks, failures, answers) && OnTheWay(looks, actions)
    {
      ghost var past, look, ok := actions, [], false;
      later, actions, look, ok := TryOne(repo, later, batch[k], failures(k), answers(k), before(k), meanwhile(k),
                                         s0, actions, batch[k..], log);
      LoggedNext(s0, log, batch, looks, failures, answers, look, ok);
      LookAdded(looks, past, look, actions);
      log, looks := log + [Try(batch[k].id, batch[k].key, ok)], looks + [look];
      assert batch[k..][1..] == batch[k + 1..];
    }
    FinalReached(s0, actions, repo, later, batch[|batch|..], log);
  }
}
