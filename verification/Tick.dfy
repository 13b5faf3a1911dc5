/**
 One uninterrupted call of the dispatcher: read the pending page, then try its rows in order.
 */
module Tick {
  import opened Options
  import opened Notifications
  import opened Dispatcher

  const OUT_OF_RANGE: string := "stage out of range"

  /** The answer of the rollout query: its number of stages, or the text of the error, such as "not found". */
  datatype Lookup = Found(stages: nat) | Failed(message: string)

  /** The message a row is marked with; `answer` is the error of the webhook client, None for success. */
  function Verdict(stageSeq: nat, lookup: Lookup, answer: Option<string>): string {
    if lookup.Failed? then lookup.message
    else if stageSeq >= lookup.stages then OUT_OF_RANGE
    else if answer.Some? then answer.value else ""
  }

  /** The announcement was posted, or a failed query gave an empty text, which counts the same. */
  predicate Posted(stageSeq: nat, lookup: Lookup, answer: Option<string>) {
    match lookup
    case Found(stages) => stageSeq < stages && (answer == None || answer == Some(""))
    case Failed(message) => message == ""
  }

  /** What a try does to a pending row, told from what was looked up and answered. */
  predicate Tried(row: Row, after: Row, lookup: Lookup, answer: Option<string>, now: int) {
    && after.key == row.key
    && if Posted(row.key.stageSeq, lookup, answer)
       then after.sentAt == Some(now) && after.attempts == row.attempts && after.lastError == None
       else
         && after.attempts == row.attempts + 1
         && after.sentAt == (if row.attempts + 1 >= 5 then Some(now) else None)
         && match lookup
            case Failed(message) => after.lastError == Some(message)
            case Found(stages) =>
              if row.key.stageSeq >= stages then after.lastError == Some("stage out of range")
              else after.lastError == answer
  }

  lemma VerdictTries(row: Row, after: Row, lookup: Lookup, answer: Option<string>, now: int)
    requires row.sentAt.None? && Marked(row, after, Verdict(row.key.stageSeq, lookup, answer), now)
    ensures Tried(row, after, lookup, answer, now)
    ensures Verdict(row.key.stageSeq, lookup, answer) == "" <==> Posted(row.key.stageSeq, lookup, answer)
  {}

  lemma MarkMarks(rows: map<nat, Row>, id: nat, error: string, now: int)
    requires id in rows
    ensures id in Mark(rows, id, error, now) && Marked(rows[id], Mark(rows, id, error, now)[id], error, now)
  {}

  /** The first `n` rows of the page marked one after another. */
  function MarkAll(rows: map<nat, Row>, page: seq<nat>, errors: seq<string>, times: seq<int>, n: nat): map<nat, Row>
    requires n <= |page| == |errors| == |times|
  {
    if n == 0 then rows
    else Mark(MarkAll(rows, page, errors, times, n - 1), page[n - 1], errors[n - 1], times[n - 1])
  }

  /** Rows of a page do not interfere: each is marked as if it were alone, and no other row changes. */
  lemma {:induction false} MarkAllSeparately(rows: map<nat, Row>, page: seq<nat>, errors: seq<string>, times: seq<int>,
                                             n: nat, id: nat)
    requires n <= |page| == |errors| == |times|
    requires forall i, j :: 0 <= i < j < |page| ==> page[i] != page[j]
    requires id in rows
    ensures id in MarkAll(rows, page, errors, times, n)
    ensures forall i :: 0 <= i < n && page[i] == id ==>
              MarkAll(rows, page, errors, times, n)[id] == Mark(rows, id, errors[i], times[i])[id]
    ensures (forall i :: 0 <= i < n ==> page[i] != id) ==> MarkAll(rows, page, errors, times, n)[id] == rows[id]
  {
    if n > 0 {
      MarkAllSeparately(rows, page, errors, times, n - 1, id);
    }
  }

  function KeysOf(rows: map<nat, Row>, page: seq<nat>): (keys: seq<Key>)
    requires forall i :: 0 <= i < |page| ==> page[i] in rows
    ensures |keys| == |page|
  {
    seq(|page|, i requires 0 <= i < |page| => rows[page[i]].key)
  }

  function Verdicts(keys: seq<Key>, find: nat -> Lookup, answers: nat -> Option<string>): (messages: seq<string>)
    ensures |messages| == |keys|
  {
    seq(|keys|, i requires 0 <= i < |keys| => Verdict(keys[i].stageSeq, find(i), answers(i)))
  }

  function Times(clock: nat -> int, n: nat): (times: seq<int>)
    ensures |times| == n && forall i :: 0 <= i < n ==> times[i] == clock(i)
  {
    seq(n, i requires 0 <= i < n => clock(i))
  }

  /** One row of the loop. */
  method TryRow(repo: Repository, id: nat, key: Key, lookup: Lookup, answer: Option<string>, now: int)
    requires repo.Valid()
    modifies repo`notifications
    ensures repo.Valid()
    ensures repo.notifications == Mark(old(repo.notifications), id, Verdict(key.stageSeq, lookup, answer), now)
    ensures repo.notifications.Keys == old(repo.notifications).Keys
    ensures id in repo.notifications ==>
              var row := old(repo.notifications)[id];
              row.sentAt.None? && row.key == key ==> Tried(row, repo.notifications[id], lookup, answer, now)
  {
    if lookup.Failed? {
      repo.MarkNotificationSent(id, lookup.message, now);
    } else if key.stageSeq >= lookup.stages {
      repo.MarkNotificationSent(id, OUT_OF_RANGE, now);
    } else if answer.Some? {
      repo.MarkNotificationSent(id, answer.value, now);
    } else {
      repo.MarkNotificationSent(id, "", now);
    }
  }

  /** Every row of the page is tried with what was looked up and answered for it; all other rows stay as they are. */
  ghost predicate PageTried(rows: map<nat, Row>, after: map<nat, Row>, page: seq<nat>,
                            find: nat -> Lookup, answers: nat -> Option<string>, clock: nat -> int)
  {
    && after.Keys == rows.Keys
    && (forall k :: 0 <= k < |page| ==>
          page[k] in rows && Tried(rows[page[k]], after[page[k]], find(k), answers(k), clock(k)))
    && forall id :: id in rows && id !in page ==> after[id] == rows[id]
  }

  lemma {:induction false} MarkAllKeys(rows: map<nat, Row>, page: seq<nat>, errors: seq<string>, times: seq<int>,
                                       n: nat)
    requires n <= |page| == |errors| == |times|
    ensures MarkAll(rows, page, errors, times, n).Keys == rows.Keys
  {
    if n > 0 {
      MarkAllKeys(rows, page, errors, times, n - 1);
    }
  }

  lemma PageIsTried(rows: map<nat, Row>, now: int, page: seq<nat>,
                    find: nat -> Lookup, answers: nat -> Option<string>, clock: nat -> int)
    requires IsPage(rows, now, page)
    ensures var messages := Verdicts(KeysOf(rows, page), find, answers);
            PageTried(rows, MarkAll(rows, page, messages, Times(clock, |page|), |page|), page, find, answers, clock)
  {
    hide Mark, Verdict, Tried, Marked, MarkAll, Times;
    var messages, times := Verdicts(KeysOf(rows, page), find, answers), Times(clock, |page|);
    var after := MarkAll(rows, page, messages, times, |page|);
    MarkAllKeys(rows, page, messages, times, |page|);
    forall k | 0 <= k < |page| ensures Tried(rows[page[k]], after[page[k]], find(k), answers(k), clock(k)) {
      MarkAllSeparately(rows, page, messages, times, |page|, page[k]);
      MarkMarks(rows, page[k], messages[k], times[k]);
      VerdictTries(rows[page[k]], after[page[k]], find(k), answers(k), clock(k));
    }
    forall id | id in rows && id !in page ensures after[id] == rows[id] {
      MarkAllSeparately(rows, page, messages, times, |page|, id);
    }
  }

  /**
   What the k-th rollout query answers is `find(k)`, the k-th reply of the webhook is `answers(k)`, and the k-th update
   happens at `clock(k)`.
   */
  method Dispatch(repo: Repository, now: int, find: nat -> Lookup, answers: nat -> Option<string>, clock: nat -> int)
    returns (page: seq<nat>)
    requires repo.Valid()
    modifies repo`notifications
    ensures repo.Valid() && IsPage(old(repo.notifications), now, page)
    ensures repo.notifications ==
            MarkAll(old(repo.notifications), page, Verdicts(KeysOf(old(repo.notifications), page), find, answers),
                    Times(clock, |page|), |page|)
    ensures PageTried(old(repo.notifications), repo.notifications, page, find, answers, clock)
  {
    page := repo.PendingNotifications(now);
    ghost var rows := repo.notifications;
    var pending := KeysOf(repo.notifications, page);
    ghost var messages, times := Verdicts(pending, find, answers), Times(clock, |page|);
    hide Mark, KeysOf, IsPage, Times, Verdict, Tried, PageTried, WellFormed, Marked;
    for k := 0 to |page|
      invariant repo.Valid()
      invariant repo.notifications == MarkAll(rows, page, messages, times, k)
    {
      TryRow(repo, page[k], pending[k], find(k), answers(k), clock(k));
    }
    PageIsTried(rows, now, page, find, answers, clock);
  }

  // ---------- A call is a run of the queue ----------

  function TimeAt(now: int, times: seq<int>, n: nat): int
    requires n <= |times|
  {
    if n == 0 then now else times[n - 1]
  }

  /** The clock never goes back during the call. */
  predicate Rising(now: int, times: seq<int>) {
    forall n :: 0 <= n < |times| ==> TimeAt(now, times, n) <= times[n]
  }

  function TickActions(now: int, page: seq<nat>, errors: seq<string>, times: seq<int>, n: nat): seq<Action>
    requires n <= |errors| == |times| && Rising(now, times)
  {
    if n == 0 then [StartTick(page)]
    else TickActions(now, page, errors, times, n - 1)
         + [Clock(times[n - 1] - TimeAt(now, times, n - 1)), TryNext(errors[n - 1])]
  }

  lemma TickContinues(s: System, page: seq<nat>, n: nat, t: System)
    requires Can(s, StartTick(page)) && n < |page| && t.batch == Next(s, StartTick(page)).batch[n..]
    ensures t.batch != [] && t.batch[0].id == page[n] && t.batch[1..] == Next(s, StartTick(page)).batch[n + 1..]
  {}

  /** Marking the page in a loop is one particular run of the interleaved system: the snapshot, then a try per row. */
  lemma {:induction false} UninterruptedTick(s: System, page: seq<nat>, errors: seq<string>, times: seq<int>, n: nat)
    requires Can(s, StartTick(page)) && n <= |page| == |errors| == |times| && Rising(s.now, times)
    ensures var actions := TickActions(s.now, page, errors, times, n);
            && Run(s, actions, TIMELY)
            && Final(s, actions, TIMELY) ==
               s.(now := TimeAt(s.now, times, n),
                  table := s.table.(rows := MarkAll(s.table.rows, page, errors, times, n)),
                  batch := Next(s, StartTick(page)).batch[n..],
                  log := Final(s, actions, TIMELY).log)
  {
    hide Mark, IsPage;
    if n == 0 {
      RunThen(s, [], StartTick(page), TIMELY);
      assert [] + [StartTick(page)] == [StartTick(page)];
    } else {
      UninterruptedTick(s, page, errors, times, n - 1);
      var before := TickActions(s.now, page, errors, times, n - 1);
      var wait := Clock(times[n - 1] - TimeAt(s.now, times, n - 1));
      var try := TryNext(errors[n - 1]);
      RunThen(s, before, wait, TIMELY);
      TickContinues(s, page, n - 1, Final(s, before + [wait], TIMELY));
      RunThen(s, before + [wait], try, TIMELY);
      assert before + [wait] + [try] == before + [wait, try];
    }
  }
}
