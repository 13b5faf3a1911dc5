/**
 The notifications table and the repository operations on it.  Row ids come from a sequence that is never
 rolled back, `(rollout, stage, fire time, channel)` is unique, and a row is pending while `sentAt` is null.
 */
module Notifications {
  import opened Options
  import opened Schedule

  const MAX_ATTEMPTS: nat := 5
  const PAGE_SIZE: nat := 100

  datatype Key = Key(rollout: string, stageSeq: nat, channel: string, fireAt: int)

  datatype Row = Row(key: Key, sentAt: Option<int>, attempts: nat, lastError: Option<string>)

  datatype Table = Table(rows: map<nat, Row>, nextId: nat)

  function KeyOf(rollout: string, item: Item): Key {
    Key(rollout, item.stageSeq, item.channel, item.fireAt)
  }

  predicate HasKey(rows: map<nat, Row>, key: Key) {
    exists id :: id in rows && rows[id].key == key
  }

  // ---------- The statements as functions ----------

  function DropUnsent(rows: map<nat, Row>, rollout: string): map<nat, Row> {
    map id | id in rows && !(rows[id].key.rollout == rollout && rows[id].sentAt.None?) :: rows[id]
  }

  /** `INSERT ... ON CONFLICT DO NOTHING`: a conflict still uses up an id. */
  function Insert(t: Table, key: Key): Table {
    Table(if HasKey(t.rows, key) then t.rows else t.rows[t.nextId := Row(key, None, 0, None)], t.nextId + 1)
  }

  function InsertAll(t: Table, rollout: string, items: seq<Item>): Table {
    if items == [] then t
    else
      var n := |items| - 1;
      Insert(InsertAll(t, rollout, items[..n]), KeyOf(rollout, items[n]))
  }

  function Reschedule(t: Table, rollout: string, items: seq<Item>): Table {
    InsertAll(t.(rows := DropUnsent(t.rows, rollout)), rollout, items)
  }

  /** Deleting a rollout cascades to its notifications. */
  function DropRollout(rows: map<nat, Row>, rollout: string): map<nat, Row> {
    map id | id in rows && rows[id].key.rollout != rollout :: rows[id]
  }

  /** An empty error message means the notification was delivered. */
  function Mark(rows: map<nat, Row>, id: nat, error: string, now: int): map<nat, Row> {
    if id !in rows || rows[id].sentAt.Some? then rows
    else
      var row := rows[id];
      if error == "" then rows[id := row.(sentAt := Some(now), lastError := None)]
      else rows[id := row.(lastError := Some(error), attempts := row.attempts + 1,
                           sentAt := if row.attempts + 1 >= MAX_ATTEMPTS then Some(now) else None)]
  }

  /** What becomes of a row: a sent row is frozen, a delivered one is sent, a failed one counts up to five attempts. */
  predicate Marked(row: Row, after: Row, error: string, now: int) {
    if row.sentAt.Some? then after == row
    else if error == "" then after.key == row.key && after.sentAt == Some(now) && after.attempts == row.attempts
                             && after.lastError == None
    else after.key == row.key && after.attempts == row.attempts + 1 && after.lastError == Some(error)
         && after.sentAt == if row.attempts >= 4 then Some(now) else None
  }

  predicate Owed(row: Row, now: int) {
    row.sentAt == None && now >= row.key.fireAt
  }

  predicate IsDue(rows: map<nat, Row>, now: int, id: nat) {
    id in rows && rows[id].sentAt.None? && rows[id].key.fireAt <= now
  }

  /** One answer of the pending query: due rows in order of fire time, ties in any order, at most a page. */
  ghost predicate IsPage(rows: map<nat, Row>, now: int, page: seq<nat>) {
    && |page| <= PAGE_SIZE
    && (forall i :: 0 <= i < |page| ==> IsDue(rows, now, page[i]))
    && (forall i, j :: 0 <= i < j < |page| ==>
          page[i] != page[j] && rows[page[i]].key.fireAt <= rows[page[j]].key.fireAt)
    && (forall id :: IsDue(rows, now, id) && id !in page ==>
          |page| == PAGE_SIZE && forall i :: 0 <= i < |page| ==> rows[page[i]].key.fireAt <= rows[id].key.fireAt)
  }

  // ---------- What rescheduling achieves ----------

  ghost predicate WellFormed(t: Table) {
    && (forall id :: id in t.rows ==> id < t.nextId)
    && (forall id, other :: id in t.rows && other in t.rows && t.rows[id].key == t.rows[other].key ==> id == other)
  }

  ghost predicate PendingKey(rows: map<nat, Row>, key: Key) {
    exists id :: id in rows && rows[id].key == key && rows[id].sentAt.None?
  }

  ghost predicate SentKey(rows: map<nat, Row>, key: Key) {
    exists id :: id in rows && rows[id].key == key && rows[id].sentAt.Some?
  }

  ghost predicate Requests(rollout: string, items: seq<Item>, key: Key) {
    exists i :: 0 <= i < |items| && KeyOf(rollout, items[i]) == key
  }

  lemma RequestsSnoc(rollout: string, items: seq<Item>, key: Key)
    requires items != []
    ensures var n := |items| - 1;
            Requests(rollout, items, key) <==> Requests(rollout, items[..n], key) || KeyOf(rollout, items[n]) == key
  {
    var n := |items| - 1;
    if Requests(rollout, items, key) && KeyOf(rollout, items[n]) != key {
      var i :| 0 <= i < |items| && KeyOf(rollout, items[i]) == key;
      assert KeyOf(rollout, items[..n][i]) == key;
    }
  }

  lemma InsertFacts(t: Table, key: Key)
    requires WellFormed(t)
    ensures var u := Insert(t, key);
            && WellFormed(u)
            && (forall id :: id in t.rows ==> id in u.rows && u.rows[id] == t.rows[id])
            && (forall id :: id in u.rows && id !in t.rows ==> id == t.nextId && u.rows[id] == Row(key, None, 0, None))
            && (forall k :: SentKey(u.rows, k) <==> SentKey(t.rows, k))
            && (forall k :: PendingKey(u.rows, k) <==> PendingKey(t.rows, k) || (k == key && !SentKey(t.rows, key)))
  {
    var u := Insert(t, key);
    forall k ensures SentKey(u.rows, k) <==> SentKey(t.rows, k) {
      if id :| id in t.rows && t.rows[id].key == k && t.rows[id].sentAt.Some? {
        assert u.rows[id] == t.rows[id];
      }
    }
    forall k ensures PendingKey(u.rows, k) <==> PendingKey(t.rows, k) || (k == key && !SentKey(t.rows, key)) {
      if id :| id in t.rows && t.rows[id].key == k && t.rows[id].sentAt.None? {
        assert u.rows[id] == t.rows[id];
      }
      if !HasKey(t.rows, key) {
        assert u.rows[t.nextId].key == key;
      }
    }
  }

  lemma {:induction false} InsertAllFacts(t: Table, rollout: string, items: seq<Item>)
    requires WellFormed(t)
    ensures var u := InsertAll(t, rollout, items);
            && WellFormed(u) && u.nextId == t.nextId + |items|
            && (forall id :: id in t.rows ==> id in u.rows && u.rows[id] == t.rows[id])
            && (forall id :: id in u.rows && id !in t.rows ==>
                  t.nextId <= id && u.rows[id].sentAt.None? && u.rows[id].attempts == 0
                  && Requests(rollout, items, u.rows[id].key))
            && (forall k :: SentKey(u.rows, k) <==> SentKey(t.rows, k))
            && (forall k :: PendingKey(u.rows, k) <==>
                  PendingKey(t.rows, k) || (Requests(rollout, items, k) && !SentKey(t.rows, k)))
  {
    if items != [] {
      var n := |items| - 1;
      InsertAllFacts(t, rollout, items[..n]);
      InsertFacts(InsertAll(t, rollout, items[..n]), KeyOf(rollout, items[n]));
      forall k ensures Requests(rollout, items, k) <==>
                       Requests(rollout, items[..n], k) || KeyOf(rollout, items[n]) == k
      {
        RequestsSnoc(rollout, items, k);
      }
    }
  }

  /**
   After a reschedule the rollout's pending rows are exactly the requested items that were not already sent; sent
   rows and other rollouts' rows are untouched.
   */
  lemma RescheduleExactly(t: Table, rollout: string, items: seq<Item>)
    requires WellFormed(t)
    ensures var u := Reschedule(t, rollout, items);
            && WellFormed(u)
            && (forall k: Key :: k.rollout == rollout ==>
                  (PendingKey(u.rows, k) <==> Requests(rollout, items, k) && !SentKey(t.rows, k)))
            && (forall id :: id in t.rows && (t.rows[id].sentAt.Some? || t.rows[id].key.rollout != rollout) ==>
                  id in u.rows && u.rows[id] == t.rows[id])
            && (forall id :: id in u.rows && id < t.nextId ==> id in t.rows && u.rows[id] == t.rows[id])
            && (forall id :: id in u.rows && id >= t.nextId ==> u.rows[id].key.rollout == rollout)
  {
    var d := t.(rows := DropUnsent(t.rows, rollout));
    InsertAllFacts(d, rollout, items);
    forall k ensures SentKey(d.rows, k) <==> SentKey(t.rows, k) {
      if id :| id in t.rows && t.rows[id].key == k && t.rows[id].sentAt.Some? {
        assert d.rows[id] == t.rows[id];
      }
    }
    var u := Reschedule(t, rollout, items);
    forall id | id in u.rows && id >= t.nextId ensures u.rows[id].key.rollout == rollout {
      assert id !in d.rows;
    }
  }

  /** The row a new item gets: pending, untried, without an error. */
  function FreshRow(rollout: string, item: Item): Row {
    Row(Key(rollout, item.stageSeq, item.channel, item.fireAt), None, 0, None)
  }

  lemma LastIsUnclaimed(t: Table, rollout: string, items: seq<Item>)
    requires WellFormed(t) && Distinct(items) && items != []
    requires !HasKey(t.rows, KeyOf(rollout, items[|items| - 1]))
    ensures !HasKey(InsertAll(t, rollout, items[..|items| - 1]).rows, KeyOf(rollout, items[|items| - 1]))
  {
    var n := |items| - 1;
    var m := InsertAll(t, rollout, items[..n]);
    InsertAllFacts(t, rollout, items[..n]);
    forall id | id in m.rows ensures m.rows[id].key != KeyOf(rollout, items[n]) {
      if id !in t.rows {
        var j :| 0 <= j < n && KeyOf(rollout, items[..n][j]) == m.rows[id].key;
        assert items[j] != items[n];
      }
    }
  }

  /** Distinct items none of which is already sent are all inserted, in order: `ON CONFLICT` skips nothing. */
  lemma {:induction false} NothingSkipped(t: Table, rollout: string, items: seq<Item>, i: nat)
    requires WellFormed(t) && Distinct(items) && i < |items|
    requires forall j :: 0 <= j < |items| ==> !HasKey(t.rows, KeyOf(rollout, items[j]))
    ensures var u := InsertAll(t, rollout, items);
            && t.nextId + i in u.rows
            && u.rows[t.nextId + i] == FreshRow(rollout, items[i])
  {
    hide HasKey;
    var n := |items| - 1;
    InsertAllFacts(t, rollout, items[..n]);
    if i < n {
      NothingSkipped(t, rollout, items[..n], i);
    } else {
      LastIsUnclaimed(t, rollout, items);
    }
  }

  // ---------- The repository object ----------

  lemma {:induction false} EarliestExists(rows: map<nat, Row>, ids: set<nat>)
    requires ids != {} && forall id :: id in ids ==> id in rows
    ensures exists id :: id in ids && forall other :: other in ids ==> rows[id].key.fireAt <= rows[other].key.fireAt
    decreases |ids|
  {
    var first :| first in ids;
    var rest := ids - {first};
    if rest == {} {
      assert ids == {first};
    } else {
      EarliestExists(rows, rest);
      var id :| id in rest && forall other :: other in rest ==> rows[id].key.fireAt <= rows[other].key.fireAt;
      var best := if rows[first].key.fireAt <= rows[id].key.fireAt then first else id;
      forall other | other in ids ensures rows[best].key.fireAt <= rows[other].key.fireAt {
        assert other == first || other in rest;
      }
    }
  }

  /** `page` holds the earliest due rows in order and `left` the others. */
  ghost predicate PageSoFar(rows: map<nat, Row>, now: int, page: seq<nat>, left: set<nat>) {
    && (forall id :: id in left ==> IsDue(rows, now, id) && id !in page)
    && (forall id :: IsDue(rows, now, id) ==> id in left || id in page)
    && (forall i :: 0 <= i < |page| ==> IsDue(rows, now, page[i]))
    && (forall i, j :: 0 <= i < j < |page| ==>
          page[i] != page[j] && rows[page[i]].key.fireAt <= rows[page[j]].key.fireAt)
    && (forall i, id :: 0 <= i < |page| && id in left ==> rows[page[i]].key.fireAt <= rows[id].key.fireAt)
  }

  lemma PageGrows(rows: map<nat, Row>, now: int, page: seq<nat>, left: set<nat>, id: nat)
    requires PageSoFar(rows, now, page, left) && id in left
    requires forall other :: other in left ==> rows[id].key.fireAt <= rows[other].key.fireAt
    ensures PageSoFar(rows, now, page + [id], left - {id})
  {}

  class Repository {
    var rollouts: map<string, nat>  // number of stages per rollout
    var notifications: map<nat, Row>
    var nextId: nat

    ghost predicate Valid()
      reads this
    {
      && WellFormed(Table(notifications, nextId))
      && forall id :: id in notifications ==> notifications[id].key.rollout in rollouts
    }

    constructor ()
      ensures Valid() && notifications == map[] && rollouts == map[]
    {
      rollouts, notifications, nextId := map[], map[], 0;
    }

    /** Creating a rollout, or replacing its stages. */
    method SaveRollout(rollout: string, stages: nat)
      requires Valid()
      modifies this`rollouts
      ensures Valid() && rollouts == old(rollouts)[rollout := stages]
    {
      rollouts := rollouts[rollout := stages];
    }

    /** One transaction: a foreign key violation rolls the deletion back as well, but not the id sequence. */
    method RescheduleNotifications(rollout: string, items: seq<Item>) returns (ok: bool)
      requires Valid()
      modifies this`notifications, this`nextId
      ensures Valid()
      ensures ok <==> rollout in rollouts || items == []
      ensures ok ==> Table(notifications, nextId) == Reschedule(old(Table(notifications, nextId)), rollout, items)
      ensures !ok ==> notifications == old(notifications) && nextId == old(nextId) + 1
    {
      ghost var before := Table(notifications, nextId);
      RescheduleExactly(before, rollout, items);
      var rows: map<nat, Row> := DropUnsent(notifications, rollout);
      ghost var base := Table(rows, nextId);
      for i := 0 to |items|
        invariant Table(rows, nextId) == InsertAll(base, rollout, items[..i])
        invariant notifications == before.rows
        invariant base == before.(rows := DropUnsent(before.rows, rollout))
        invariant i > 0 ==> rollout in rollouts
      {
        if rollout !in rollouts {
          nextId := nextId + 1;
          assert Table(notifications, nextId).rows == before.rows;
          return false;
        }
        var key := KeyOf(rollout, items[i]);
        assert items[..i + 1][..i] == items[..i];
        if !HasKey(rows, key) {
          rows := rows[nextId := Row(key, None, 0, None)];
        }
        nextId := nextId + 1;
      }
      assert items[..|items|] == items;
      notifications := rows;
      ok := true;
    }

    method MarkNotificationSent(id: nat, error: string, now: int)
      requires Valid()
      modifies this`notifications
      ensures Valid()
      ensures notifications == Mark(old(notifications), id, error, now)
      ensures notifications.Keys == old(notifications).Keys
      ensures forall other :: other in notifications && other != id ==>
                notifications[other] == old(notifications)[other]
      ensures id in notifications ==> Marked(old(notifications)[id], notifications[id], error, now)
    {
      if id in notifications && notifications[id].sentAt.None? {
        var row := notifications[id];
        if error == "" {
          notifications := notifications[id := row.(sentAt := Some(now), lastError := None)];
        } else {
          var sentAt := if row.attempts + 1 >= MAX_ATTEMPTS then Some(now) else row.sentAt;
          notifications := notifications[id := row.(lastError := Some(error), attempts := row.attempts + 1,
                                                    sentAt := sentAt)];
        }
      }
    }

    /** The pending query always has an answer: repeatedly take an earliest due row. */
    method PendingNotifications(now: int) returns (page: seq<nat>)
      requires Valid()
      ensures IsPage(notifications, now, page) && |page| <= 100
      ensures forall i :: 0 <= i < |page| ==> page[i] in notifications && Owed(notifications[page[i]], now)
      ensures |page| < 100 ==> forall id :: id in notifications && Owed(notifications[id], now) ==> id in page
    {
      var left := set id | id in notifications && IsDue(notifications, now, id);
      page := [];
      while |page| < PAGE_SIZE && left != {}
        invariant |page| <= PAGE_SIZE && PageSoFar(notifications, now, page, left)
      {
        EarliestExists(notifications, left);
        var id :| id in left && forall other :: other in left ==>
                    notifications[id].key.fireAt <= notifications[other].key.fireAt;
        PageGrows(notifications, now, page, left, id);
        page := page + [id];
        left := left - {id};
      }
    }

    method DeleteRollout(rollout: string) returns (found: bool)
      requires Valid()
      modifies this`rollouts, this`notifications
      ensures Valid() && found == (rollout in old(rollouts))
      ensures rollouts == map r | r in old(rollouts) && r != rollout :: old(rollouts)[r]
      ensures notifications == DropRollout(old(notifications), rollout)
      ensures forall id :: id in old(notifications) && old(notifications)[id].key.rollout != rollout ==>
                id in notifications && notifications[id] == old(notifications)[id]
      ensures forall id :: id in notifications ==> id in old(notifications) && notifications[id].key.rollout != rollout
    {
      found := rollout in rollouts;
      rollouts := map r | r in rollouts && r != rollout :: rollouts[r];
      notifications := DropRollout(notifications, rollout);
    }
  }
}
