/**
 Filling rollouts with their child rows: the batched form, with one query per child table for a whole list of
 rollouts, against the simple form with one query per rollout.  Queries are relations: any order the database
 may return is allowed as long as it respects WHERE and ORDER BY.
 */
module Hydration {
  /** A row of a child table ordered by `seqNo`; (rollout, seqNo) is its primary key. */
  datatype Child<T> = Child(rollout: string, seqNo: int, value: T)

  datatype Actor = Actor(rollout: string, name: string)

  /** The parts of a rollout the hydration fills; `info` stands for all other columns. */
  datatype Rollout<S, T> = Rollout(id: string, info: int, stages: seq<S>, pair: seq<string>, tasks: seq<T>)

  // ---------- Queries ----------

  /** The primary key: a rollout has at most one row per sequence number. */
  ghost predicate Keyed<T(!new)>(table: multiset<Child<T>>) {
    forall x, y :: x in table && y in table && x.rollout == y.rollout && x.seqNo == y.seqNo ==> x == y
  }

  ghost predicate Ordered<T>(rows: seq<Child<T>>) {
    forall i, j :: 0 <= i < j < |rows| ==> rows[i].seqNo <= rows[j].seqNo
  }

  /** `WHERE rollout_id = $1 ORDER BY seq` */
  ghost predicate SingleQuery<T(!new)>(table: multiset<Child<T>>, id: string, out: seq<Child<T>>) {
    Ordered(out) && forall x :: multiset(out)[x] == if x.rollout == id then table[x] else 0
  }

  /** The order by rollout and then by sequence number, for whatever collation `rank` the database uses. */
  ghost predicate OrderedByRollout<T>(rows: seq<Child<T>>, rank: string -> int) {
    forall i, j :: 0 <= i < j < |rows| ==>
      rank(rows[i].rollout) < rank(rows[j].rollout)
      || (rank(rows[i].rollout) == rank(rows[j].rollout) && rows[i].seqNo <= rows[j].seqNo)
  }

  /** `WHERE rollout_id = ANY($1) ORDER BY rollout_id, seq` */
  ghost predicate BatchQuery<T(!new)>(table: multiset<Child<T>>, ids: set<string>, rank: string -> int,
                                      out: seq<Child<T>>) {
    OrderedByRollout(out, rank) && forall x :: multiset(out)[x] == if x.rollout in ids then table[x] else 0
  }

  /** The actor queries have no ORDER BY. */
  ghost predicate SingleActors(table: multiset<Actor>, id: string, out: seq<Actor>) {
    forall x :: multiset(out)[x] == if x.rollout == id then table[x] else 0
  }

  ghost predicate BatchActors(table: multiset<Actor>, ids: set<string>, out: seq<Actor>) {
    forall x :: multiset(out)[x] == if x.rollout in ids then table[x] else 0
  }

  // ---------- The batched loops ----------

  /** The values of the rows that belong to one rollout, in order. */
  function ValuesFor<T>(rows: seq<Child<T>>, id: string): seq<T> {
    if rows == [] then []
    else
      var n := |rows| - 1;
      ValuesFor(rows[..n], id) + if rows[n].rollout == id then [rows[n].value] else []
  }

  function NamesFor(rows: seq<Actor>, id: string): seq<string> {
    if rows == [] then []
    else
      var n := |rows| - 1;
      NamesFor(rows[..n], id) + if rows[n].rollout == id then [rows[n].name] else []
  }

  lemma ValuesForNext<T>(rows: seq<Child<T>>, n: nat, id: string)
    requires n < |rows|
    ensures ValuesFor(rows[..n + 1], id) ==
            ValuesFor(rows[..n], id) + if rows[n].rollout == id then [rows[n].value] else []
  {
    assert rows[..n + 1][..n] == rows[..n];
  }

  lemma NamesForNext(rows: seq<Actor>, n: nat, id: string)
    requires n < |rows|
    ensures NamesFor(rows[..n + 1], id) ==
            NamesFor(rows[..n], id) + if rows[n].rollout == id then [rows[n].name] else []
  {
    assert rows[..n + 1][..n] == rows[..n];
  }

  lemma NoValues<T>(rows: seq<Child<T>>)
    requires rows == []
    ensures forall id :: ValuesFor(rows, id) == []
  {}

  lemma NoNames(rows: seq<Actor>)
    requires rows == []
    ensures forall id :: NamesFor(rows, id) == []
  {}

  /** `idx` maps exactly the ids of the rollouts to their positions. */
  ghost predicate Indexed<S, T>(rollouts: seq<Rollout<S, T>>, idx: map<string, nat>) {
    && (forall k :: 0 <= k < |rollouts| ==> rollouts[k].id in idx && idx[rollouts[k].id] == k)
    && (forall id :: id in idx ==> idx[id] < |rollouts| && rollouts[idx[id]].id == id)
  }

  /** The index leads to the rollout of the row, and only there. */
  lemma IndexHits<S, T>(rollouts: seq<Rollout<S, T>>, idx: map<string, nat>, id: string)
    requires Indexed(rollouts, idx)
    ensures id in idx ==> idx[id] < |rollouts|
    ensures forall k :: 0 <= k < |rollouts| ==> (rollouts[k].id == id <==> id in idx && idx[id] == k)
  {}

  /** Appending child rows keeps the ids, and with them the index. */
  lemma StillIndexed<S, T>(before: seq<Rollout<S, T>>, after: seq<Rollout<S, T>>, idx: map<string, nat>)
    requires Indexed(before, idx) && |after| == |before|
    requires forall k :: 0 <= k < |before| ==> after[k].id == before[k].id
    ensures Indexed(after, idx)
  {}

  method Reset<S, T>(rollouts: array<Rollout<S, T>>) returns (idx: map<string, nat>)
    requires forall i, j :: 0 <= i < j < rollouts.Length ==> rollouts[i].id != rollouts[j].id
    modifies rollouts
    ensures forall k :: 0 <= k < rollouts.Length ==>
              rollouts[k] == old(rollouts[k]).(stages := [], pair := [], tasks := [])
    ensures Indexed(rollouts[..], idx)
  {
    idx := map[];
    for i := 0 to rollouts.Length
      invariant forall k :: i <= k < rollouts.Length ==> rollouts[k] == old(rollouts[k])
      invariant forall k :: 0 <= k < i ==> rollouts[k] == old(rollouts[k]).(stages := [], pair := [], tasks := [])
      invariant Indexed(rollouts[..i], idx)
    {
      rollouts[i] := rollouts[i].(stages := [], pair := [], tasks := []);
      idx := idx[rollouts[i].id := i];
    }
    assert rollouts[..rollouts.Length] == rollouts[..];
  }

  function Staged<S, T>(r: Rollout<S, T>, rows: seq<Child<S>>): Rollout<S, T> {
    r.(stages := r.stages + ValuesFor(rows, r.id))
  }

  method AppendStages<S, T>(rollouts: array<Rollout<S, T>>, idx: map<string, nat>, rows: seq<Child<S>>)
    requires Indexed(rollouts[..], idx)
    modifies rollouts
    ensures forall k :: 0 <= k < rollouts.Length ==> rollouts[k] == Staged(old(rollouts[k]), rows)
    ensures Indexed(rollouts[..], idx)
  {
    ghost var before := rollouts[..];
    hide Indexed, ValuesFor;
    assert forall k :: 0 <= k < |before| ==> Staged(before[k], rows[..0]) == before[k] by {
      NoValues<S>(rows[..0]);
    }
    for n := 0 to |rows|
      invariant forall k :: 0 <= k < |before| ==> rollouts[k] == Staged(before[k], rows[..n])
    {
      IndexHits(before, idx, rows[n].rollout);
      forall k | 0 <= k < |before| ensures Staged(before[k], rows[..n + 1]) ==
                                           if before[k].id == rows[n].rollout
                                           then rollouts[k].(stages := rollouts[k].stages + [rows[n].value])
                                           else rollouts[k]
      {
        ValuesForNext(rows, n, before[k].id);
      }
      if rows[n].rollout in idx {
        var i := idx[rows[n].rollout];
        rollouts[i] := rollouts[i].(stages := rollouts[i].stages + [rows[n].value]);
      }
    }
    assert rows[..|rows|] == rows;
    StillIndexed(before, rollouts[..], idx);
  }

  function Paired<S, T>(r: Rollout<S, T>, rows: seq<Actor>): Rollout<S, T> {
    r.(pair := r.pair + NamesFor(rows, r.id))
  }

  method AppendPair<S, T>(rollouts: array<Rollout<S, T>>, idx: map<string, nat>, rows: seq<Actor>)
    requires Indexed(rollouts[..], idx)
    modifies rollouts
    ensures forall k :: 0 <= k < rollouts.Length ==> rollouts[k] == Paired(old(rollouts[k]), rows)
    ensures Indexed(rollouts[..], idx)
  {
    ghost var before := rollouts[..];
    hide Indexed, NamesFor;
    assert forall k :: 0 <= k < |before| ==> Paired(before[k], rows[..0]) == before[k] by {
      NoNames(rows[..0]);
    }
    for n := 0 to |rows|
      invariant forall k :: 0 <= k < |before| ==> rollouts[k] == Paired(before[k], rows[..n])
    {
      IndexHits(before, idx, rows[n].rollout);
      forall k | 0 <= k < |before| ensures Paired(before[k], rows[..n + 1]) ==
                                           if before[k].id == rows[n].rollout
                                           then rollouts[k].(pair := rollouts[k].pair + [rows[n].name])
                                           else rollouts[k]
      {
        NamesForNext(rows, n, before[k].id);
      }
      if rows[n].rollout in idx {
        var i := idx[rows[n].rollout];
        rollouts[i] := rollouts[i].(pair := rollouts[i].pair + [rows[n].name]);
      }
    }
    assert rows[..|rows|] == rows;
    StillIndexed(before, rollouts[..], idx);
  }

  function Tasked<S, T>(r: Rollout<S, T>, rows: seq<Child<T>>): Rollout<S, T> {
    r.(tasks := r.tasks + ValuesFor(rows, r.id))
  }

  method AppendTasks<S, T>(rollouts: array<Rollout<S, T>>, idx: map<string, nat>, rows: seq<Child<T>>)
    requires Indexed(rollouts[..], idx)
    modifies rollouts
    ensures forall k :: 0 <= k < rollouts.Length ==> rollouts[k] == Tasked(old(rollouts[k]), rows)
    ensures Indexed(rollouts[..], idx)
  {
    ghost var before := rollouts[..];
    hide Indexed, ValuesFor;
    assert forall k :: 0 <= k < |before| ==> Tasked(before[k], rows[..0]) == before[k] by {
      NoValues<T>(rows[..0]);
    }
    for n := 0 to |rows|
      invariant forall k :: 0 <= k < |before| ==> rollouts[k] == Tasked(before[k], rows[..n])
    {
      IndexHits(before, idx, rows[n].rollout);
      forall k | 0 <= k < |before| ensures Tasked(before[k], rows[..n + 1]) ==
                                           if before[k].id == rows[n].rollout
                                           then rollouts[k].(tasks := rollouts[k].tasks + [rows[n].value])
                                           else rollouts[k]
      {
        ValuesForNext(rows, n, before[k].id);
      }
      if rows[n].rollout in idx {
        var i := idx[rows[n].rollout];
        rollouts[i] := rollouts[i].(tasks := rollouts[i].tasks + [rows[n].value]);
      }
    }
    assert rows[..|rows|] == rows;
    StillIndexed(before, rollouts[..], idx);
  }

  /** Distributes the three batched results over the rollouts through an index from id to position. */
  method HydrateAll<S, T>(rollouts: array<Rollout<S, T>>, stages: seq<Child<S>>,
                          actors: seq<Actor>, tasks: seq<Child<T>>)
    requires forall i, j :: 0 <= i < j < rollouts.Length ==> rollouts[i].id != rollouts[j].id
    modifies rollouts
    ensures forall i :: 0 <= i < rollouts.Length ==>
              rollouts[i] == old(rollouts[i]).(stages := ValuesFor(stages, old(rollouts[i]).id),
                                               pair := NamesFor(actors, old(rollouts[i]).id),
                                               tasks := ValuesFor(tasks, old(rollouts[i]).id))
  {
    hide Indexed, ValuesFor, NamesFor;
    var idx := Reset(rollouts);
    AppendStages(rollouts, idx, stages);
    AppendPair(rollouts, idx, actors);
    AppendTasks(rollouts, idx, tasks);
  }

  // ---------- The simple loops ----------

  function Values<T>(rows: seq<Child<T>>): seq<T> {
    seq(|rows|, i requires 0 <= i < |rows| => rows[i].value)
  }

  function Names(rows: seq<Actor>): seq<string> {
    seq(|rows|, i requires 0 <= i < |rows| => rows[i].name)
  }

  /** The simple form: every returned row belongs to the one rollout. */
  method Hydrate<S, T>(r: Rollout<S, T>, stages: seq<Child<S>>, actors: seq<Actor>, tasks: seq<Child<T>>)
    returns (out: Rollout<S, T>)
    ensures out == r.(stages := Values(stages), pair := Names(actors), tasks := Values(tasks))
    ensures |out.stages| == |stages| && forall i :: 0 <= i < |stages| ==> out.stages[i] == stages[i].value
    ensures |out.pair| == |actors| && forall i :: 0 <= i < |actors| ==> out.pair[i] == actors[i].name
    ensures |out.tasks| == |tasks| && forall i :: 0 <= i < |tasks| ==> out.tasks[i] == tasks[i].value
  {
    out := r.(stages := [], pair := [], tasks := []);
    for n := 0 to |stages|
      invariant out == r.(stages := Values(stages[..n]), pair := [], tasks := [])
    {
      out := out.(stages := out.stages + [stages[n].value]);
    }
    assert stages[..|stages|] == stages;
    for n := 0 to |actors|
      invariant out == r.(stages := Values(stages), pair := Names(actors[..n]), tasks := [])
    {
      out := out.(pair := out.pair + [actors[n].name]);
    }
    assert actors[..|actors|] == actors;
    for n := 0 to |tasks|
      invariant out == r.(stages := Values(stages), pair := Names(actors), tasks := Values(tasks[..n]))
    {
      out := out.(tasks := out.tasks + [tasks[n].value]);
    }
    assert tasks[..|tasks|] == tasks;
  }

  // ---------- The batched form refines the simple one ----------

  function RowsFor<T>(rows: seq<Child<T>>, id: string): seq<Child<T>> {
    if rows == [] then []
    else
      var n := |rows| - 1;
      RowsFor(rows[..n], id) + if rows[n].rollout == id then [rows[n]] else []
  }

  lemma Snoc<X>(rows: seq<X>)
    requires rows != []
    ensures rows == rows[..|rows| - 1] + [rows[|rows| - 1]]
    ensures multiset(rows) == multiset(rows[..|rows| - 1]) + multiset{rows[|rows| - 1]}
  {
    assert rows == rows[..|rows| - 1] + [rows[|rows| - 1]];
  }

  lemma {:induction false} RowsForFacts<T>(rows: seq<Child<T>>, id: string, x: Child<T>)
    ensures multiset(RowsFor(rows, id))[x] == if x.rollout == id then multiset(rows)[x] else 0
  {
    if rows != [] {
      RowsForFacts(rows[..|rows| - 1], id, x);
      Snoc(rows);
    }
  }

  lemma {:induction false} RowsForValues<T>(rows: seq<Child<T>>, id: string)
    ensures Values(RowsFor(rows, id)) == ValuesFor(rows, id)
  {
    if rows != [] {
      RowsForValues(rows[..|rows| - 1], id);
    }
  }

  /** Picking one rollout's rows out of a batch keeps them ordered by their sequence number. */
  lemma {:induction false} RowsForOrdered<T>(rows: seq<Child<T>>, id: string, rank: string -> int)
    requires OrderedByRollout(rows, rank)
    ensures Ordered(RowsFor(rows, id))
  {
    if rows != [] {
      var n := |rows| - 1;
      var front := RowsFor(rows[..n], id);
      RowsForOrdered(rows[..n], id, rank);
      forall i | 0 <= i < |front| ensures front[i].rollout == id && front[i] in rows[..n] {
        RowsForFacts(rows[..n], id, front[i]);
        assert front[i] in multiset(front);
      }
    }
  }

  /** Rows with the same sequence number are the same row. */
  ghost predicate DistinctNumbers<T(!new)>(rows: multiset<Child<T>>) {
    forall x, y :: x in rows && y in rows && x.seqNo == y.seqNo ==> x == y
  }

  lemma BelowLast<T>(rows: seq<Child<T>>, x: Child<T>)
    requires Ordered(rows) && x in multiset(rows)
    ensures rows != [] && x.seqNo <= rows[|rows| - 1].seqNo
  {
    var i :| 0 <= i < |rows| && rows[i] == x;
  }

  lemma LastsAgree<T(!new)>(a: seq<Child<T>>, b: seq<Child<T>>)
    requires Ordered(a) && Ordered(b) && DistinctNumbers(multiset(a)) && multiset(a) == multiset(b)
    requires a != [] && b != []
    ensures a[|a| - 1] == b[|b| - 1]
  {
    hide Ordered;
    var x, y := a[|a| - 1], b[|b| - 1];
    assert x in multiset(a) && y in multiset(b);
    BelowLast(b, x);
    BelowLast(a, y);
  }

  lemma FrontsAgree<X>(a: seq<X>, b: seq<X>)
    requires a != [] && b != [] && a[|a| - 1] == b[|b| - 1] && multiset(a) == multiset(b)
    ensures multiset(a[..|a| - 1]) == multiset(b[..|b| - 1])
  {
    Snoc(a);
    Snoc(b);
    assert multiset(a[..|a| - 1]) == multiset(a) - multiset{a[|a| - 1]};
    assert multiset(b[..|b| - 1]) == multiset(b) - multiset{b[|b| - 1]};
  }

  lemma OrderedFront<T>(rows: seq<Child<T>>)
    requires Ordered(rows) && rows != []
    ensures Ordered(rows[..|rows| - 1])
  {}

  lemma DistinctFront<T(!new)>(rows: seq<Child<T>>)
    requires DistinctNumbers(multiset(rows)) && rows != []
    ensures DistinctNumbers(multiset(rows[..|rows| - 1]))
  {
    Snoc(rows);
  }

  lemma SameLength<X>(a: seq<X>, b: seq<X>)
    requires multiset(a) == multiset(b)
    ensures |a| == |b|
  {
    assert |a| == |multiset(a)| && |b| == |multiset(b)|;
  }

  /** An ordered listing is unique, because the sequence number is a key. */
  lemma {:induction false} OrderedIsUnique<T(!new)>(a: seq<Child<T>>, b: seq<Child<T>>)
    requires Ordered(a) && Ordered(b) && DistinctNumbers(multiset(a)) && multiset(a) == multiset(b)
    ensures a == b
    decreases |a|
  {
    hide Ordered, DistinctNumbers;
    SameLength(a, b);
    if a != [] {
      LastsAgree(a, b);
      FrontsAgree(a, b);
      OrderedFront(a);
      OrderedFront(b);
      DistinctFront(a);
      OrderedIsUnique(a[..|a| - 1], b[..|b| - 1]);
      assert a == a[..|a| - 1] + [a[|a| - 1]] && b == b[..|b| - 1] + [b[|b| - 1]];
    }
  }

  /**
   For all table contents: picking a rollout's rows out of the batched query gives the same values in the same order as
   asking for that rollout alone.
   */
  lemma BatchedChildrenAgree<T(!new)>(table: multiset<Child<T>>, ids: set<string>, rank: string -> int,
                                      batch: seq<Child<T>>, single: seq<Child<T>>, id: string)
    requires Keyed(table) && id in ids
    requires BatchQuery(table, ids, rank, batch) && SingleQuery(table, id, single)
    ensures ValuesFor(batch, id) == Values(single)
  {
    var picked := RowsFor(batch, id);
    RowsForOrdered(batch, id, rank);
    RowsForValues(batch, id);
    forall x: Child<T> ensures multiset(picked)[x] == (if x.rollout == id then table[x] else 0) {
      RowsForFacts(batch, id, x);
    }
    assert multiset(picked) == multiset(single);
    OrderedIsUnique(picked, single);
  }

  lemma {:induction false} NamesForCount(rows: seq<Actor>, id: string, name: string)
    ensures multiset(NamesFor(rows, id))[name] == multiset(rows)[Actor(id, name)]
  {
    if rows != [] {
      NamesForCount(rows[..|rows| - 1], id, name);
      Snoc(rows);
    }
  }

  lemma {:induction false} NamesCount(rows: seq<Actor>, id: string, name: string)
    requires forall i :: 0 <= i < |rows| ==> rows[i].rollout == id
    ensures multiset(Names(rows))[name] == multiset(rows)[Actor(id, name)]
  {
    if rows != [] {
      var n := |rows| - 1;
      NamesCount(rows[..n], id, name);
      assert Names(rows) == Names(rows[..n]) + [rows[n].name];
      Snoc(rows);
    }
  }

  /** For the unordered actors only the multiset is determined, and it agrees. */
  lemma BatchedActorsAgree(table: multiset<Actor>, ids: set<string>, batch: seq<Actor>, single: seq<Actor>, id: string)
    requires id in ids && BatchActors(table, ids, batch) && SingleActors(table, id, single)
    ensures multiset(NamesFor(batch, id)) == multiset(Names(single))
  {
    forall i | 0 <= i < |single| ensures single[i].rollout == id {
      assert single[i] in multiset(single);
    }
    forall name ensures multiset(NamesFor(batch, id))[name] == multiset(Names(single))[name] {
      NamesForCount(batch, id, name);
      NamesCount(single, id, name);
    }
  }

  /**
   Batched hydration refines the simple one: for all tables and every rollout of the list, both fill in the same
   stages and tasks in the same order and the same pair up to order, and nothing else differs.
   */
  lemma HydrationsAgree<S(!new), T(!new)>(
    r: Rollout<S, T>, ids: set<string>, rank: string -> int,
    stageTable: multiset<Child<S>>, actorTable: multiset<Actor>, taskTable: multiset<Child<T>>,
    stages: seq<Child<S>>, actors: seq<Actor>, tasks: seq<Child<T>>,
    stages1: seq<Child<S>>, actors1: seq<Actor>, tasks1: seq<Child<T>>)
    requires r.id in ids && Keyed(stageTable) && Keyed(taskTable)
    requires BatchQuery(stageTable, ids, rank, stages) && SingleQuery(stageTable, r.id, stages1)
    requires BatchActors(actorTable, ids, actors) && SingleActors(actorTable, r.id, actors1)
    requires BatchQuery(taskTable, ids, rank, tasks) && SingleQuery(taskTable, r.id, tasks1)
    ensures var batched := r.(stages := ValuesFor(stages, r.id), pair := NamesFor(actors, r.id),
                              tasks := ValuesFor(tasks, r.id));
            var simple := r.(stages := Values(stages1), pair := Names(actors1), tasks := Values(tasks1));
            && batched.(pair := simple.pair) == simple
            && multiset(batched.pair) == multiset(simple.pair)
  {
    BatchedChildrenAgree(stageTable, ids, rank, stages, stages1, r.id);
    BatchedChildrenAgree(taskTable, ids, rank, tasks, tasks1, r.id);
    BatchedActorsAgree(actorTable, ids, actors, actors1, r.id);
  }
}
