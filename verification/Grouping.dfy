/**
 The list view: one row per rollout stage, sorted by start time, filtered, and grouped by day in one pass that
 only compares each row's day with the day of the row before it.
 */
module Grouping {
  import opened DateKeys
  import opened Gregorian

  datatype Stage = Stage(startAt: int, status: string)

  datatype Rollout = Rollout(id: string, product: string, stages: seq<Stage>)

  datatype Row = Row(rollout: string, index: nat, product: string, date: int, status: string)

  datatype Group = Group(key: string, date: int, rows: seq<Row>)

  datatype Window = Upcoming | All | Past

  // ---------- Rows ----------

  function StageRows(r: Rollout, n: nat): seq<Row>
    requires n <= |r.stages|
  {
    seq(n, i requires 0 <= i < n => Row(r.id, i, r.product, r.stages[i].startAt, r.stages[i].status))
  }

  function AllRows(rs: seq<Rollout>): seq<Row> {
    if rs == [] then []
    else
      var n := |rs| - 1;
      AllRows(rs[..n]) + StageRows(rs[n], |rs[n].stages|)
  }

  /** The number of stages of the first `k` rollouts. */
  function StagesBefore(rs: seq<Rollout>, k: nat): nat
    requires k <= |rs|
  {
    if k == 0 then 0 else StagesBefore(rs, k - 1) + |rs[k - 1].stages|
  }

  lemma {:induction false} StagesBeforePrefix(rs: seq<Rollout>, n: nat, k: nat)
    requires k <= n <= |rs|
    ensures StagesBefore(rs[..n], k) == StagesBefore(rs, k)
  {
    if k > 0 {
      StagesBeforePrefix(rs, n, k - 1);
    }
  }

  lemma {:induction false} RowCount(rs: seq<Rollout>)
    ensures |AllRows(rs)| == StagesBefore(rs, |rs|)
  {
    if rs != [] {
      var n := |rs| - 1;
      RowCount(rs[..n]);
      StagesBeforePrefix(rs, n, n);
    }
  }

  /** Stage `i` of rollout `k` has its row behind those of all stages before it, and there are no other rows. */
  lemma {:induction false} EveryStageHasItsRow(rs: seq<Rollout>, k: nat, i: nat)
    requires k < |rs| && i < |rs[k].stages|
    ensures |AllRows(rs)| == StagesBefore(rs, |rs|) && StagesBefore(rs, k) + i < |AllRows(rs)|
    ensures var row := AllRows(rs)[StagesBefore(rs, k) + i];
            && row.rollout == rs[k].id && row.index == i && row.product == rs[k].product
            && row.date == rs[k].stages[i].startAt && row.status == rs[k].stages[i].status
  {
    var n := |rs| - 1;
    RowCount(rs);
    RowCount(rs[..n]);
    StagesBeforePrefix(rs, n, n);
    if k < n {
      EveryStageHasItsRow(rs[..n], k, i);
      StagesBeforePrefix(rs, n, k);
    }
  }

  ghost predicate Sorted(rows: seq<Row>) {
    forall i, j :: 0 <= i < j < |rows| ==> rows[i].date <= rows[j].date
  }

  function Insert(rows: seq<Row>, row: Row): seq<Row> {
    if rows == [] || rows[|rows| - 1].date <= row.date then rows + [row]
    else Insert(rows[..|rows| - 1], row) + [rows[|rows| - 1]]
  }

  /** The stable sort by date. */
  function SortedRows(rows: seq<Row>): seq<Row> {
    if rows == [] then [] else Insert(SortedRows(rows[..|rows| - 1]), rows[|rows| - 1])
  }

  lemma {:induction false} InsertKeepsAll(rows: seq<Row>, row: Row)
    ensures multiset(Insert(rows, row)) == multiset(rows) + multiset{row}
  {
    if rows != [] {
      var n := |rows| - 1;
      assert rows == rows[..n] + [rows[n]];
      if rows[n].date > row.date {
        InsertKeepsAll(rows[..n], row);
      }
    }
  }

  lemma {:induction false} InsertKeepsOrder(rows: seq<Row>, row: Row)
    requires Sorted(rows)
    ensures Sorted(Insert(rows, row))
    ensures rows != [] && rows[|rows| - 1].date > row.date ==>
              forall i :: 0 <= i < |Insert(rows, row)| ==> Insert(rows, row)[i].date <= rows[|rows| - 1].date
  {
    if rows != [] && rows[|rows| - 1].date > row.date {
      var n := |rows| - 1;
      var front := Insert(rows[..n], row);
      InsertKeepsOrder(rows[..n], row);
      forall i | 0 <= i < |front| ensures front[i].date <= rows[n].date {
        if n > 0 && rows[n - 1].date > row.date {
          assert rows[..n][n - 1] == rows[n - 1];
          assert front[i].date <= rows[n - 1].date;
        } else if n > 0 {
          assert front == rows[..n] + [row];
        }
      }
    }
  }

  lemma EmptySorted()
    ensures Sorted([])
  {}

  lemma {:induction false} SortFacts(rows: seq<Row>)
    ensures Sorted(SortedRows(rows)) && multiset(SortedRows(rows)) == multiset(rows)
  {
    hide Insert, Sorted;
    if rows == [] {
      EmptySorted();
    } else {
      var n := |rows| - 1;
      SortFacts(rows[..n]);
      InsertKeepsAll(SortedRows(rows[..n]), rows[n]);
      InsertKeepsOrder(SortedRows(rows[..n]), rows[n]);
      assert multiset(rows) == multiset(rows[..n]) + multiset{rows[n]} by {
        assert rows == rows[..n] + [rows[n]];
      }
    }
  }

  function AtTime(rows: seq<Row>, date: int): seq<Row> {
    if rows == [] then []
    else
      var n := |rows| - 1;
      AtTime(rows[..n], date) + if rows[n].date == date then [rows[n]] else []
  }

  lemma AtTimeSnoc(rows: seq<Row>, row: Row, date: int)
    ensures AtTime(rows + [row], date) == AtTime(rows, date) + if row.date == date then [row] else []
  {
    assert (rows + [row])[..|rows|] == rows;
  }

  lemma {:induction false} InsertIsStable(rows: seq<Row>, row: Row, date: int)
    ensures AtTime(Insert(rows, row), date) == AtTime(rows, date) + if row.date == date then [row] else []
  {
    hide AtTime;
    AtTimeSnoc(rows, row, date);
    if rows != [] && rows[|rows| - 1].date > row.date {
      var n := |rows| - 1;
      assert rows == rows[..n] + [rows[n]];
      AtTimeSnoc(rows[..n], rows[n], date);
      InsertIsStable(rows[..n], row, date);
      AtTimeSnoc(Insert(rows[..n], row), rows[n], date);
    }
  }

  /** Rows that start at the same time keep their order. */
  lemma {:induction false} SortIsStable(rows: seq<Row>, date: int)
    ensures AtTime(SortedRows(rows), date) == AtTime(rows, date)
  {
    if rows != [] {
      var n := |rows| - 1;
      SortIsStable(rows[..n], date);
      InsertIsStable(SortedRows(rows[..n]), rows[n], date);
    }
  }

  method Rows(rs: seq<Rollout>) returns (out: seq<Row>)
    ensures out == SortedRows(AllRows(rs))
  {
    out := [];
    for k := 0 to |rs|
      invariant out == AllRows(rs[..k])
    {
      var r := rs[k];
      ghost var before := out;
      for i := 0 to |r.stages|
        invariant out == before + StageRows(r, i)
      {
        out := out + [Row(r.id, i, r.product, r.stages[i].startAt, r.stages[i].status)];
      }
      assert rs[..k + 1][..k] == rs[..k];
    }
    assert rs[..|rs|] == rs;
    out := SortedRows(out);
  }

  // ---------- Filter ----------

  predicate Shown(row: Row, status: string, product: string, window: Window, now: int) {
    && (status == "all" || row.status == status)
    && (product == "all" || row.product == product)
    && (window.Upcoming? ==> row.date >= now)
    && (window.Past? ==> row.date < now)
  }

  /** The three filters are independent of each other, each can be switched off, and this is what each of them shows. */
  lemma FiltersMean(row: Row, status: string, product: string, window: Window, now: int)
    ensures Shown(row, status, product, window, now) <==>
            && Shown(row, status, "all", All, now)
            && Shown(row, "all", product, All, now)
            && Shown(row, "all", "all", window, now)
    ensures Shown(row, "all", "all", All, now)
    ensures status != "all" ==> (Shown(row, status, "all", All, now) <==> row.status == status)
    ensures product != "all" ==> (Shown(row, "all", product, All, now) <==> row.product == product)
    ensures Shown(row, "all", "all", Upcoming, now) <==> row.date >= now
    ensures Shown(row, "all", "all", Past, now) <==> row.date < now
  {}

  function Filtered(rows: seq<Row>, status: string, product: string, window: Window, now: int): seq<Row> {
    if rows == [] then []
    else
      var n := |rows| - 1;
      Filtered(rows[..n], status, product, window, now)
      + if Shown(rows[n], status, product, window, now) then [rows[n]] else []
  }

  lemma {:induction false} FilterCounts(rows: seq<Row>, status: string, product: string, window: Window, now: int,
                                        row: Row)
    ensures multiset(Filtered(rows, status, product, window, now))[row] ==
            if Shown(row, status, product, window, now) then multiset(rows)[row] else 0
  {
    hide Shown;
    if rows != [] {
      var n := |rows| - 1;
      FilterCounts(rows[..n], status, product, window, now, row);
      assert multiset(rows) == multiset(rows[..n]) + multiset{rows[n]} by {
        assert rows == rows[..n] + [rows[n]];
      }
    }
  }

  lemma {:induction false} FilterKeepsOrder(rows: seq<Row>, status: string, product: string, window: Window, now: int)
    requires Sorted(rows)
    ensures Sorted(Filtered(rows, status, product, window, now))
    ensures forall i :: 0 <= i < |Filtered(rows, status, product, window, now)| ==>
              Filtered(rows, status, product, window, now)[i] in rows
  {
    if rows != [] {
      var n := |rows| - 1;
      FilterKeepsOrder(rows[..n], status, product, window, now);
    }
  }

  lemma NoRows(status: string, product: string, window: Window, now: int, date: int)
    ensures AtTime([], date) == [] && Filtered([], status, product, window, now) == []
  {}

  lemma FilteredSnoc(rows: seq<Row>, row: Row, status: string, product: string, window: Window, now: int)
    ensures Filtered(rows + [row], status, product, window, now) ==
            Filtered(rows, status, product, window, now) +
            if Shown(row, status, product, window, now) then [row] else []
  {
    assert (rows + [row])[..|rows|] == rows;
  }

  /** Filtering and looking at one start time can be exchanged. */
  lemma {:induction false} FilterAtTime(rows: seq<Row>, status: string, product: string, window: Window, now: int,
                                        date: int)
    ensures AtTime(Filtered(rows, status, product, window, now), date) ==
            Filtered(AtTime(rows, date), status, product, window, now)
  {
    hide Shown, AtTime, Filtered;
    if rows == [] {
      NoRows(status, product, window, now, date);
    } else {
      var n := |rows| - 1;
      assert rows == rows[..n] + [rows[n]];
      var shown, same := Filtered(rows[..n], status, product, window, now), AtTime(rows[..n], date);
      assert shown + [] == shown && same + [] == same;
      FilterAtTime(rows[..n], status, product, window, now, date);
      FilteredSnoc(rows[..n], rows[n], status, product, window, now);
      AtTimeSnoc(rows[..n], rows[n], date);
      AtTimeSnoc(Filtered(rows[..n], status, product, window, now), rows[n], date);
      FilteredSnoc(AtTime(rows[..n], date), rows[n], status, product, window, now);
    }
  }

  // ---------- Groups ----------

  function Flattened(groups: seq<Group>): seq<Row> {
    if groups == [] then [] else Flattened(groups[..|groups| - 1]) + groups[|groups| - 1].rows
  }

  /** The group is not empty, starts at the date it shows, and all its rows have its key. */
  ghost predicate WellKeyed(group: Group) {
    && group.rows != [] && group.date == group.rows[0].date
    && forall i :: 0 <= i < |group.rows| ==> DateKey(group.rows[i].date) == group.key
  }

  /** One group per key. */
  ghost predicate DayByDay(groups: seq<Group>) {
    && (forall g :: 0 <= g < |groups| ==> WellKeyed(groups[g]))
    && forall g, h :: 0 <= g < h < |groups| ==> groups[g].key != groups[h].key
  }

  /** All groups have started by `date`, and the last row of all is from then. */
  ghost predicate Until(groups: seq<Group>, date: int) {
    && groups != [] && DateKey(date) == groups[|groups| - 1].key
    && forall g :: 0 <= g < |groups| ==> groups[g].date <= date
  }

  function Started(groups: seq<Group>, row: Row): seq<Group> {
    groups + [Group(DateKey(row.date), row.date, [row])]
  }

  function Extended(groups: seq<Group>, row: Row): seq<Group>
    requires groups != []
  {
    var n := |groups| - 1;
    groups[n := groups[n].(rows := groups[n].rows + [row])]
  }

  lemma {:induction false} StartFlattens(groups: seq<Group>, row: Row)
    ensures Flattened(Started(groups, row)) == Flattened(groups) + [row]
  {
    hide DateKey;
    assert Started(groups, row)[..|groups|] == groups;
  }

  /** A row later than all others whose key is not the last one has a new key: keys do not come back. */
  lemma KeyIsNew(groups: seq<Group>, date: int, row: Row, g: nat)
    requires DayByDay(groups) && Until(groups, date) && date <= row.date && g < |groups|
    requires DateKey(row.date) != groups[|groups| - 1].key
    ensures groups[g].key != DateKey(row.date)
  {
    hide DateKey;
    assert WellKeyed(groups[g]) && DateKey(groups[g].rows[0].date) == groups[g].key;
    if groups[g].key == DateKey(row.date) {
      KeysAreIntervals(groups[g].date, date, row.date);
    }
  }

  lemma SingleRow(row: Row)
    ensures WellKeyed(Group(DateKey(row.date), row.date, [row]))
  {
    hide DateKey;
  }

  lemma StartKeeps(groups: seq<Group>, date: int, row: Row)
    requires DayByDay(groups) && (groups != [] ==> Until(groups, date) && date <= row.date)
    requires groups != [] ==> DateKey(row.date) != groups[|groups| - 1].key
    ensures DayByDay(Started(groups, row)) && Until(Started(groups, row), row.date)
  {
    hide DateKey, WellKeyed;
    var next := Started(groups, row);
    SingleRow(row);
    forall g | 0 <= g < |groups| ensures next[g].key != DateKey(row.date) {
      KeyIsNew(groups, date, row, g);
    }
  }

  lemma ExtendFlattens(groups: seq<Group>, row: Row)
    requires groups != []
    ensures Flattened(Extended(groups, row)) == Flattened(groups) + [row]
  {
    var n := |groups| - 1;
    var next := Extended(groups, row);
    assert next[..n] == groups[..n];
    assert Flattened(groups[..n]) + (groups[n].rows + [row]) == Flattened(groups) + [row];
  }

  lemma ExtendKeeps(groups: seq<Group>, date: int, row: Row)
    requires DayByDay(groups) && Until(groups, date) && date <= row.date
    requires DateKey(row.date) == groups[|groups| - 1].key
    ensures DayByDay(Extended(groups, row)) && Until(Extended(groups, row), row.date)
  {
    hide DateKey;
    assert WellKeyed(groups[|groups| - 1]);
  }

  lemma EmptyGroups()
    ensures DayByDay([]) && Flattened([]) == []
  {}

  /** One pass: start a new group whenever the key changes, otherwise extend the last one. */
  method Groups(rows: seq<Row>) returns (groups: seq<Group>)
    requires Sorted(rows)
    ensures Flattened(groups) == rows && DayByDay(groups)
  {
    hide DayByDay, Flattened, Until, DateKey;
    groups := [];
    EmptyGroups();
    for k := 0 to |rows|
      invariant Flattened(groups) == rows[..k] && DayByDay(groups)
      invariant groups == [] <==> k == 0
      invariant k > 0 ==> Until(groups, rows[k - 1].date)
    {
      var row := rows[k];
      ghost var date := if k > 0 then rows[k - 1].date else 0;
      if groups == [] || DateKey(row.date) != groups[|groups| - 1].key {
        StartKeeps(groups, date, row);
        StartFlattens(groups, row);
        groups := groups + [Group(DateKey(row.date), row.date, [row])];
      } else {
        ExtendKeeps(groups, date, row);
        ExtendFlattens(groups, row);
        var last := groups[|groups| - 1];
        groups := groups[|groups| - 1 := last.(rows := last.rows + [row])];
      }
    }
    assert rows[..|rows|] == rows;
  }

  /**
   What the groups mean in days: rows of the same day are in the same group, and the rows of a group are all of one day
   if years have four digits, and of one month in any case.
   */
  lemma GroupsAreDays(groups: seq<Group>, g: nat, h: nat, i: nat, j: nat)
    requires DayByDay(groups) && g < |groups| && h < |groups| && i < |groups[g].rows| && j < |groups[h].rows|
    ensures var a, b := groups[g].rows[i].date, groups[h].rows[j].date;
            && (DayIndex(a) == DayIndex(b) ==> g == h)
            && (g == h && FourDigitYear(DayOf(a)) ==> DayIndex(a) == DayIndex(b))
            && (g == h ==> SameMonth(DayOf(a), DayOf(b)))
  {
    hide DateKey, DayIndex, DayOf;
    var a, b := groups[g].rows[i].date, groups[h].rows[j].date;
    assert WellKeyed(groups[g]) && WellKeyed(groups[h]);
    assert DateKey(a) == groups[g].key && DateKey(b) == groups[h].key;
    if DayIndex(a) == DayIndex(b) {
      SameDaySameKey(a, b);
    }
    if g == h {
      SameKeySameDay(a, b);
    }
  }

  /**
   The whole view is a partition of what should be shown: the groups, concatenated, are the filtered rows in order of
   time, every row is in the group of its key, and no key appears twice.  Rows with the same start come in the order
   of the rollouts and their stages.
   */
  method View(rs: seq<Rollout>, status: string, product: string, window: Window, now: int) returns (groups: seq<Group>)
    ensures DayByDay(groups) && Sorted(Flattened(groups))
    ensures Flattened(groups) == Filtered(SortedRows(AllRows(rs)), status, product, window, now)
    ensures forall date :: AtTime(Flattened(groups), date) ==
              Filtered(AtTime(AllRows(rs), date), status, product, window, now)
    ensures forall row :: multiset(Flattened(groups))[row] ==
              if Shown(row, status, product, window, now) then multiset(AllRows(rs))[row] else 0
  {
    var rows := Rows(rs);
    SortFacts(AllRows(rs));
    FilterKeepsOrder(rows, status, product, window, now);
    forall row ensures multiset(Filtered(rows, status, product, window, now))[row] ==
                       if Shown(row, status, product, window, now) then multiset(AllRows(rs))[row] else 0
    {
      FilterCounts(rows, status, product, window, now, row);
    }
    forall date
      ensures AtTime(Filtered(rows, status, product, window, now), date) ==
              Filtered(AtTime(AllRows(rs), date), status, product, window, now)
    {
      FilterAtTime(rows, status, product, window, now, date);
      SortIsStable(AllRows(rs), date);
    }
    groups := Groups(Filtered(rows, status, product, window, now));
  }
}
