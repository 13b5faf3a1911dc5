/**
 Which advance warnings a rollout gets: the windows per environment, the catch-up for stages whose
 windows have all passed, and the cascade plan that produces the stages.  Times are integers in
 nanoseconds, as in Go.
 */
module Schedule {
  const SECOND: int := 1_000_000_000
  const HOUR: int := 3600 * SECOND
  const DAY: int := 24 * HOUR

  datatype Stage = Stage(env: string, startAt: int)

  datatype Item = Item(stageSeq: nat, channel: string, fireAt: int)

  function ChannelOf(env: string): string {
    if env == "non-prod" then "TMS_NP" else "TMS_PROD"
  }

  function Advances(env: string): seq<int> {
    if env == "prod1" then [7 * DAY, DAY, HOUR]
    else if env == "prod2" then [14 * DAY, 7 * DAY, HOUR]
    else [HOUR]
  }

  /** The windows of one stage that are still in the future. */
  function Windows(i: nat, stage: Stage, now: int, advances: seq<int>): seq<Item> {
    if advances == [] then []
    else
      var front := Windows(i, stage, now, advances[..|advances| - 1]);
      var fireAt := stage.startAt - advances[|advances| - 1];
      if fireAt > now then front + [Item(i, ChannelOf(stage.env), fireAt)] else front
  }

  function StageItems(i: nat, stage: Stage, now: int): seq<Item> {
    var windows := Windows(i, stage, now, Advances(stage.env));
    if windows == [] then [Item(i, ChannelOf(stage.env), now + SECOND)] else windows
  }

  function Items(stages: seq<Stage>, now: int): seq<Item> {
    if stages == [] then []
    else
      var n := |stages| - 1;
      Items(stages[..n], now) + StageItems(n, stages[n], now)
  }

  lemma NoItems(now: int)
    ensures Items([], now) == []
  {}

  lemma ItemsSnoc(stages: seq<Stage>, stage: Stage, now: int)
    ensures Items(stages + [stage], now) == Items(stages, now) + StageItems(|stages|, stage, now)
  {
    assert (stages + [stage])[..|stages|] == stages;
  }

  // ---------- What is scheduled ----------

  ghost predicate HasWindow(stage: Stage, advances: seq<int>, fireAt: int) {
    exists j :: 0 <= j < |advances| && fireAt == stage.startAt - advances[j]
  }

  /** The rule of the announcements, in hours before the start of a stage. */
  predicate AnnouncedBefore(env: string, hours: int) {
    if env == "prod1" then hours == 168 || hours == 24 || hours == 1
    else if env == "prod2" then hours == 336 || hours == 168 || hours == 1
    else hours == 1
  }

  /** A window of the stage opens at this time. */
  predicate OpensAt(stage: Stage, fireAt: int) {
    var before := stage.startAt - fireAt;
    before % 3_600_000_000_000 == 0 && AnnouncedBefore(stage.env, before / 3_600_000_000_000)
  }

  /** A window of the stage is still ahead and this item announces it. */
  predicate IsWindow(stage: Stage, now: int, item: Item) {
    item.fireAt > now && OpensAt(stage, item.fireAt)
  }

  /** Every window of the stage has passed, the last one being an hour before the start in every environment. */
  predicate AllPassed(stage: Stage, now: int) {
    stage.startAt - 3_600_000_000_000 <= now
  }

  predicate RightChannel(env: string, channel: string) {
    if env == "non-prod" then channel == "TMS_NP" else channel == "TMS_PROD"
  }

  /** The rule the handler implements, stated for one item. */
  predicate Warranted(stages: seq<Stage>, now: int, item: Item) {
    && item.stageSeq < |stages|
    && var stage := stages[item.stageSeq];
    && RightChannel(stage.env, item.channel)
    && (IsWindow(stage, now, item) || (AllPassed(stage, now) && item.fireAt == now + 1_000_000_000))
  }

  /** The advances of the handler are those of the rule. */
  lemma WindowsOpen(stage: Stage, fireAt: int)
    ensures HasWindow(stage, Advances(stage.env), fireAt) <==> OpensAt(stage, fireAt)
  {
    var advances := Advances(stage.env);
    var before := stage.startAt - fireAt;
    if HasWindow(stage, advances, fireAt) {
      var j :| 0 <= j < |advances| && fireAt == stage.startAt - advances[j];
      assert before == advances[j];
    }
    if OpensAt(stage, fireAt) {
      var hours := before / 3_600_000_000_000;
      assert before == hours * 3_600_000_000_000;
      if hours == 1 {
        assert before == advances[|advances| - 1];
      } else if hours == 168 {
        assert before == advances[if stage.env == "prod1" then 0 else 1];
      } else if hours == 24 {
        assert before == advances[1];
      } else {
        assert before == advances[0];
      }
    }
  }

  lemma LastWindow(stage: Stage)
    ensures OpensAt(stage, stage.startAt - 3_600_000_000_000)
    ensures forall t :: OpensAt(stage, t) ==> t <= stage.startAt - 3_600_000_000_000
  {
    forall t | OpensAt(stage, t) ensures t <= stage.startAt - 3_600_000_000_000 {
      WindowsOpen(stage, t);
    }
  }

  lemma HasWindowSnoc(stage: Stage, advances: seq<int>, fireAt: int)
    requires advances != []
    ensures var n := |advances| - 1;
            HasWindow(stage, advances, fireAt) <==>
            HasWindow(stage, advances[..n], fireAt) || fireAt == stage.startAt - advances[n]
  {
    var n := |advances| - 1;
    if HasWindow(stage, advances, fireAt) && fireAt != stage.startAt - advances[n] {
      var j :| 0 <= j < |advances| && fireAt == stage.startAt - advances[j];
      assert fireAt == stage.startAt - advances[..n][j];
    }
  }

  lemma {:induction false} WindowsExactly(i: nat, stage: Stage, now: int, advances: seq<int>, item: Item)
    ensures item in Windows(i, stage, now, advances) <==>
            item.stageSeq == i && item.channel == ChannelOf(stage.env) && item.fireAt > now
            && HasWindow(stage, advances, item.fireAt)
  {
    if advances != [] {
      var n := |advances| - 1;
      WindowsExactly(i, stage, now, advances[..n], item);
      HasWindowSnoc(stage, advances, item.fireAt);
      HasWindowSnoc(stage, advances, stage.startAt - advances[n]);
    }
  }

  lemma StageItemsExactly(i: nat, stage: Stage, now: int, item: Item)
    ensures item in StageItems(i, stage, now) <==>
            item.stageSeq == i && RightChannel(stage.env, item.channel)
            && (IsWindow(stage, now, item) || (AllPassed(stage, now) && item.fireAt == now + 1_000_000_000))
  {
    hide Advances, OpensAt;
    var advances := Advances(stage.env);
    var windows := Windows(i, stage, now, advances);
    WindowsExactly(i, stage, now, advances, item);
    WindowsOpen(stage, item.fireAt);
    LastWindow(stage);
    var last := Item(i, ChannelOf(stage.env), stage.startAt - 3_600_000_000_000);
    WindowsExactly(i, stage, now, advances, last);
    WindowsOpen(stage, last.fireAt);
    if windows != [] {
      WindowsExactly(i, stage, now, advances, windows[0]);
      WindowsOpen(stage, windows[0].fireAt);
      assert windows[0] in windows;
    }
  }

  /** The computed items are exactly the warranted ones: future windows, and a catch-up when none is left. */
  lemma {:induction false} ItemsExactly(stages: seq<Stage>, now: int, item: Item)
    ensures item in Items(stages, now) <==> Warranted(stages, now, item)
  {
    if stages != [] {
      var n := |stages| - 1;
      ItemsExactly(stages[..n], now, item);
      StageItemsExactly(n, stages[n], now, item);
    }
  }

  /** The nested loops of the handler. */
  method ScheduleNotifications(stages: seq<Stage>, now: int) returns (items: seq<Item>)
    ensures items == Items(stages, now) && forall item :: item in items <==> Warranted(stages, now, item)
  {
    hide Advances, ChannelOf, Items, Warranted;
    NoItems(now);
    items := [];
    for i := 0 to |stages|
      invariant items == Items(stages[..i], now)
    {
      var stage := stages[i];
      var channel := ChannelOf(stage.env);
      var advances := Advances(stage.env);
      var scheduled := false;
      ghost var before, windows := items, [];
      for j := 0 to |advances|
        invariant items == before + windows && windows == Windows(i, stage, now, advances[..j])
        invariant scheduled <==> windows != []
      {
        var fireAt := stage.startAt - advances[j];
        assert advances[..j + 1][..j] == advances[..j];
        if fireAt > now {
          items := items + [Item(i, channel, fireAt)];
          windows := windows + [Item(i, channel, fireAt)];
          scheduled := true;
        }
      }
      assert advances[..|advances|] == advances;
      if !scheduled {
        items := items + [Item(i, channel, now + SECOND)];
      }
      ItemsSnoc(stages[..i], stage, now);
      assert stages[..i] + [stage] == stages[..i + 1];
    }
    assert stages[..|stages|] == stages;
    forall item ensures item in items <==> Warranted(stages, now, item) {
      ItemsExactly(stages, now, item);
    }
  }

  ghost predicate Distinct<T>(s: seq<T>) {
    forall i, j :: 0 <= i < j < |s| ==> s[i] != s[j]
  }

  lemma {:induction false} WindowsDistinct(i: nat, stage: Stage, now: int, advances: seq<int>)
    requires Distinct(advances)
    ensures Distinct(Windows(i, stage, now, advances)) && |Windows(i, stage, now, advances)| <= |advances|
  {
    if advances != [] {
      var n := |advances| - 1;
      WindowsDistinct(i, stage, now, advances[..n]);
      WindowsExactly(i, stage, now, advances[..n], Item(i, ChannelOf(stage.env), stage.startAt - advances[n]));
    }
  }

  lemma StageItemsDistinct(i: nat, stage: Stage, now: int)
    ensures Distinct(StageItems(i, stage, now)) && 1 <= |StageItems(i, stage, now)| <= 3
  {
    WindowsDistinct(i, stage, now, Advances(stage.env));
  }

  /** Items are pairwise distinct and all lie after now: they collide neither with each other nor with the past. */
  lemma {:induction false} ItemsDistinctAndAhead(stages: seq<Stage>, now: int)
    ensures Distinct(Items(stages, now))
    ensures forall item :: item in Items(stages, now) ==> item.fireAt > now
  {
    forall item | item in Items(stages, now) ensures item.fireAt > now {
      ItemsExactly(stages, now, item);
    }
    if stages != [] {
      var n := |stages| - 1;
      var front, back := Items(stages[..n], now), StageItems(n, stages[n], now);
      ItemsDistinctAndAhead(stages[..n], now);
      StageItemsDistinct(n, stages[n], now);
      forall i, j | 0 <= i < |front| && 0 <= j < |back| ensures front[i] != back[j] {
        assert front[i] in front && back[j] in back;
        ItemsExactly(stages[..n], now, front[i]);
        StageItemsExactly(n, stages[n], now, back[j]);
      }
    }
  }

  /** Earlier stage first, and within a stage the earlier warning first. */
  predicate Before(x: Item, y: Item) {
    x.stageSeq < y.stageSeq || (x.stageSeq == y.stageSeq && x.fireAt < y.fireAt)
  }

  ghost predicate InOrder(items: seq<Item>) {
    forall i, j :: 0 <= i < j < |items| ==> Before(items[i], items[j])
  }

  lemma {:induction false} WindowsInOrder(i: nat, stage: Stage, now: int, advances: seq<int>)
    requires forall j, k :: 0 <= j < k < |advances| ==> advances[j] > advances[k]
    ensures InOrder(Windows(i, stage, now, advances))
  {
    if advances != [] {
      var n := |advances| - 1;
      var front := Windows(i, stage, now, advances[..n]);
      WindowsInOrder(i, stage, now, advances[..n]);
      forall x | 0 <= x < |front| ensures front[x].stageSeq == i && front[x].fireAt < stage.startAt - advances[n] {
        WindowsExactly(i, stage, now, advances[..n], front[x]);
        assert front[x] in front;
        var j :| 0 <= j < n && front[x].fireAt == stage.startAt - advances[..n][j];
        assert advances[j] > advances[n];
      }
    }
  }

  lemma StageItemsInOrder(i: nat, stage: Stage, now: int)
    ensures InOrder(StageItems(i, stage, now))
  {
    WindowsInOrder(i, stage, now, Advances(stage.env));
  }

  /** The items come in the order of the stages and of time, which together with `ItemsExactly` determines the list. */
  lemma {:induction false} ItemsInOrder(stages: seq<Stage>, now: int)
    ensures InOrder(Items(stages, now))
  {
    if stages != [] {
      var n := |stages| - 1;
      var front, back := Items(stages[..n], now), StageItems(n, stages[n], now);
      ItemsInOrder(stages[..n], now);
      StageItemsInOrder(n, stages[n], now);
      forall x | 0 <= x < |front| ensures front[x].stageSeq < n {
        assert front[x] in front;
        ItemsExactly(stages[..n], now, front[x]);
      }
      forall y | 0 <= y < |back| ensures back[y].stageSeq == n {
        assert back[y] in back;
        StageItemsExactly(n, stages[n], now, back[y]);
      }
    }
  }

  /** Neither a window of the stage nor its catch-up, if it needs one, falls due while the plan is under way. */
  ghost predicate KeepsAhead(stage: Stage, readAt: int, now: int) {
    && (forall t :: OpensAt(stage, t) ==> !(readAt < t <= now))
    && (AllPassed(stage, readAt) ==> now < readAt + 1_000_000_000)
  }

  lemma LateItem(stages: seq<Stage>, i: nat, readAt: int, now: int) returns (late: Item)
    requires i < |stages| && !KeepsAhead(stages[i], readAt, now)
    ensures late in Items(stages, readAt) && late.fireAt <= now
  {
    hide OpensAt;
    var stage := stages[i];
    if t :| OpensAt(stage, t) && readAt < t <= now {
      late := Item(i, ChannelOf(stage.env), t);
    } else {
      late := Item(i, ChannelOf(stage.env), readAt + 1_000_000_000);
    }
    ItemsExactly(stages, readAt, late);
  }

  /**
   When a plan whose clock was read at `readAt` commits at `now`, all its items are still ahead exactly if no window of
   any stage opened in between and, where a catch-up is needed, less than a second has passed.
   */
  lemma StillAheadIff(stages: seq<Stage>, readAt: int, now: int)
    ensures (forall item :: item in Items(stages, readAt) ==> now < item.fireAt)
            <==> forall i :: 0 <= i < |stages| ==> KeepsAhead(stages[i], readAt, now)
  {
    if forall i :: 0 <= i < |stages| ==> KeepsAhead(stages[i], readAt, now) {
      forall item | item in Items(stages, readAt) ensures now < item.fireAt {
        ItemsExactly(stages, readAt, item);
        assert KeepsAhead(stages[item.stageSeq], readAt, now);
      }
    } else {
      var i :| 0 <= i < |stages| && !KeepsAhead(stages[i], readAt, now);
      var late := LateItem(stages, i, readAt, now);
    }
  }

  // ---------- Cascade plans ----------

  /** Delays may be fractions of an hour. */
  datatype PlanEntry = PlanEntry(stage: string, delayHours: real)

  const NS_PER_MS: int := 1_000_000

  /** A time stamp keeps whole milliseconds, cut off towards zero. */
  function TimeClip(ms: real): int {
    if ms >= 0.0 then ms.Floor else -((-ms).Floor)
  }

  /** `base` is in milliseconds.  A rollout is never without a stage: lacking a plan it goes to non-prod at once. */
  function CascadeStages(base: int, plan: seq<PlanEntry>): (stages: seq<Stage>)
    ensures |stages| == if plan == [] then 1 else |plan|
  {
    var entries := if plan == [] then [PlanEntry("non-prod", 0.0)] else plan;
    seq(|entries|, i requires 0 <= i < |entries| =>
      Stage(entries[i].stage, NS_PER_MS * TimeClip(base as real + entries[i].delayHours * 3_600_000.0)))
  }

  predicate RespectsLeadTimes(plan: seq<PlanEntry>) {
    forall e :: e in plan ==>
      && e.delayHours >= 0.0
      && (e.stage == "prod1" ==> e.delayHours >= 168.0)
      && (e.stage == "prod2" ==> e.delayHours >= 336.0)
  }

  lemma ClipOfWhole(ms: int)
    ensures TimeClip(ms as real) == ms
  {
    assert (ms as real).Floor == ms && (-(ms as real)).Floor == -ms;
  }

  /**
   The expansion of a plan: one stage per entry, in order and with its environment, starting at the anchor plus the
   delay to the millisecond, the rest being cut off towards zero.  Without a plan there is one non-prod stage at the
   anchor.
   */
  lemma CascadeExactly(base: int, plan: seq<PlanEntry>, i: nat)
    ensures plan == [] ==> CascadeStages(base, plan) == [Stage("non-prod", 1_000_000 * base)]
    ensures i < |plan| ==>
              var stage := CascadeStages(base, plan)[i];
              var ms, exact := stage.startAt / 1_000_000, base as real + 3_600_000.0 * plan[i].delayHours;
              && stage.env == plan[i].stage && stage.startAt == 1_000_000 * ms
              && (exact >= 0.0 ==> ms as real <= exact < ms as real + 1.0)
              && (exact <= 0.0 ==> ms as real - 1.0 < exact <= ms as real)
  {
    if plan == [] {
      ClipOfWhole(base);
    } else if i < |plan| {
      var ms := TimeClip(base as real + plan[i].delayHours * 3_600_000.0);
      assert CascadeStages(base, plan)[i].startAt == 1_000_000 * ms;
      assert 1_000_000 * ms / 1_000_000 == ms;
    }
  }

  /** Cutting off a fraction of a millisecond never undercuts a whole number of them. */
  lemma ClipKeepsBound(ms: real, n: int)
    requires ms >= n as real
    ensures TimeClip(ms) >= n
  {}

  lemma {:induction false} AllWindowsAhead(i: nat, stage: Stage, now: int, advances: seq<int>)
    requires forall j :: 0 <= j < |advances| ==> stage.startAt - advances[j] > now
    ensures |Windows(i, stage, now, advances)| == |advances|
  {
    if advances != [] {
      var n := |advances| - 1;
      AllWindowsAhead(i, stage, now, advances[..n]);
    }
  }

  /**
   A plan that respects the lead times, anchored more than an hour ahead, is announced in full: no stage needs a
   catch-up, production stages get all three warnings and every other stage its one.
   */
  lemma CascadeIsAnnouncedInFull(base: int, plan: seq<PlanEntry>, now: int, i: nat)
    requires RespectsLeadTimes(plan) && NS_PER_MS * base > now + HOUR && i < |CascadeStages(base, plan)|
    ensures var stage := CascadeStages(base, plan)[i];
            && !AllPassed(stage, now)
            && |StageItems(i, stage, now)| == (if stage.env == "prod1" || stage.env == "prod2" then 3 else 1)
            && forall item :: item in StageItems(i, stage, now) ==> IsWindow(stage, now, item)
  {
    var stage := CascadeStages(base, plan)[i];
    var hours := if plan == [] then 0.0 else plan[i].delayHours;
    if plan != [] {
      assert plan[i] in plan;
    }
    var lead := if stage.env == "prod1" then 168 else if stage.env == "prod2" then 336 else 0;
    ClipKeepsBound(base as real + hours * 3_600_000.0, base + lead * 3_600_000);
    assert stage.startAt >= NS_PER_MS * base + lead * HOUR;
    var advances := Advances(stage.env);
    forall j | 0 <= j < |advances| ensures stage.startAt - advances[j] > now {}
    assert stage.startAt - advances[0] > now;
    AllWindowsAhead(i, stage, now, Advances(stage.env));
    forall item | item in StageItems(i, stage, now) ensures IsWindow(stage, now, item) {
      StageItemsExactly(i, stage, now, item);
    }
  }
}
