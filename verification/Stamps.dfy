/**
 The rendering of instants in the feed, `20060102T150405Z` in universal time, what is left of an instant in it, and the
 feed that is printed with it.
 */
module Stamps {
  import Utf8
  import opened Options
  import opened Gregorian
  import opened Decimals
  import opened Feed
  import opened FeedReader
  import opened FeedExactness

  const NS_PER_SECOND: int := 1_000_000_000
  const SECONDS_PER_DAY: int := 86_400

  function SecondOf(t: int): int {
    t / NS_PER_SECOND
  }

  function DayCount(t: int): int {
    SecondOf(t) / SECONDS_PER_DAY + EPOCH
  }

  /** At least four digits, behind a minus sign where needed. */
  function YearText(year: int): string {
    if year >= 0 then FourDigits(year) else "-" + FourDigits(-year)
  }

  function DayText(d: Date): string
    requires Civil(d)
  {
    YearText(d.year) + Pad(d.month) + Pad(d.day)
  }

  /** The time of day, given as seconds since midnight. */
  function ClockText(s: int): (text: string)
    requires 0 <= s < SECONDS_PER_DAY
    ensures forall i :: 0 <= i < |text| ==> IsDigit(text[i])
  {
    Pad(s / 3600) + Pad(s / 60 % 60) + Pad(s % 60)
  }

  function Stamp(t: int): string {
    CivilDayExists(DayCount(t));
    DayText(CivilDay(DayCount(t))) + "T" + ClockText(SecondOf(t) % SECONDS_PER_DAY) + "Z"
  }

  lemma FourDigitsNonEmpty(n: nat)
    ensures FourDigits(n) != "" && IsDigit(FourDigits(n)[0])
  {
    if n < 10_000 {
      PadFacts(n / 100);
    }
  }

  lemma YearSign(year: int)
    ensures YearText(year) != "" && (YearText(year)[0] == '-' <==> year < 0)
  {
    FourDigitsNonEmpty(if year >= 0 then year else -year);
  }

  lemma YearTextInjective(y: int, z: int)
    requires YearText(y) == YearText(z)
    ensures y == z
  {
    hide FourDigits;
    YearSign(y);
    YearSign(z);
    if y >= 0 {
      FourDigitsInjective(y, z);
    } else {
      assert YearText(y)[1..] == FourDigits(-y) && YearText(z)[1..] == FourDigits(-z);
      FourDigitsInjective(-y, -z);
    }
  }

  lemma DayTextInjective(d: Date, e: Date)
    requires Civil(d) && Civil(e) && DayText(d) == DayText(e)
    ensures d == e
  {
    hide YearText, Pad;
    PadFacts(d.month); PadFacts(d.day); PadFacts(e.month); PadFacts(e.day);
    SameSuffix(YearText(d.year) + Pad(d.month), Pad(d.day), YearText(e.year) + Pad(e.month), Pad(e.day));
    SameSuffix(YearText(d.year), Pad(d.month), YearText(e.year), Pad(e.month));
    PadInjective(d.day, e.day);
    PadInjective(d.month, e.month);
    YearTextInjective(d.year, e.year);
  }

  lemma ClockParts(s: int, t: int)
    requires s >= 0 && t >= 0 && s / 3600 == t / 3600 && s / 60 % 60 == t / 60 % 60 && s % 60 == t % 60
    ensures s == t
  {
    assert s / 60 / 60 == s / 3600 && t / 60 / 60 == t / 3600;
    DivisionAlgorithm(s / 60, 60);
    DivisionAlgorithm(t / 60, 60);
  }

  lemma ClockTextInjective(s: int, t: int)
    requires 0 <= s < SECONDS_PER_DAY && 0 <= t < SECONDS_PER_DAY
    ensures |ClockText(s)| == |ClockText(t)| == 6
    ensures ClockText(s) == ClockText(t) ==> s == t
  {
    hide Pad;
    PadFacts(s / 3600); PadFacts(s / 60 % 60); PadFacts(s % 60);
    PadFacts(t / 3600); PadFacts(t / 60 % 60); PadFacts(t % 60);
    if ClockText(s) == ClockText(t) {
      SameSuffix(Pad(s / 3600) + Pad(s / 60 % 60), Pad(s % 60), Pad(t / 3600) + Pad(t / 60 % 60), Pad(t % 60));
      SameSuffix(Pad(s / 3600), Pad(s / 60 % 60), Pad(t / 3600), Pad(t / 60 % 60));
      PadInjective(s / 3600, t / 3600);
      PadInjective(s / 60 % 60, t / 60 % 60);
      PadInjective(s % 60, t % 60);
      ClockParts(s, t);
    }
  }

  predicate SameSecond(t: int, u: int) {
    t / 1_000_000_000 == u / 1_000_000_000
  }

  lemma SecondsOf(t: int, u: int)
    ensures SameSecond(t, u) <==> SecondOf(t) == SecondOf(u)
  {}

  /** A stamp determines its instant to the second, for every instant. */
  lemma StampIsTheSecond(t: int, u: int)
    ensures Stamp(t) == Stamp(u) <==> SameSecond(t, u)
  {
    hide DayText, ClockText, SecondOf, CivilDay, Civil, SameSecond;
    SecondsOf(t, u);
    var s, r := SecondOf(t) % SECONDS_PER_DAY, SecondOf(u) % SECONDS_PER_DAY;
    var d, e := CivilDay(DayCount(t)), CivilDay(DayCount(u));
    CivilDayExists(DayCount(t));
    CivilDayExists(DayCount(u));
    ClockTextInjective(s, r);
    if Stamp(t) == Stamp(u) {
      SameSuffix(DayText(d) + "T" + ClockText(s), "Z", DayText(e) + "T" + ClockText(r), "Z");
      SameSuffix(DayText(d) + "T", ClockText(s), DayText(e) + "T", ClockText(r));
      SameSuffix(DayText(d), "T", DayText(e), "T");
      DayTextInjective(d, e);
      CivilDayInjective(DayCount(t), DayCount(u));
    }
  }

  lemma FourDigitsLong(n: nat)
    ensures |FourDigits(n)| >= 4
  {
    FourDigitsReads(n);
    if n >= 10_000 {
      RenderLength(n);
    }
  }

  lemma ThreeParts(before: string, a: string, b: string, c: string, after: string)
    ensures var s := before + (a + b + c) + after;
            s == before + a + (b + c + after) && s == before + a + b + (c + after) && s == before + a + b + c + after
  {}

  lemma ClockSays(before: string, r: int, after: string)
    requires 0 <= r < SECONDS_PER_DAY
    ensures var s, n := before + ClockText(r) + after, |before|;
            && |ClockText(r)| == 6
            && Reads(s, n, n + 2, r / 3600) && Reads(s, n + 2, n + 4, r / 60 % 60) && Reads(s, n + 4, n + 6, r % 60)
  {
    hide Pad, Reads;
    var h, i, c := Pad(r / 3600), Pad(r / 60 % 60), Pad(r % 60);
    PadReads(r / 3600); PadReads(r / 60 % 60); PadReads(r % 60);
    ReadsPart(before, h, i + c + after, r / 3600);
    ReadsPart(before + h, i, c + after, r / 60 % 60);
    ReadsPart(before + h + i, c, after, r % 60);
    ThreeParts(before, h, i, c, after);
  }

  /** The three parts of a day behind an optional sign. */
  lemma PartsRead(minus: string, y: string, m: string, a: string, after: string, year: nat, month: nat, day: nat)
    requires Digits(y) && Digits(m) && Digits(a) && |m| == 2 && |a| == 2
    requires Value(y) == year && Value(m) == month && Value(a) == day
    ensures var s, n := minus + (y + m + a) + after, |minus + (y + m + a)|;
            Reads(s, |minus|, n - 4, year) && Reads(s, n - 4, n - 2, month) && Reads(s, n - 2, n, day)
  {
    hide Reads, Digits, Value;
    ReadsPart(minus, y, m + a + after, year);
    ReadsPart(minus + y, m, a + after, month);
    ReadsPart(minus + y + m, a, after, day);
    ThreeParts(minus, y, m, a, after);
  }

  lemma DayParts(d: Date, minus: string, year: nat)
    requires Civil(d) && (if d.year < 0 then minus == "-" && year == -d.year else minus == "" && year == d.year)
    ensures DayText(d) == minus + (FourDigits(year) + Pad(d.month) + Pad(d.day))
  {
    hide FourDigits, Pad;
  }

  lemma DaySays(d: Date, after: string)
    requires Civil(d)
    ensures var s, n := DayText(d) + after, |DayText(d)|;
            && n >= 8
            && (if d.year >= 0 then Reads(s, 0, n - 4, d.year) else s[0] == '-' && Reads(s, 1, n - 4, -d.year))
            && Reads(s, n - 4, n - 2, d.month) && Reads(s, n - 2, n, d.day)
  {
    hide FourDigits, Pad, Reads, DayText, Digits, Value;
    var minus := if d.year < 0 then "-" else "";
    var year := if d.year < 0 then -d.year else d.year;
    DayParts(d, minus, year);
    FourDigitsReads(year);
    FourDigitsLong(year);
    PadReads(d.month); PadReads(d.day);
    PartsRead(minus, FourDigits(year), Pad(d.month), Pad(d.day), after, year, d.month, d.day);
  }

  predicate SpellsDay(s: string, d: Date) {
    var n := |s|;
    && n >= 16
    && (if d.year >= 0 then Reads(s, 0, n - 12, d.year) else s[0] == '-' && Reads(s, 1, n - 12, -d.year))
    && Reads(s, n - 12, n - 10, d.month) && Reads(s, n - 10, n - 8, d.day)
  }

  /** `r` seconds of the day have passed. */
  predicate SpellsClock(s: string, r: int) {
    var n := |s|;
    && n >= 16 && s[n - 8] == 'T' && s[n - 1] == 'Z'
    && Reads(s, n - 7, n - 5, r / 3600) && Reads(s, n - 5, n - 3, r / 60 % 60) && Reads(s, n - 3, n - 1, r % 60)
  }

  lemma DaySpelled(d: Date, after: string)
    requires Civil(d) && |after| == 8
    ensures SpellsDay(DayText(d) + after, d)
  {
    hide DayText, Reads, Civil;
    DaySays(d, after);
  }

  lemma ClockSpelled(day: string, r: int)
    requires 0 <= r < SECONDS_PER_DAY && |day| >= 8
    ensures SpellsClock(day + "T" + ClockText(r) + "Z", r)
  {
    hide ClockText, Reads;
    ClockSays(day + "T", r, "Z");
  }

  lemma Halves(day: string, clock: string)
    ensures day + ("T" + clock + "Z") == day + "T" + clock + "Z" && |"T" + clock + "Z"| == |clock| + 2
  {}

  lemma SpelledOut(d: Date, r: int)
    requires Civil(d) && 0 <= r < SECONDS_PER_DAY
    ensures var s := DayText(d) + "T" + ClockText(r) + "Z"; SpellsDay(s, d) && SpellsClock(s, r)
  {
    hide DayText, ClockText, Civil, SpellsDay, SpellsClock;
    ClockTextInjective(r, r);
    DaySays(d, "");
    Halves(DayText(d), ClockText(r));
    DaySpelled(d, "T" + ClockText(r) + "Z");
    ClockSpelled(DayText(d), r);
  }

  /**
   What stands where in a stamp, read from the end: year, month and day of the calendar, a `T`, and the hours, minutes
   and seconds that have passed of the day.
   */
  lemma StampSays(t: int)
    ensures SpellsDay(Stamp(t), CivilDay(t / 1_000_000_000 / 86_400 + 719_163))
    ensures SpellsClock(Stamp(t), t / 1_000_000_000 % 86_400)
  {
    hide DayText, ClockText, CivilDay, Civil, SpellsDay, SpellsClock;
    CivilDayExists(DayCount(t));
    SpelledOut(CivilDay(DayCount(t)), SecondOf(t) % SECONDS_PER_DAY);
  }

  // ---------- The characters of a stamp ----------

  predicate Harmless(s: string) {
    forall i :: 0 <= i < |s| ==> IsDigit(s[i]) || s[i] == '-' || s[i] == 'T' || s[i] == 'Z'
  }

  lemma HarmlessConcat(s: string, t: string)
    requires Harmless(s) && Harmless(t)
    ensures Harmless(s + t)
  {}

  lemma HarmlessIsAscii(s: string)
    requires Harmless(s)
    ensures Utf8.Ascii(s) && '\r' !in s
  {}

  lemma HarmlessDay(d: Date)
    requires Civil(d)
    ensures Harmless(DayText(d))
  {
    hide FourDigits, Pad;
    if d.year < 0 {
      HarmlessConcat("-", FourDigits(-d.year));
    }
    HarmlessConcat(YearText(d.year), Pad(d.month));
    HarmlessConcat(YearText(d.year) + Pad(d.month), Pad(d.day));
  }

  lemma StampIsHarmless(t: int)
    ensures Harmless(Stamp(t))
  {
    CivilDayExists(DayCount(t));
    hide DayText, ClockText, SecondOf, CivilDay, Civil, DayCount;
    var day, clock := DayText(CivilDay(DayCount(t))), ClockText(SecondOf(t) % SECONDS_PER_DAY);
    HarmlessDay(CivilDay(DayCount(t)));
    HarmlessConcat(day, "T");
    HarmlessConcat(day + "T", clock);
    HarmlessConcat(day + "T" + clock, "Z");
  }

  lemma StampsAreClean()
    ensures CleanTimes(Stamp) && forall t :: Utf8.Valid(Stamp(t))
  {
    forall t ensures '\r' !in Stamp(t) && Utf8.Valid(Stamp(t)) {
      StampIsHarmless(t);
      HarmlessIsAscii(Stamp(t));
      Utf8.AsciiIsValid(Stamp(t));
    }
  }

  // ---------- The feed ----------

  /** The printer with its own stamps.  What a writer accepts in full is read back as all events of the rollouts. */
  method WriteCalendar(room: nat, rs: seq<Rollout>, now: int) returns (out: string, err: bool)
    ensures out == Upto(Document(rs, now, Stamp), room) && (err <==> |Document(rs, now, Stamp)| > room)
    ensures !err ==> (ReadCalendar(out) == Some(EventsOf(rs, now, Stamp)) <==> UnbrokenIds(rs))
  {
    out, err := WriteICS(room, rs, now, Stamp);
    StampsAreClean();
    FeedRoundTripIff(rs, now, Stamp);
  }

  /** The start read back for a stage is the stamp of precisely the instants within the second it starts in. */
  lemma StartsAreReadBack(rs: seq<Rollout>, now: int, k: nat, i: nat) returns (e: nat)
    requires UnbrokenIds(rs) && k < |rs| && i < |rs[k].stages|
    ensures var events := ReadCalendar(Document(rs, now, Stamp));
            && events.Some? && e < |events.value|
            && events.value[e].uid == rs[k].id + "-" + Render(i) + "@releaseradar"
            && forall t :: events.value[e].start == Stamp(t) <==> SameSecond(t, rs[k].stages[i].startAt)
  {
    hide Document, ReadCalendar, EventsOf, Stamp, SecondOf;
    StampsAreClean();
    FeedRoundTrip(rs, now, Stamp);
    e := EveryStageHasItsEvent(rs, now, Stamp, k, i);
    forall t ensures Stamp(rs[k].stages[i].startAt) == Stamp(t) <==> SameSecond(t, rs[k].stages[i].startAt) {
      StampIsTheSecond(rs[k].stages[i].startAt, t);
    }
  }

  /**
   The end read back for a stage is the stamp of precisely the instants within the second in which its duration is over,
   or in which an hour is over if it has no duration.
   */
  lemma EndsAreReadBack(rs: seq<Rollout>, now: int, k: nat, i: nat) returns (e: nat)
    requires UnbrokenIds(rs) && k < |rs| && i < |rs[k].stages|
    ensures var events := ReadCalendar(Document(rs, now, Stamp));
            var stage := rs[k].stages[i];
            && events.Some? && e < |events.value|
            && events.value[e].uid == rs[k].id + "-" + Render(i) + "@releaseradar"
            && (stage.duration > 0 ==>
                  forall t :: events.value[e].end == Stamp(t) <==> SameSecond(t, stage.startAt + stage.duration))
            && (stage.duration <= 0 ==>
                  forall t :: events.value[e].end == Stamp(t) <==> SameSecond(t, stage.startAt + 3_600_000_000_000))
  {
    hide Document, ReadCalendar, EventsOf, Stamp, SecondOf;
    StampsAreClean();
    FeedRoundTrip(rs, now, Stamp);
    e := EveryStageHasItsEvent(rs, now, Stamp, k, i);
    var stage := rs[k].stages[i];
    var end := stage.startAt + if stage.duration > 0 then stage.duration else 3_600_000_000_000;
    forall t ensures Stamp(end) == Stamp(t) <==> SameSecond(t, end) {
      StampIsTheSecond(end, t);
    }
  }
}
