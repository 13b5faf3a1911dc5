/**
 Scheduling guardrails: no rollouts on Fridays, on public holidays of the canton of Bern, or on the day before
 one.
 */
module Holidays {
  import opened Gregorian
  import opened Easter
  import opened Decimals

  datatype Name =
    | Neujahr
    | Berchtoldstag
    | Karfreitag
    | Ostermontag
    | Auffahrt
    | Pfingstmontag
    | Bundesfeier
    | Weihnachten
    | Stephanstag

  datatype Warning = Friday | Holiday(name: Name) | HolidayEve(name: Name)

  // ---------- Keys ----------

  /** The YYYY-MM-DD key under which a date is looked up. */
  function Key(d: Date): string
    requires Valid(d)
  {
    Render(d.year) + "-" + Pad(d.month) + "-" + Pad(d.day)
  }

  lemma KeyInjective(d: Date, e: Date)
    requires Valid(d) && Valid(e) && Key(d) == Key(e)
    ensures d == e
  {
    PadFacts(d.month); PadFacts(d.day); PadFacts(e.month); PadFacts(e.day);
    SameSuffix(Render(d.year) + "-" + Pad(d.month) + "-", Pad(d.day),
               Render(e.year) + "-" + Pad(e.month) + "-", Pad(e.day));
    SameSuffix(Render(d.year) + "-" + Pad(d.month), "-", Render(e.year) + "-" + Pad(e.month), "-");
    SameSuffix(Render(d.year) + "-", Pad(d.month), Render(e.year) + "-", Pad(e.month));
    SameSuffix(Render(d.year), "-", Render(e.year), "-");
    PadInjective(d.day, e.day);
    PadInjective(d.month, e.month);
    RenderInjective(d.year, e.year);
  }

  /** The text read from its end: two digits of day, two of month, and the year in front, with dashes between them. */
  predicate Spells(k: string, d: Date) {
    var n := |k|;
    && n >= 7 && k[n - 6] == '-' && k[n - 3] == '-'
    && Reads(k, 0, n - 6, d.year) && Reads(k, n - 5, n - 3, d.month) && Reads(k, n - 2, n, d.day)
  }

  lemma KeySays(d: Date)
    requires Valid(d)
    ensures Spells(Key(d), d)
  {
    hide Render, Pad, Digits, Value;
    RenderReads(d.year);
    PadReads(d.month);
    PadReads(d.day);
    DashedParts(Key(d), Render(d.year), Pad(d.month), Pad(d.day));
  }

  // ---------- The holidays of a year ----------

  lemma WithinYear(d: Date)
    requires Valid(d)
    ensures DaysBeforeYear(d.year) < DayNumber(d) <= DaysBeforeYear(d.year + 1)
  {
    YearLength(d.year);
    MonthsAreOrdered(d.year, 1, d.month);
    MonthsAreOrdered(d.year, d.month, 12);
  }

  /** Day counts within the year pin down the year. */
  lemma YearOf(d: Date, year: int)
    requires Valid(d) && year >= 1 && DaysBeforeYear(year) < DayNumber(d) <= DaysBeforeYear(year) + 365
    ensures d.year == year
  {
    WithinYear(d);
    if d.year < year {
      YearsAreOrdered(d.year + 1, year);
    } else if d.year > year {
      YearsAreOrdered(year + 1, d.year);
    }
  }

  lemma {:induction false} DaysBeforeNonNegative(year: int)
    requires year >= 1
    ensures DaysBeforeYear(year) >= 0
  {
    if year > 1 {
      DaysBeforeNonNegative(year - 1);
    }
  }

  /** Easter lies between day 81 and day 116 of its year. */
  lemma EasterInYear(year: int)
    requires year >= 1
    ensures Valid(EasterSunday(year)) && Weekday(EasterSunday(year)) == 0
    ensures 81 <= DayNumber(EasterSunday(year)) - DaysBeforeYear(year) <= 116
  {
    FormulaIsEaster(year);
    assert DaysBeforeMonth(year, 2) == 31;
    assert DaysBeforeMonth(year, 3) == if Leap(year) then 60 else 59;
    assert DaysBeforeMonth(year, 4) == if Leap(year) then 91 else 90;
    DaysBeforeNonNegative(year);
  }

  datatype Entry = Entry(date: Day, name: Name)

  lemma WeekdayShift(d: Date, n: int)
    requires Valid(d) && DayNumber(d) + n >= 1
    ensures Weekday(d) == 0 ==> Weekday(AddDays(d, n)) == n % 7
  {
    var k := DayNumber(d);
    if k % 7 == 0 {
      assert k + n == 7 * (k / 7 + n / 7) + n % 7;
      QuotientUnique(k + n, 7, k / 7 + n / 7, n % 7);
    }
  }

  function Movable(easter: Date, n: int, name: Name): (e: Entry)
    requires Valid(easter) && DayNumber(easter) + n >= 1
    ensures DayNumber(e.date) == DayNumber(easter) + n && e.name == name
    ensures Weekday(easter) == 0 ==> Weekday(e.date) == n % 7
  {
    WeekdayShift(easter, n);
    Entry(AddDays(easter, n), name)
  }

  function Fixed(year: int, month: int, day: int, name: Name): (e: Entry)
    requires year >= 1 && 1 <= month <= 12 && 1 <= day <= 28
    ensures e.date == Date(year, month, day)
  {
    Entry(Date(year, month, day), name)
  }

  /** The fixed and the movable holidays, in the order in which the map is filled. */
  function HolidaysAround(year: int, easter: Date): (hs: seq<Entry>)
    requires year >= 1 && Valid(easter) && DayNumber(easter) > 2
    ensures |hs| == 9
  {
    [Fixed(year, 1, 1, Neujahr),
     Fixed(year, 1, 2, Berchtoldstag),
     Movable(easter, -2, Karfreitag),
     Movable(easter, 1, Ostermontag),
     Movable(easter, 39, Auffahrt),
     Movable(easter, 50, Pfingstmontag),
     Fixed(year, 8, 1, Bundesfeier),
     Fixed(year, 12, 25, Weihnachten),
     Fixed(year, 12, 26, Stephanstag)]
  }

  function HolidayList(year: int): (hs: seq<Entry>)
    requires year >= 1
    ensures |hs| == 9
  {
    EasterInYear(year);
    DaysBeforeNonNegative(year);
    HolidaysAround(year, EasterSunday(year))
  }

  lemma FixedDates(year: int)
    requires year >= 1
    ensures var b := DaysBeforeYear(year);
            && DayNumber(Date(year, 1, 1)) == b + 1 && DayNumber(Date(year, 1, 2)) == b + 2
            && b + 213 <= DayNumber(Date(year, 8, 1)) <= b + 214
            && b + 359 <= DayNumber(Date(year, 12, 25)) <= b + 360
            && DayNumber(Date(year, 12, 26)) == DayNumber(Date(year, 12, 25)) + 1
  {
    YearLength(year);
    assert DaysBeforeMonth(year, 8) == DaysBeforeMonth(year, 6) + 61;
  }

  /** The list is in calendar order. */
  lemma HolidaysInOrder(year: int)
    requires year >= 1
    ensures var hs := HolidayList(year);
            forall i :: 0 <= i < 8 ==> DayNumber(hs[i].date) < DayNumber(hs[i + 1].date)
  {
    hide EasterSunday, Movable, Fixed, DayNumber;
    EasterInYear(year);
    FixedDates(year);
    DaysBeforeNonNegative(year);
  }

  lemma {:induction false} OrderIsTransitive(hs: seq<Entry>, i: nat, j: nat)
    requires i <= j < |hs|
    requires forall k :: 0 <= k < |hs| - 1 ==> DayNumber(hs[k].date) < DayNumber(hs[k + 1].date)
    ensures DayNumber(hs[i].date) + (j - i) <= DayNumber(hs[j].date)
  {
    if i < j {
      OrderIsTransitive(hs, i, j - 1);
      assert DayNumber(hs[j - 1].date) < DayNumber(hs[j - 1 + 1].date);
    }
  }

  /** Friday, Monday, Thursday and Monday. */
  ghost predicate OnTheirWeekdays(hs: seq<Entry>) {
    && |hs| == 9
    && Weekday(hs[2].date) == 5 && Weekday(hs[3].date) == 1
    && Weekday(hs[4].date) == 4 && Weekday(hs[5].date) == 1
  }

  ghost predicate MovableNames(hs: seq<Entry>) {
    && |hs| == 9
    && hs[2].name == Karfreitag && hs[3].name == Ostermontag
    && hs[4].name == Auffahrt && hs[5].name == Pfingstmontag
  }

  lemma MovableWeekdays(year: int, easter: Date)
    requires year >= 1 && Valid(easter) && DayNumber(easter) > 2 && Weekday(easter) == 0
    ensures OnTheirWeekdays(HolidaysAround(year, easter)) && MovableNames(HolidaysAround(year, easter))
  {
    hide Movable, Fixed, DayNumber, Weekday, Valid;
  }

  lemma HolidaysInYear(year: int)
    requires year >= 1
    ensures forall i :: 0 <= i < 9 ==> HolidayList(year)[i].date.year == year
  {
    hide EasterSunday, Movable, Fixed;
    EasterInYear(year);
    DaysBeforeNonNegative(year);
    var hs := HolidayList(year);
    YearOf(hs[2].date, year);
    YearOf(hs[3].date, year);
    YearOf(hs[4].date, year);
    YearOf(hs[5].date, year);
  }

  ghost predicate DifferentDays(hs: seq<Entry>) {
    forall i, j :: 0 <= i < j < |hs| ==> hs[i].date != hs[j].date
  }

  lemma HolidaysDiffer(year: int)
    requires year >= 1
    ensures DifferentDays(HolidayList(year))
  {
    hide HolidayList, DayNumber, Valid;
    var hs := HolidayList(year);
    HolidaysInOrder(year);
    forall i, j | 0 <= i < j < |hs| ensures hs[i].date != hs[j].date {
      OrderIsTransitive(hs, i, j);
    }
  }

  lemma HolidayWeekdays(year: int)
    requires year >= 1
    ensures OnTheirWeekdays(HolidayList(year)) && MovableNames(HolidayList(year))
  {
    hide EasterSunday, HolidaysAround, Valid, DayNumber, Weekday, DaysBeforeYear;
    EasterInYear(year);
    DaysBeforeNonNegative(year);
    MovableWeekdays(year, EasterSunday(year));
  }

  // ---------- The rule of the holidays ----------

  /** When a holiday is celebrated: on a fixed date, or a fixed number of days from Easter Sunday. */
  predicate FallsOn(name: Name, d: Date, easter: Date)
    requires Valid(d) && Valid(easter)
  {
    match name
    case Neujahr => d.month == 1 && d.day == 1
    case Berchtoldstag => d.month == 1 && d.day == 2
    case Karfreitag => DayNumber(d) - DayNumber(easter) == -2
    case Ostermontag => DayNumber(d) - DayNumber(easter) == 1
    case Auffahrt => DayNumber(d) - DayNumber(easter) == 39
    case Pfingstmontag => DayNumber(d) - DayNumber(easter) == 50
    case Bundesfeier => d.month == 8 && d.day == 1
    case Weihnachten => d.month == 12 && d.day == 25
    case Stephanstag => d.month == 12 && d.day == 26
  }

  /** Easter being the first Sunday after the paschal full moon of the year. */
  ghost predicate Celebrated(d: Date, name: Name)
    requires Valid(d)
  {
    exists easter :: IsEaster(easter, d.year) && FallsOn(name, d, easter)
  }

  lemma FallsOnOneDay(name: Name, d: Date, e: Date, easter: Date)
    requires Valid(d) && Valid(e) && Valid(easter) && d.year == e.year
    requires FallsOn(name, d, easter) && FallsOn(name, e, easter)
    ensures d == e
  {
    hide DayNumber, DayAt;
    if DayNumber(d) == DayNumber(e) {
      DayAtOwnCount(d);
      DayAtOwnCount(e);
    }
  }

  /** The place of a holiday in the list. */
  function PlaceOf(name: Name): (i: nat)
    ensures i < 9
  {
    match name
    case Neujahr => 0
    case Berchtoldstag => 1
    case Karfreitag => 2
    case Ostermontag => 3
    case Auffahrt => 4
    case Pfingstmontag => 5
    case Bundesfeier => 6
    case Weihnachten => 7
    case Stephanstag => 8
  }

  lemma PlacesAround(year: int, easter: Date, name: Name)
    requires year >= 1 && Valid(easter) && DayNumber(easter) > 2
    ensures var hs := HolidaysAround(year, easter);
            && FallsOn(name, hs[PlaceOf(name)].date, easter)
            && forall i :: 0 <= i < 9 ==> (hs[i].name == name <==> i == PlaceOf(name))
  {
    hide DayNumber, Valid, Weekday, Movable;
  }

  lemma PlaceHolds(year: int, name: Name)
    requires year >= 1
    ensures IsEaster(EasterSunday(year), year)
    ensures FallsOn(name, HolidayList(year)[PlaceOf(name)].date, EasterSunday(year))
    ensures forall i :: 0 <= i < 9 ==> (HolidayList(year)[i].name == name <==> i == PlaceOf(name))
  {
    hide EasterSunday, HolidaysAround, DayNumber, Weekday, DaysBeforeYear, FallsOn, PlaceOf;
    FormulaIsEaster(year);
    EasterInYear(year);
    DaysBeforeNonNegative(year);
    PlacesAround(year, EasterSunday(year), name);
  }

  /** The list of a year holds exactly the holidays celebrated in it. */
  lemma ListFollowsRule(year: int, d: Date, name: Name)
    requires year >= 1 && Valid(d)
    ensures Entry(d, name) in HolidayList(year) <==> d.year == year && Celebrated(d, name)
  {
    hide HolidayList, EasterSunday, FallsOn, DayNumber, PlaceOf;
    var hs := HolidayList(year);
    PlaceHolds(year, name);
    HolidaysInYear(year);
    if Entry(d, name) in hs {
      var i :| 0 <= i < |hs| && hs[i] == Entry(d, name);
    }
    if d.year == year && Celebrated(d, name) {
      var easter :| IsEaster(easter, d.year) && FallsOn(name, d, easter);
      EasterIsUnique(year, easter);
      FallsOnOneDay(name, d, hs[PlaceOf(name)].date, easter);
      assert hs[PlaceOf(name)] in hs;
    }
  }

  /** What the map is filled with, in order. */
  function Keyed(hs: seq<Entry>): (pairs: seq<(string, Name)>)
    ensures |pairs| == |hs|
  {
    seq(|hs|, i requires 0 <= i < |hs| => (Key(hs[i].date), hs[i].name))
  }

  function Filled(pairs: seq<(string, Name)>): map<string, Name> {
    if pairs == [] then map[]
    else
      var n := |pairs| - 1;
      Filled(pairs[..n])[pairs[n].0 := pairs[n].1]
  }

  function HolidayMap(year: int): map<string, Name>
    requires year >= 1
  {
    Filled(Keyed(HolidayList(year)))
  }

  /** With distinct keys nothing is overwritten: a key is found exactly if it was added, with its own value. */
  lemma {:induction false} FilledExactly(pairs: seq<(string, Name)>, k: string)
    requires forall i, j :: 0 <= i < j < |pairs| ==> pairs[i].0 != pairs[j].0
    ensures k in Filled(pairs) <==> exists i :: 0 <= i < |pairs| && pairs[i].0 == k
    ensures forall i :: 0 <= i < |pairs| && pairs[i].0 == k ==> k in Filled(pairs) && Filled(pairs)[k] == pairs[i].1
    ensures |Filled(pairs)| == |pairs|
  {
    if pairs != [] {
      var n := |pairs| - 1;
      FilledExactly(pairs[..n], k);
      FilledExactly(pairs[..n], pairs[n].0);
      if i :| 0 <= i < n && pairs[i].0 == k {
        assert pairs[..n][i].0 == k;
      }
    }
  }

  ghost predicate IsHoliday(d: Date)
    requires Valid(d)
  {
    exists name :: Celebrated(d, name)
  }

  lemma LookupFindsEntries(hs: seq<Entry>, d: Date)
    requires DifferentDays(hs) && Valid(d)
    ensures Key(d) in Filled(Keyed(hs)) <==> exists i :: 0 <= i < |hs| && hs[i].date == d
    ensures forall i :: 0 <= i < |hs| && hs[i].date == d ==>
              Key(d) in Filled(Keyed(hs)) && Filled(Keyed(hs))[Key(d)] == hs[i].name
    ensures |Filled(Keyed(hs))| == |hs|
  {
    hide Key, Valid;
    var pairs := Keyed(hs);
    forall i, j | 0 <= i < j < |pairs| ensures pairs[i].0 != pairs[j].0 {
      if pairs[i].0 == pairs[j].0 {
        KeyInjective(hs[i].date, hs[j].date);
      }
    }
    FilledExactly(pairs, Key(d));
    if i :| 0 <= i < |pairs| && pairs[i].0 == Key(d) {
      KeyInjective(hs[i].date, d);
    }
    forall i | 0 <= i < |hs| && hs[i].date == d ensures pairs[i].0 == Key(d) {}
  }

  lemma LookupFindsListed(year: int, d: Date)
    requires year >= 1 && Valid(d)
    ensures |HolidayMap(year)| == 9
    ensures forall name :: Entry(d, name) in HolidayList(year) <==>
                             Key(d) in HolidayMap(year) && HolidayMap(year)[Key(d)] == name
  {
    hide HolidayList, Key, Valid;
    var hs := HolidayList(year);
    HolidaysDiffer(year);
    LookupFindsEntries(hs, d);
    if i :| 0 <= i < |hs| && hs[i].date == d {
      assert hs[i] in hs;
    } else {
      forall e | e in hs ensures e.date != d {
        var i :| 0 <= i < |hs| && hs[i] == e;
      }
    }
  }

  /** The map of a year has nine entries, and a date is found under a name exactly if it is celebrated by that name. */
  lemma LookupFindsHolidays(year: int, d: Date)
    requires year >= 1 && Valid(d)
    ensures |HolidayMap(year)| == 9
    ensures forall name :: Key(d) in HolidayMap(year) && HolidayMap(year)[Key(d)] == name <==>
                             d.year == year && Celebrated(d, name)
    ensures Key(d) in HolidayMap(year) <==> d.year == year && IsHoliday(d)
  {
    hide HolidayList, HolidayMap, Key, Valid, Celebrated;
    LookupFindsListed(year, d);
    forall name ensures Entry(d, name) in HolidayList(year) <==> d.year == year && Celebrated(d, name) {
      ListFollowsRule(year, d, name);
    }
    if Key(d) in HolidayMap(year) {
      assert Celebrated(d, HolidayMap(year)[Key(d)]);
    }
  }

  /** The date is in the map exactly if it is a holiday of the year, and under the name of that holiday. */
  ghost predicate RightEntry(holidays: map<string, Name>, year: int, d: Date)
    requires Valid(d)
  {
    forall name :: Key(d) in holidays && holidays[Key(d)] == name <==> d.year == year && Celebrated(d, name)
  }

  lemma MapIsFilled(year: int)
    requires year >= 1
    ensures HolidayMap(year) == Filled(Keyed(HolidayList(year)))
  {}

  /** The map is filled by adding one entry after another. */
  method BernHolidays(year: int) returns (holidays: map<string, Name>)
    requires year >= 1
    ensures holidays == HolidayMap(year) && |holidays| == 9
    ensures forall d: Day :: RightEntry(holidays, year, d)
  {
    hide HolidayList, Key, Celebrated, HolidayMap;
    MapIsFilled(year);
    var entries := HolidayList(year);
    ghost var pairs := Keyed(entries);
    holidays := map[];
    for i := 0 to |entries|
      invariant holidays == Filled(pairs[..i])
    {
      holidays := holidays[Key(entries[i].date) := entries[i].name];
      assert pairs[..i + 1][..i] == pairs[..i];
    }
    assert pairs[..|pairs|] == pairs;
    assert holidays == HolidayMap(year);
    LookupFindsHolidays(year, Date(1, 1, 1));
    assert |holidays| == 9;
    forall d: Day ensures RightEntry(holidays, year, d) {
      LookupFindsHolidays(year, d);
    }
  }

  // ---------- Warnings ----------

  function Looked(year: int, d: Date, warn: Name -> Warning): seq<Warning>
    requires year >= 1 && Valid(d)
  {
    var holidays := HolidayMap(year);
    if Key(d) in holidays then [warn(holidays[Key(d)])] else []
  }

  function Warnings(d: Date): seq<Warning>
    requires Valid(d)
  {
    (if Weekday(d) == 5 then [Friday] else [])
    + Looked(d.year, d, name => Holiday(name))
    + Looked(d.year, NextDay(d), name => HolidayEve(name))
  }

  function NameText(name: Name): string {
    match name
    case Neujahr => "Neujahr"
    case Berchtoldstag => "Berchtoldstag"
    case Karfreitag => "Karfreitag"
    case Ostermontag => "Ostermontag"
    case Auffahrt => "Auffahrt"
    case Pfingstmontag => "Pfingstmontag"
    case Bundesfeier => "Bundesfeier"
    case Weihnachten => "Weihnachten"
    case Stephanstag => "Stephanstag"
  }

  /** The sentence shown for a warning. */
  function Sentence(w: Warning): string {
    match w
    case Friday => "Freitag \U{2014} keine Rollouts an Freitagen"
    case Holiday(name) => "Berner Feiertag: " + NameText(name)
    case HolidayEve(name) => "Tag vor Berner Feiertag (" + NameText(name) + ")"
  }

  function Sentences(ws: seq<Warning>): seq<string> {
    seq(|ws|, i requires 0 <= i < |ws| => Sentence(ws[i]))
  }

  /** The list is built by pushing; both lookups use the map of the date's own year. */
  method ScheduleWarnings(d: Date) returns (out: seq<string>)
    requires Valid(d)
    ensures out == Sentences(Warnings(d))
  {
    hide HolidayMap, Key, Sentence;
    out := [];
    var holidays := BernHolidays(d.year);
    if Weekday(d) == 5 {
      out := out + [Sentence(Friday)];
    }
    if Key(d) in holidays {
      out := out + [Sentence(Holiday(holidays[Key(d)]))];
    }
    AddOneDay(d);
    var next := AddDays(d, 1);
    if Key(next) in holidays {
      out := out + [Sentence(HolidayEve(holidays[Key(next)]))];
    }
  }

  /** The holiday that goes by this name, told by its first letters. */
  function NameOf(text: string): Name
    requires |text| >= 2
  {
    if text[0] == 'N' then Neujahr
    else if text[0] == 'B' then (if text[1] == 'e' then Berchtoldstag else Bundesfeier)
    else if text[0] == 'K' then Karfreitag
    else if text[0] == 'O' then Ostermontag
    else if text[0] == 'A' then Auffahrt
    else if text[0] == 'P' then Pfingstmontag
    else if text[0] == 'W' then Weihnachten
    else Stephanstag
  }

  lemma NamesDiffer(name: Name)
    ensures |NameText(name)| >= 2 && NameOf(NameText(name)) == name
  {}

  lemma FirstLetter(w: Warning)
    ensures Sentence(w) != ""
            && Sentence(w)[0] == match w case Friday => 'F' case Holiday(_) => 'B' case HolidayEve(_) => 'T'
  {
    hide NameText;
  }

  /** Different warnings are shown as different sentences. */
  lemma SentencesDiffer(v: Warning, w: Warning)
    requires Sentence(v) == Sentence(w)
    ensures v == w
  {
    hide NameText, NameOf;
    FirstLetter(v);
    FirstLetter(w);
    if v.Holiday? {
      NamesDiffer(v.name);
      NamesDiffer(w.name);
      var n := |"Berner Feiertag: "|;
      assert NameText(v.name) == Sentence(v)[n..] == Sentence(w)[n..] == NameText(w.name);
    } else if v.HolidayEve? {
      NamesDiffer(v.name);
      NamesDiffer(w.name);
      SameSuffix("Tag vor Berner Feiertag (" + NameText(v.name), ")",
                 "Tag vor Berner Feiertag (" + NameText(w.name), ")");
      var n := |"Tag vor Berner Feiertag ("|;
      assert NameText(v.name) == ("Tag vor Berner Feiertag (" + NameText(v.name))[n..];
      assert NameText(w.name) == ("Tag vor Berner Feiertag (" + NameText(w.name))[n..];
    }
  }

  predicate NewYearsEve(d: Date) {
    d.month == 12 && d.day == 31
  }

  /** The promised rule: Friday, public holiday, or the day before one. */
  ghost predicate ShouldWarn(d: Date)
    requires Valid(d)
  {
    Weekday(d) == 5 || IsHoliday(d) || IsHoliday(NextDay(d))
  }

  lemma FirstAndLastHoliday(year: int)
    requires year >= 1
    ensures HolidayList(year)[0].date == Date(year, 1, 1) && HolidayList(year)[8].date == Date(year, 12, 26)
  {}

  lemma NotOnNewYearsEve(d: Date, name: Name)
    requires Valid(d) && NewYearsEve(d)
    ensures !Celebrated(d, name)
  {
    hide HolidayList, EasterSunday, Celebrated;
    FirstAndLastHoliday(d.year);
    HolidaysInOrder(d.year);
    ListFollowsRule(d.year, d, name);
    var hs := HolidayList(d.year);
    forall e | e in hs ensures e.date != d {
      var i :| 0 <= i < |hs| && hs[i] == e;
      OrderIsTransitive(hs, i, 8);
    }
  }

  /** 31 December is no holiday, and right before the first one of the next year. */
  lemma NewYear(d: Date)
    requires Valid(d) && NewYearsEve(d)
    ensures !IsHoliday(d)
    ensures IsHoliday(NextDay(d)) && NextDay(d).year == d.year + 1
  {
    hide EasterSunday, DayNumber;
    FormulaIsEaster(d.year);
    FormulaIsEaster(d.year + 1);
    assert Celebrated(NextDay(d), Neujahr) by {
      assert FallsOn(Neujahr, NextDay(d), EasterSunday(d.year + 1));
    }
    forall name ensures !Celebrated(d, name) {
      NotOnNewYearsEve(d, name);
    }
  }

  lemma LookedUp(year: int, d: Date, warn: Name -> Warning, w: Warning)
    requires year >= 1 && Valid(d)
    ensures w in Looked(year, d, warn) <==> d.year == year && exists name :: Celebrated(d, name) && w == warn(name)
  {
    hide HolidayMap, Key, Valid, Celebrated;
    LookupFindsHolidays(year, d);
    var holidays := HolidayMap(year);
    if Key(d) in holidays {
      assert Celebrated(d, holidays[Key(d)]);
    }
  }

  /** Each warning means what it says: which holiday it is, or whose eve. */
  lemma WarningsMean(d: Date, name: Name)
    requires Valid(d)
    ensures Friday in Warnings(d) <==> Weekday(d) == 5
    ensures Holiday(name) in Warnings(d) <==> Celebrated(d, name)
    ensures HolidayEve(name) in Warnings(d) <==> Celebrated(NextDay(d), name) && !NewYearsEve(d)
  {
    hide Looked, Weekday, Celebrated;
    var next := NextDay(d);
    assert next.year == d.year <==> !NewYearsEve(d);
    var today, eve := (n: Name) => Holiday(n), (n: Name) => HolidayEve(n);
    LookedUp(d.year, d, today, Friday);
    LookedUp(d.year, next, eve, Friday);
    LookedUp(d.year, d, today, Holiday(name));
    LookedUp(d.year, next, eve, Holiday(name));
    LookedUp(d.year, d, today, HolidayEve(name));
    LookedUp(d.year, next, eve, HolidayEve(name));
  }

  function Rank(w: Warning): nat {
    match w
    case Friday => 0
    case Holiday(_) => 1
    case HolidayEve(_) => 2
  }

  /** At most one warning of each kind, Friday first and the eve last; with `WarningsMean` this determines the list. */
  lemma WarningsInOrder(d: Date, i: nat, j: nat)
    requires Valid(d) && i < j < |Warnings(d)|
    ensures Rank(Warnings(d)[i]) < Rank(Warnings(d)[j])
  {
    hide HolidayMap, Key, Weekday;
  }

  /** What the code warns about, for every date. */
  lemma WarnsAbout(d: Date)
    requires Valid(d)
    ensures Warnings(d) != [] <==> Weekday(d) == 5 || IsHoliday(d) || (IsHoliday(NextDay(d)) && !NewYearsEve(d))
  {
    hide HolidayList, HolidayMap, Key;
    LookupFindsHolidays(d.year, d);
    LookupFindsHolidays(d.year, NextDay(d));
    assert NextDay(d).year == d.year <==> !NewYearsEve(d);
  }

  /**
   The warnings follow the promised rule on exactly the dates other than a 31 December that is not a Friday: there
   the eve of New Year's Day is looked up in the wrong year's map.
   */
  lemma WarnsCorrectlyIff(d: Date)
    requires Valid(d)
    ensures (Warnings(d) != [] <==> ShouldWarn(d)) <==> !(NewYearsEve(d) && Weekday(d) != 5)
  {
    WarnsAbout(d);
    if NewYearsEve(d) {
      NewYear(d);
    }
  }

  /** The failing family is not empty: 31 December 2026 is a Thursday without any warning. */
  lemma MissedNewYearsEve()
    ensures var d := Date(2026, 12, 31); Valid(d) && ShouldWarn(d) && Warnings(d) == []
  {
    var d := Date(2026, 12, 31);
    DaysBeforeYearClosed(2026);
    YearLength(2026);
    assert LeapDays(2025) == 491;
    assert DayNumber(d) == 365 * 2025 + 491 + 365;
    assert Weekday(d) == 4;
    NewYear(d);
    WarnsAbout(d);
  }
}
