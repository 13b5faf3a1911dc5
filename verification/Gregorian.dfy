/**
 The Gregorian calendar by its definition: leap years, month lengths, a day count from 1 January of year 1 (a
 Monday), and stepping from day to day.
 */
module Gregorian {
  datatype Date = Date(year: int, month: int, day: int)

  predicate Leap(year: int) {
    year % 4 == 0 && (year % 100 != 0 || year % 400 == 0)
  }

  function DaysIn(year: int, month: int): (n: int)
    requires 1 <= month <= 12
    ensures 28 <= n <= 31
  {
    if month == 2 then (if Leap(year) then 29 else 28)
    else if month == 4 || month == 6 || month == 9 || month == 11 then 30
    else 31
  }

  predicate Valid(d: Date) {
    d.year >= 1 && 1 <= d.month <= 12 && 1 <= d.day <= DaysIn(d.year, d.month)
  }

  /** A date that exists. */
  type Day = d: Date | Valid(d) witness Date(1, 1, 1)

  function DaysBeforeYear(year: int): int
    requires year >= 1
  {
    if year == 1 then 0 else DaysBeforeYear(year - 1) + if Leap(year - 1) then 366 else 365
  }

  function DaysBeforeMonth(year: int, month: int): int
    requires 1 <= month <= 12
  {
    if month == 1 then 0 else DaysBeforeMonth(year, month - 1) + DaysIn(year, month - 1)
  }

  function DayNumber(d: Date): int
    requires Valid(d)
  {
    DaysBeforeYear(d.year) + DaysBeforeMonth(d.year, d.month) + d.day
  }

  /** 0 is Sunday, as in `Date.getDay`. */
  function Weekday(d: Date): int
    requires Valid(d)
  {
    DayNumber(d) % 7
  }

  function NextDay(d: Date): (r: Date)
    requires Valid(d)
    ensures Valid(r)
  {
    if d.day < DaysIn(d.year, d.month) then d.(day := d.day + 1)
    else if d.month < 12 then Date(d.year, d.month + 1, 1)
    else Date(d.year + 1, 1, 1)
  }

  function PreviousDay(d: Date): Date
    requires Valid(d) && DayNumber(d) > 1
  {
    if d.day > 1 then d.(day := d.day - 1)
    else if d.month > 1 then Date(d.year, d.month - 1, DaysIn(d.year, d.month - 1))
    else Date(d.year - 1, 12, 31)
  }

  lemma YearLength(year: int)
    requires year >= 1
    ensures DaysBeforeMonth(year, 12) == if Leap(year) then 335 else 334
    ensures DaysBeforeMonth(year, 6) == if Leap(year) then 152 else 151
  {
    assert DaysBeforeMonth(year, 2) == 31;
    assert DaysBeforeMonth(year, 4) == if Leap(year) then 91 else 90;
    assert DaysBeforeMonth(year, 6) == if Leap(year) then 152 else 151;
    assert DaysBeforeMonth(year, 8) == if Leap(year) then 213 else 212;
    assert DaysBeforeMonth(year, 10) == if Leap(year) then 274 else 273;
  }

  /** From March on, month lengths follow the pattern of 153 days in five months. */
  lemma MonthsByFormula(year: int, month: int)
    requires 1 <= month <= 12
    ensures DaysBeforeMonth(year, month) ==
            if month <= 2 then 31 * (month - 1)
            else (153 * (month - 3) + 2) / 5 + if Leap(year) then 60 else 59
  {
    hide Leap;
    assert DaysBeforeMonth(year, 2) == 31;
    assert DaysBeforeMonth(year, 3) == if Leap(year) then 60 else 59;
    assert DaysBeforeMonth(year, 4) == DaysBeforeMonth(year, 3) + 31;
    assert DaysBeforeMonth(year, 5) == DaysBeforeMonth(year, 3) + 61;
    assert DaysBeforeMonth(year, 6) == DaysBeforeMonth(year, 3) + 92;
    assert DaysBeforeMonth(year, 7) == DaysBeforeMonth(year, 3) + 122;
    assert DaysBeforeMonth(year, 8) == DaysBeforeMonth(year, 3) + 153;
    assert DaysBeforeMonth(year, 9) == DaysBeforeMonth(year, 3) + 184;
    assert DaysBeforeMonth(year, 10) == DaysBeforeMonth(year, 3) + 214;
    assert DaysBeforeMonth(year, 11) == DaysBeforeMonth(year, 3) + 245;
    assert DaysBeforeMonth(year, 12) == DaysBeforeMonth(year, 3) + 275;
  }

  /** Stepping a day forward moves the day count by one; stepping back undoes it. */
  lemma DayAfter(d: Date)
    requires Valid(d)
    ensures DayNumber(NextDay(d)) == DayNumber(d) + 1
  {
    YearLength(d.year);
  }

  lemma DayBefore(d: Date)
    requires Valid(d) && DayNumber(d) > 1
    ensures Valid(PreviousDay(d)) && NextDay(PreviousDay(d)) == d
    ensures DayNumber(PreviousDay(d)) == DayNumber(d) - 1
  {
    if d.month == 1 && d.day == 1 {
      assert d.year > 1;
    }
    DayAfter(PreviousDay(d));
  }

  /** The k-th day of the calendar. */
  function DayAt(k: int): (d: Date)
    requires k >= 1
    ensures Valid(d) && DayNumber(d) == k
  {
    if k == 1 then Date(1, 1, 1)
    else
      DayAfter(DayAt(k - 1));
      NextDay(DayAt(k - 1))
  }

  lemma {:induction false} MonthsAreOrdered(year: int, m: int, k: int)
    requires 1 <= m <= k <= 12
    ensures DaysBeforeMonth(year, m) <= DaysBeforeMonth(year, k)
    ensures m < k ==> DaysBeforeMonth(year, m) + DaysIn(year, m) <= DaysBeforeMonth(year, k)
    decreases k
  {
    if m < k {
      MonthsAreOrdered(year, m, k - 1);
    }
  }

  lemma {:induction false} YearsAreOrdered(y: int, z: int)
    requires 1 <= y <= z
    ensures DaysBeforeYear(y) <= DaysBeforeYear(z)
    decreases z
  {
    if y < z {
      YearsAreOrdered(y, z - 1);
    }
  }

  lemma {:induction false} DayCountPositive(d: Date)
    requires Valid(d)
    ensures DayNumber(d) >= 1
  {
    MonthsAreOrdered(d.year, 1, d.month);
    YearsAreOrdered(1, d.year);
  }

  lemma FirstDay(d: Date)
    requires Valid(d) && DayNumber(d) == 1
    ensures d == Date(1, 1, 1)
  {
    MonthsAreOrdered(d.year, 1, d.month);
    YearsAreOrdered(1, d.year);
    if d.year > 1 {
      YearsAreOrdered(1, d.year - 1);
    }
  }

  /** Counting is a bijection: the day at a date's own count is that date. */
  lemma {:induction false} DayAtOwnCount(d: Date)
    requires Valid(d)
    ensures DayNumber(d) >= 1 && DayAt(DayNumber(d)) == d
    decreases DayNumber(d)
  {
    DayCountPositive(d);
    if DayNumber(d) == 1 {
      FirstDay(d);
    } else {
      var e := PreviousDay(d);
      DayBefore(d);
      DayAtOwnCount(e);
      assert DayAt(DayNumber(e) + 1) == NextDay(DayAt(DayNumber(e)));
    }
  }

  /** `setDate(getDate() + n)`: the date n days later, or earlier when n is negative. */
  function AddDays(d: Date, n: int): (r: Date)
    requires Valid(d) && DayNumber(d) + n >= 1
    ensures Valid(r) && DayNumber(r) == DayNumber(d) + n
  {
    DayAt(DayNumber(d) + n)
  }

  lemma AddOneDay(d: Date)
    requires Valid(d)
    ensures DayNumber(d) >= 1 && AddDays(d, 1) == NextDay(d)
  {
    DayAtOwnCount(d);
  }

  lemma {:induction false} AtLeastOnce(k: int, n: int)
    requires k > 0 && n >= 1
    ensures k * n >= k
  {
    if n > 1 {
      AtLeastOnce(k, n - 1);
      assert k * n == k * (n - 1) + k;
    }
  }

  lemma DivisionAlgorithm(x: int, k: int)
    requires k > 0
    ensures x == k * (x / k) + x % k && 0 <= x % k < k
  {}

  lemma QuotientUnique(x: int, k: int, q: int, r: int)
    requires k > 0 && x == k * q + r && 0 <= r < k
    ensures x / k == q && x % k == r
  {
    var p := x / k;
    DivisionAlgorithm(x, k);
    assert k * (p - q) == k * p - k * q && k * (q - p) == k * q - k * p;
    if p > q {
      AtLeastOnce(k, p - q);
    } else if p < q {
      AtLeastOnce(k, q - p);
    }
  }

  /** A multiple of k is passed exactly at the multiples of k. */
  lemma QuotientSteps(y: int, k: int)
    requires k > 0
    ensures y / k == (y - 1) / k + if y % k == 0 then 1 else 0
  {
    var q, r := y / k, y % k;
    assert y == k * q + r;
    if r == 0 {
      assert y - 1 == k * (q - 1) + (k - 1);
      QuotientUnique(y - 1, k, q - 1, k - 1);
    } else {
      QuotientUnique(y - 1, k, q, r - 1);
    }
  }

  lemma Multiples(y: int)
    ensures y % 100 == 0 ==> y % 4 == 0
    ensures y % 400 == 0 ==> y % 100 == 0
  {
    if y % 100 == 0 {
      QuotientUnique(y, 4, 25 * (y / 100), 0);
    }
    if y % 400 == 0 {
      QuotientUnique(y, 100, 4 * (y / 400), 0);
    }
  }

  function LeapDays(year: int): int {
    year / 4 - year / 100 + year / 400
  }

  lemma LeapDaysStep(year: int)
    ensures LeapDays(year) == LeapDays(year - 1) + if Leap(year) then 1 else 0
  {
    QuotientSteps(year, 4);
    QuotientSteps(year, 100);
    QuotientSteps(year, 400);
    Multiples(year);
  }

  lemma {:induction false} DaysBeforeYearClosed(year: int)
    requires year >= 1
    ensures DaysBeforeYear(year) == 365 * (year - 1) + LeapDays(year - 1)
  {
    if year > 1 {
      DaysBeforeYearClosed(year - 1);
      LeapDaysStep(year - 1);
    }
  }

  /** The day count of the origin of time stamps. */
  const EPOCH: int := 719_163

  lemma EpochIs1970()
    ensures DayAt(EPOCH) == Date(1970, 1, 1)
  {
    DaysBeforeYearClosed(1970);
    assert DayNumber(Date(1970, 1, 1)) == EPOCH;
    DayAtOwnCount(Date(1970, 1, 1));
  }

  /** The day count of a day of March, or of April counted on from March, in closed form. */
  lemma MarchDayNumber(year: int, x: int)
    requires year >= 1 && 1 <= x <= 61
    ensures var d := if x <= 31 then Date(year, 3, x) else Date(year, 4, x - 31);
            Valid(d) && DayNumber(d) == 365 * (year - 1) + LeapDays(year) + 59 + x
  {
    DaysBeforeYearClosed(year);
    LeapDaysStep(year);
    assert DaysBeforeMonth(year, 2) == 31;
    assert DaysBeforeMonth(year, 3) == if Leap(year) then 60 else 59;
  }

  // ---------- Before the year 1 ----------

  /** The calendar repeats every 400 years, which is this many days. */
  const CYCLE: int := 146_097

  lemma QuotientShift(x: int, k: int, n: int)
    requires k > 0
    ensures (x + k * n) / k == x / k + n && (x + k * n) % k == x % k
  {
    DivisionAlgorithm(x, k);
    assert k * (x / k + n) == k * (x / k) + k * n;
    QuotientUnique(x + k * n, k, x / k + n, x % k);
  }

  lemma SameLeap(year: int)
    ensures Leap(year + 400) == Leap(year)
  {
    QuotientShift(year, 4, 100);
    QuotientShift(year, 100, 4);
    QuotientShift(year, 400, 1);
  }

  lemma {:induction false} SameMonths(year: int, month: int)
    requires 1 <= month <= 12
    ensures DaysIn(year + 400, month) == DaysIn(year, month)
    ensures DaysBeforeMonth(year + 400, month) == DaysBeforeMonth(year, month)
    decreases month
  {
    SameLeap(year);
    if month > 1 {
      SameMonths(year, month - 1);
    }
  }

  lemma CycleLength(year: int)
    requires year >= 1
    ensures DaysBeforeYear(year + 400) == DaysBeforeYear(year) + CYCLE
  {
    DaysBeforeYearClosed(year);
    DaysBeforeYearClosed(year + 400);
    QuotientShift(year - 1, 4, 100);
    QuotientShift(year - 1, 100, 4);
    QuotientShift(year - 1, 400, 1);
  }

  /** The same day `c` cycles later. */
  lemma {:induction false} LaterCycle(d: Date, c: nat)
    requires Valid(d)
    ensures var e := d.(year := d.year + 400 * c); Valid(e) && DayNumber(e) == DayNumber(d) + c * CYCLE
    decreases c
  {
    if c > 0 {
      LaterCycle(d, c - 1);
      var e := d.(year := d.year + 400 * (c - 1));
      CycleLength(e.year);
      SameMonths(e.year, e.month);
    }
  }

  /** Enough cycles to lift a day count into the calendar. */
  function Cycles(k: int): (c: nat)
    ensures k + c * CYCLE >= 1
  {
    if k >= 1 then 0 else (1 - k) / CYCLE + 1
  }

  /** The day with any count, the calendar being continued backwards. */
  function CivilDay(k: int): Date {
    var d := DayAt(k + Cycles(k) * CYCLE);
    d.(year := d.year - 400 * Cycles(k))
  }

  /** In the continued calendar a date exists under the same rule in every year. */
  predicate Civil(d: Date) {
    1 <= d.month <= 12 && 1 <= d.day <= DaysIn(d.year, d.month)
  }

  lemma CyclesAgree(k: int, c: nat, more: nat)
    requires k + c * CYCLE >= 1 && c <= more
    ensures k + more * CYCLE >= 1
    ensures var d := DayAt(k + c * CYCLE); DayAt(k + more * CYCLE) == d.(year := d.year + 400 * (more - c))
  {
    hide DayAt, DayNumber, Valid;
    var d := DayAt(k + c * CYCLE);
    LaterCycle(d, more - c);
    DayAtOwnCount(d.(year := d.year + 400 * (more - c)));
    assert k + c * CYCLE + (more - c) * CYCLE == k + more * CYCLE;
  }

  /** Any number of cycles that suffices gives the same day. */
  lemma CivilAt(k: int, c: nat)
    requires k + c * CYCLE >= 1
    ensures var d := DayAt(k + c * CYCLE); CivilDay(k) == d.(year := d.year - 400 * c)
  {
    hide DayAt, DayNumber, Valid, Cycles;
    if Cycles(k) <= c {
      CyclesAgree(k, Cycles(k), c);
    } else {
      CyclesAgree(k, c, Cycles(k));
    }
  }

  lemma {:induction false} EarlierCycle(d: Date, c: nat)
    requires Valid(d)
    ensures Civil(d.(year := d.year - 400 * c))
    decreases c
  {
    if c > 0 {
      EarlierCycle(d, c - 1);
      SameMonths(d.year - 400 * c, d.month);
      assert d.year - 400 * c + 400 == d.year - 400 * (c - 1);
    }
  }

  lemma CivilDayExists(k: int)
    ensures Civil(CivilDay(k))
  {
    hide DayAt, DayNumber, Civil, Cycles;
    EarlierCycle(DayAt(k + Cycles(k) * CYCLE), Cycles(k));
  }

  lemma CommonCycles(j: int, k: int) returns (c: nat)
    ensures j + c * CYCLE >= 1 && k + c * CYCLE >= 1
  {
    c := if Cycles(j) <= Cycles(k) then Cycles(k) else Cycles(j);
  }

  /** Different counts are different days. */
  lemma CivilDayInjective(j: int, k: int)
    ensures CivilDay(j) == CivilDay(k) <==> j == k
  {
    hide DayAt, DayNumber, Valid, CivilDay, Cycles;
    var c := CommonCycles(j, k);
    CivilAt(j, c);
    CivilAt(k, c);
    if CivilDay(j) == CivilDay(k) {
      assert DayAt(j + c * CYCLE) == DayAt(k + c * CYCLE);
    }
  }

  lemma {:induction false} SameMonthLength(year: int, month: int, c: nat)
    requires 1 <= month <= 12
    ensures DaysIn(year - 400 * c, month) == DaysIn(year, month)
    decreases c
  {
    if c > 0 {
      SameMonthLength(year, month, c - 1);
      SameMonths(year - 400 * c, month);
      assert year - 400 * c + 400 == year - 400 * (c - 1);
    }
  }

  /** The day `n` days further on in the same month. */
  lemma WithinMonth(k: int, n: int)
    requires Civil(CivilDay(k).(day := CivilDay(k).day + n))
    ensures CivilDay(k + n) == CivilDay(k).(day := CivilDay(k).day + n)
  {
    hide DayAt, CivilDay, Cycles, DaysBeforeYear, DaysBeforeMonth, DaysIn;
    var c := CommonCycles(k, k + n);
    CivilAt(k, c);
    CivilAt(k + n, c);
    var d := DayAt(k + c * CYCLE);
    var e := d.(day := d.day + n);
    SameMonthLength(d.year, d.month, c);
    assert Valid(e) && DayNumber(e) == k + n + c * CYCLE;
    DayAtOwnCount(e);
  }

  predicate SameMonth(d: Date, e: Date) {
    d.year == e.year && d.month == e.month
  }

  /** Days of the same month are as far apart as their numbers. */
  lemma SameMonthApart(j: int, l: int)
    ensures SameMonth(CivilDay(j), CivilDay(l)) ==> CivilDay(l).day - CivilDay(j).day == l - j
  {
    hide DayAt, CivilDay, Cycles, DaysBeforeYear, DaysBeforeMonth, DaysIn;
    var c := CommonCycles(j, l);
    CivilAt(j, c);
    CivilAt(l, c);
  }

  /** Every day between two days of a month belongs to that month. */
  lemma BetweenInMonth(j: int, k: int, l: int)
    requires j <= k <= l
    ensures SameMonth(CivilDay(j), CivilDay(l)) ==> SameMonth(CivilDay(k), CivilDay(j))
  {
    hide CivilDay, DaysIn;
    SameMonthApart(j, l);
    CivilDayExists(j);
    CivilDayExists(l);
    if SameMonth(CivilDay(j), CivilDay(l)) {
      WithinMonth(j, k - j);
    }
  }
}
