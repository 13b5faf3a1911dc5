/**
 Easter Sunday: the closed formula of the scheduling rules against the computus of the Gregorian reform, with
 golden numbers, the solar and lunar equations, epacts and the two displaced full moons.
 */
module Easter {
  import opened Gregorian

  // ---------- The formula ----------

  /** The intermediate values of the formula that the date depends on. */
  datatype Terms = Terms(a: int, h: int, l: int, m: int)

  function TermsOf(year: int): Terms {
    var a := year % 19;
    var b := year / 100;
    var c := year % 100;
    var d := b / 4;
    var e := b % 4;
    var f := (b + 8) / 25;
    var g := (b - f + 1) / 3;
    var h := (19 * a + b - d - g + 15) % 30;
    var i := c / 4;
    var k := c % 4;
    var l := (32 + 2 * e + 2 * i - h - k) % 7;
    var m := (a + 11 * h + 22 * l) / 451;
    Terms(a, h, l, m)
  }

  function EasterSunday(year: int): Date {
    var t := TermsOf(year);
    var n := t.h + t.l - 7 * t.m + 114;
    Date(year, n / 31, n % 31 + 1)
  }

  // ---------- The computus ----------

  function GoldenNumber(year: int): int {
    year % 19 + 1
  }

  /** Leap days dropped by the reform, and the correction of the lunar cycle, both per century. */
  function SolarEquation(year: int): int {
    year / 100 - year / 400
  }

  function LunarEquation(year: int): int {
    (8 * (year / 100) + 13) / 25
  }

  function Epact(year: int): int {
    (11 * (GoldenNumber(year) - 1) + 8 - SolarEquation(year) + LunarEquation(year)) % 30
  }

  /** Days from 21 March to the paschal full moon; epacts 24 and, late in the cycle, 25 are displaced by a day. */
  function FullMoonOffset(year: int): (n: int)
    ensures 0 <= n <= 28
  {
    var epact := Epact(year);
    var n := if epact <= 23 then 23 - epact else 53 - epact;
    if epact == 24 || (epact == 25 && GoldenNumber(year) > 11) then n - 1 else n
  }

  function FullMoon(year: int): Date {
    var x := 21 + FullMoonOffset(year);
    if x <= 31 then Date(year, 3, x) else Date(year, 4, x - 31)
  }

  /** The first Sunday strictly after the paschal full moon. */
  predicate IsEaster(d: Date, year: int) {
    && Valid(d) && Valid(FullMoon(year))
    && Weekday(d) == 0
    && DayNumber(FullMoon(year)) < DayNumber(d) <= DayNumber(FullMoon(year)) + 7
  }

  // ---------- Agreement ----------

  /** The two ways of counting the lunar correction agree in every century. */
  lemma LunarEquationsAgree(b: int)
    requires b >= 0
    ensures (b - (b + 8) / 25 + 1) / 3 == (8 * b + 13) / 25
  {
    var t, r := b / 25, b % 25;
    assert b == 25 * t + r;
    var late := if r >= 17 then 1 else 0;
    QuotientUnique(b + 8, 25, t + late, r + 8 - 25 * late);
    var v := r - late + 1;
    assert b - (b + 8) / 25 + 1 == 24 * t + v;
    QuotientUnique(24 * t + v, 3, 8 * t + v / 3, v % 3);
    QuotientUnique(8 * b + 13, 25, 8 * t + (8 * r + 13) / 25, (8 * r + 13) % 25);
    assert v / 3 == (8 * r + 13) / 25;
  }

  /** No operand of `%` in the formula is negative, so JavaScript's remainder is the mathematical one. */
  lemma OperandsNonNegative(year: int)
    requires year >= 0
    ensures var b := year / 100;
            19 * (year % 19) + b - b / 4 - (b - (b + 8) / 25 + 1) / 3 + 15 >= 0
    ensures var c := year % 100;
            32 + 2 * (year / 100 % 4) + 2 * (c / 4) - TermsOf(year).h - c % 4 >= 0
    ensures var t := TermsOf(year); 0 <= t.a <= 18 && 0 <= t.h <= 29 && 0 <= t.l <= 6
  {}

  lemma CenturyOfCentury(year: int)
    ensures year / 400 == year / 100 / 4
    ensures year / 4 == 25 * (year / 100) + year % 100 / 4
  {
    var b, c := year / 100, year % 100;
    assert year == 100 * b + c;
    QuotientUnique(year, 400, b / 4, 100 * (b % 4) + c);
    QuotientUnique(year, 4, 25 * b + c / 4, c % 4);
  }

  /** The formula's h is the distance of the undisplaced full moon, read off the epact. */
  lemma EpactDeterminesH(year: int)
    requires year >= 0
    ensures TermsOf(year).h == if Epact(year) <= 23 then 23 - Epact(year) else 53 - Epact(year)
  {
    var a, b := year % 19, year / 100;
    LunarEquationsAgree(b);
    CenturyOfCentury(year);
    var raw := 11 * a + 8 - SolarEquation(year) + LunarEquation(year);
    var p, epact := raw / 30, Epact(year);
    assert raw == 30 * p + epact;
    var operand := 19 * a + b - b / 4 - LunarEquation(year) + 15;
    assert operand == 30 * (a - p) + 23 - epact;
    if epact <= 23 {
      QuotientUnique(operand, 30, a - p, 23 - epact);
    } else {
      QuotientUnique(operand, 30, a - p - 1, 53 - epact);
    }
  }

  /** m is the correction for the displaced full moons, and it only matters when the next Sunday is a week away. */
  lemma CorrectionTerm(a: int, h: int, l: int)
    requires 0 <= a <= 18 && 0 <= h <= 29 && 0 <= l <= 6
    ensures (a + 11 * h + 22 * l) / 451 == if l == 6 && (h == 29 || (h == 28 && a > 10)) then 1 else 0
  {}

  /** The weeks add up: every coefficient of the day count plus h + l is a multiple of seven. */
  lemma WeeksAddUp(d: int, e: int, i: int, k: int, h: int, l: int, q: int)
    requires l == 32 + 2 * e + 2 * i - h - k - 7 * q
    ensures (365 * (400 * d + 100 * e + 4 * i + k - 1) + (97 * d + 24 * e + i) + 81 + h + l) % 7 == 0
  {
    var n := 365 * (400 * d + 100 * e + 4 * i + k - 1) + (97 * d + 24 * e + i) + 81 + h + l;
    var weeks := 20871 * d + 5218 * e + 209 * i + 52 * k - 36 - q;
    assert n == 7 * weeks;
    QuotientUnique(n, 7, weeks, 0);
  }

  lemma YearParts(year: int)
    ensures var b, c := year / 100, year % 100;
            && year == 400 * (b / 4) + 100 * (b % 4) + 4 * (c / 4) + c % 4
            && LeapDays(year) == 97 * (b / 4) + 24 * (b % 4) + c / 4
  {
    CenturyOfCentury(year);
  }

  /** Counted from 22 March, h + l always falls on a Sunday. */
  lemma SundayAfterFullMoon(year: int)
    requires year >= 1
    ensures var t := TermsOf(year);
            (365 * (year - 1) + LeapDays(year) + 81 + t.h + t.l) % 7 == 0
  {
    var b, c := year / 100, year % 100;
    var e, i, k := b % 4, c / 4, c % 4;
    var t := TermsOf(year);
    var operand := 32 + 2 * e + 2 * i - t.h - k;
    DivisionAlgorithm(operand, 7);
    YearParts(year);
    WeeksAddUp(b / 4, e, i, k, t.h, t.l, operand / 7);
  }

  /** Month and day of the offset from 22 March. */
  lemma OffsetToDate(x: int)
    requires 0 <= x <= 34
    ensures (x + 114) / 31 == (if x <= 9 then 3 else 4)
    ensures (x + 114) % 31 + 1 == if x <= 9 then 22 + x else x - 9
  {}

  /** From the terms to the Sunday: base is the day count of the last day of February plus 28. */
  lemma OffsetIsFirstSunday(base: int, a: int, h: int, l: int, m: int, moon: int)
    requires 0 <= a <= 18 && 0 <= h <= 29 && 0 <= l <= 6
    requires m == if l == 6 && (h == 29 || (h == 28 && a > 10)) then 1 else 0
    requires moon == if h == 29 || (h == 28 && a > 10) then h - 1 else h
    requires (base + 22 + h + l) % 7 == 0
    ensures var x := h + l - 7 * m;
            0 <= x <= 34 && moon <= x <= moon + 6 && (base + 22 + x) % 7 == 0
  {
    QuotientUnique(base + 22 + h + l - 7 * m, 7, (base + 22 + h + l) / 7 - m, 0);
  }

  lemma MoonFromH(year: int)
    requires year >= 1
    ensures var t := TermsOf(year);
            FullMoonOffset(year) == if t.h == 29 || (t.h == 28 && t.a > 10) then t.h - 1 else t.h
  {
    EpactDeterminesH(year);
  }

  /** The formula's date lies x days after 22 March, on a Sunday in the week after the full moon. */
  lemma FormulaOffset(year: int) returns (x: int)
    requires year >= 1
    ensures 0 <= x <= 34 && FullMoonOffset(year) <= x <= FullMoonOffset(year) + 6
    ensures EasterSunday(year) == if x <= 9 then Date(year, 3, 22 + x) else Date(year, 4, x - 9)
    ensures (365 * (year - 1) + LeapDays(year) + 59 + 22 + x) % 7 == 0
  {
    var t := TermsOf(year);
    OperandsNonNegative(year);
    CorrectionTerm(t.a, t.h, t.l);
    MoonFromH(year);
    SundayAfterFullMoon(year);
    OffsetIsFirstSunday(365 * (year - 1) + LeapDays(year) + 59, t.a, t.h, t.l, t.m, FullMoonOffset(year));
    x := t.h + t.l - 7 * t.m;
    OffsetToDate(x);
  }

  /**
   For every year the formula gives exactly the computus date: the first Sunday strictly after the ecclesiastical
   full moon, which lies between 22 March and 25 April.
   */
  lemma FormulaIsEaster(year: int)
    requires year >= 1
    ensures var d := EasterSunday(year);
            && IsEaster(d, year)
            && d.year == year
            && ((d.month == 3 && 22 <= d.day) || (d.month == 4 && d.day <= 25))
  {
    hide EasterSunday, FullMoonOffset, LeapDays, DayNumber;
    var x := FormulaOffset(year);
    MarchDayNumber(year, 22 + x);
    MarchDayNumber(year, 21 + FullMoonOffset(year));
  }

  lemma SameSunday(moon: int, n: int, m: int)
    requires n % 7 == 0 && m % 7 == 0 && moon < n <= moon + 7 && moon < m <= moon + 7
    ensures n == m
  {}

  /** There is only one such day, so the formula computes it and nothing else. */
  lemma EasterIsUnique(year: int, d: Date)
    requires year >= 1
    ensures IsEaster(d, year) <==> d == EasterSunday(year)
  {
    hide EasterSunday, FullMoon, DayNumber, DayAt;
    FormulaIsEaster(year);
    if IsEaster(d, year) {
      SameSunday(DayNumber(FullMoon(year)), DayNumber(d), DayNumber(EasterSunday(year)));
      DayAtOwnCount(d);
      DayAtOwnCount(EasterSunday(year));
    }
  }
}
