/**
 Day keys: the first ten characters of the ISO form of an instant, for every instant, and which instants share one.
 */
module DateKeys {
  import opened Gregorian
  import opened Decimals

  const MS_PER_DAY: int := 86_400_000

  /** The number of the day of an instant in universal time. */
  function DayIndex(date: int): int {
    date / MS_PER_DAY
  }

  function DayOf(date: int): Date {
    CivilDay(DayIndex(date) + EPOCH)
  }

  /** The day of an instant, in milliseconds since 1 January 1970. */
  lemma DayOfInstant(date: int)
    ensures DayIndex(date) == date / 86_400_000 && DayOf(date) == CivilDay(date / 86_400_000 + 719_163)
  {
    hide CivilDay;
  }

  /** Six digits; more are needed only beyond the last instant that has an ISO form. */
  function SixDigits(n: nat): (s: string)
    ensures forall i :: 0 <= i < |s| ==> IsDigit(s[i])
  {
    if n < 1_000_000 then Pad(n / 10_000) + Pad(n / 100 % 100) + Pad(n % 100) else Render(n)
  }

  lemma SixParts(m: nat, n: nat)
    requires m / 10_000 == n / 10_000 && m / 100 % 100 == n / 100 % 100 && m % 100 == n % 100
    ensures m == n
  {
    DivisionAlgorithm(m / 100, 100);
    DivisionAlgorithm(n / 100, 100);
    assert m / 100 / 100 == m / 10_000 && n / 100 / 100 == n / 10_000;
  }

  lemma SixDigitsLength(n: nat)
    ensures n < 1_000_000 <==> |SixDigits(n)| == 6
  {
    if n < 1_000_000 {
      PadFacts(n / 10_000); PadFacts(n / 100 % 100); PadFacts(n % 100);
    } else {
      RenderLength(n);
    }
  }

  lemma SixDigitsInjective(m: nat, n: nat)
    requires SixDigits(m) == SixDigits(n)
    ensures m == n
  {
    hide Pad, Render;
    SixDigitsLength(m);
    SixDigitsLength(n);
    if m < 1_000_000 {
      PadFacts(m / 100 % 100); PadFacts(m % 100); PadFacts(n / 100 % 100); PadFacts(n % 100);
      SameSuffix(Pad(m / 10_000) + Pad(m / 100 % 100), Pad(m % 100),
                 Pad(n / 10_000) + Pad(n / 100 % 100), Pad(n % 100));
      SameSuffix(Pad(m / 10_000), Pad(m / 100 % 100), Pad(n / 10_000), Pad(n / 100 % 100));
      PadInjective(m / 10_000, n / 10_000);
      PadInjective(m / 100 % 100, n / 100 % 100);
      PadInjective(m % 100, n % 100);
      SixParts(m, n);
    } else {
      RenderInjective(m, n);
    }
  }

  predicate FourDigitYear(d: Date) {
    0 <= d.year <= 9999
  }

  /** Other years take a sign and six digits, which pushes the day out of the first ten characters. */
  function IsoKey(d: Date): string
    requires Civil(d)
  {
    if FourDigitYear(d) then FourDigits(d.year) + "-" + Pad(d.month) + "-" + Pad(d.day)
    else if d.year > 0 then "+" + SixDigits(d.year) + "-" + Pad(d.month)
    else "-" + SixDigits(-d.year) + "-" + Pad(d.month)
  }

  lemma NearKeyInjective(d: Date, e: Date)
    requires Civil(d) && Civil(e) && FourDigitYear(d) && FourDigitYear(e) && IsoKey(d) == IsoKey(e)
    ensures d == e
  {
    hide FourDigits, Pad;
    PadFacts(d.month); PadFacts(d.day); PadFacts(e.month); PadFacts(e.day);
    var y, z := FourDigits(d.year), FourDigits(e.year);
    SameSuffix(y + "-" + Pad(d.month) + "-", Pad(d.day), z + "-" + Pad(e.month) + "-", Pad(e.day));
    SameSuffix(y + "-" + Pad(d.month), "-", z + "-" + Pad(e.month), "-");
    SameSuffix(y + "-", Pad(d.month), z + "-", Pad(e.month));
    SameSuffix(y, "-", z, "-");
    PadInjective(d.day, e.day);
    PadInjective(d.month, e.month);
    FourDigitsInjective(d.year, e.year);
  }

  lemma FarKeyInjective(sign: string, y: nat, z: nat, month: nat, other: nat)
    requires month < 100 && other < 100 && |sign| == 1
    requires sign + SixDigits(y) + "-" + Pad(month) == sign + SixDigits(z) + "-" + Pad(other)
    ensures y == z && month == other
  {
    hide SixDigits, Pad;
    PadFacts(month); PadFacts(other);
    var s, t := SixDigits(y), SixDigits(z);
    SameSuffix(sign + s + "-", Pad(month), sign + t + "-", Pad(other));
    SameSuffix(sign + s, "-", sign + t, "-");
    assert (sign + s)[1..] == s && (sign + t)[1..] == t;
    PadInjective(month, other);
    SixDigitsInjective(y, z);
  }

  /** The first character tells the three kinds of years apart. */
  lemma FirstCharacter(d: Date)
    requires Civil(d)
    ensures IsoKey(d) != ""
    ensures IsoKey(d)[0] == '+' <==> d.year > 9999
    ensures IsoKey(d)[0] == '-' <==> d.year < 0
  {
    if FourDigitYear(d) {
      PadFacts(d.year / 100);
      assert IsoKey(d)[0] == FourDigits(d.year)[0];
    }
  }

  /** Two days share a key exactly if they are the same day, or of the same month where years have six digits. */
  lemma SameKeyIff(d: Date, e: Date)
    requires Civil(d) && Civil(e)
    ensures IsoKey(d) == IsoKey(e) <==>
            d.year == e.year && d.month == e.month && (FourDigitYear(d) ==> d.day == e.day)
  {
    hide SixDigits, FourDigits, Pad;
    FirstCharacter(d);
    FirstCharacter(e);
    if IsoKey(d) == IsoKey(e) {
      if FourDigitYear(d) {
        NearKeyInjective(d, e);
      } else if d.year > 0 {
        FarKeyInjective("+", d.year, e.year, d.month, e.month);
      } else {
        FarKeyInjective("-", -d.year, -e.year, d.month, e.month);
      }
    }
  }

  lemma SixSum(n: nat)
    ensures n == 100 * (100 * (n / 10_000) + n / 100 % 100) + n % 100
  {
    DivisionAlgorithm(n / 100, 100);
    assert n / 100 / 100 == n / 10_000;
  }

  lemma SixDigitsReads(n: nat)
    ensures Digits(SixDigits(n)) && Value(SixDigits(n)) == n
  {
    hide Pad, Render;
    if n < 1_000_000 {
      PadReads(n / 10_000);
      PadReads(n / 100 % 100);
      PadReads(n % 100);
      ValueOfTwo(Pad(n / 10_000), Pad(n / 100 % 100));
      ValueOfTwo(Pad(n / 10_000) + Pad(n / 100 % 100), Pad(n % 100));
      SixSum(n);
    } else {
      ValueOfRender(n);
    }
  }

  /** The key of a year with four digits: year, month and day, with dashes between them. */
  lemma NearKeySays(d: Date)
    requires Civil(d) && FourDigitYear(d)
    ensures var k := IsoKey(d);
            && |k| == 10 && k[4] == '-' && k[7] == '-'
            && Reads(k, 0, 4, d.year) && Reads(k, 5, 7, d.month) && Reads(k, 8, 10, d.day)
  {
    hide FourDigits, Pad, Digits, Value;
    FourDigitsReads(d.year);
    PadReads(d.month);
    PadReads(d.day);
    DashedParts(IsoKey(d), FourDigits(d.year), Pad(d.month), Pad(d.day));
  }

  /** The key of any other year: a sign, the year and the month. */
  lemma FarKeySays(d: Date)
    requires Civil(d) && !FourDigitYear(d)
    ensures var k, n := IsoKey(d), |IsoKey(d)|;
            && n >= 4 && k[0] == (if d.year > 0 then '+' else '-') && k[n - 3] == '-'
            && Reads(k, 1, n - 3, if d.year > 0 then d.year else -d.year) && Reads(k, n - 2, n, d.month)
  {
    hide SixDigits, Pad, Reads;
    var sign := if d.year > 0 then "+" else "-";
    var year := if d.year > 0 then d.year else -d.year;
    var y, m := SixDigits(year), Pad(d.month);
    SixDigitsReads(year);
    PadReads(d.month);
    ReadsPart(sign, y, "-" + m, year);
    ReadsPart(sign + y + "-", m, "", d.month);
    var k := sign + y + "-" + m;
    assert sign + y + ("-" + m) == k && k + "" == k;
  }

  /** The key of an instant. */
  function DateKey(date: int): string {
    CivilDayExists(DayIndex(date) + EPOCH);
    IsoKey(DayOf(date))
  }

  /** Instants of the same day have the same key. */
  lemma SameDaySameKey(a: int, b: int)
    requires DayIndex(a) == DayIndex(b)
    ensures DateKey(a) == DateKey(b)
  {
    hide IsoKey, CivilDay, DayIndex;
  }

  /** Instants with the same key are of the same day if years have four digits, and always of the same month. */
  lemma SameKeySameDay(a: int, b: int)
    ensures DateKey(a) == DateKey(b) ==> SameMonth(DayOf(a), DayOf(b))
    ensures DateKey(a) == DateKey(b) && FourDigitYear(DayOf(a)) ==> DayIndex(a) == DayIndex(b)
  {
    hide IsoKey, CivilDay, DayIndex;
    CivilDayExists(DayIndex(a) + EPOCH);
    CivilDayExists(DayIndex(b) + EPOCH);
    SameKeyIff(DayOf(a), DayOf(b));
    if DayOf(a) == DayOf(b) {
      CivilDayInjective(DayIndex(a) + EPOCH, DayIndex(b) + EPOCH);
    }
  }

  lemma DayIndexMonotone(a: int, b: int)
    requires a <= b
    ensures DayIndex(a) <= DayIndex(b)
  {}

  /** Whatever lies between two instants with the same key has that key too. */
  lemma KeysAreIntervals(a: int, b: int, c: int)
    requires a <= b <= c
    ensures DateKey(a) == DateKey(c) ==> DateKey(b) == DateKey(a)
  {
    hide IsoKey, CivilDay, DayIndex, Civil;
    DayIndexMonotone(a, b);
    DayIndexMonotone(b, c);
    SameKeySameDay(a, c);
    CivilDayExists(DayIndex(a) + EPOCH);
    CivilDayExists(DayIndex(b) + EPOCH);
    if DateKey(a) == DateKey(c) && !FourDigitYear(DayOf(a)) {
      BetweenInMonth(DayIndex(a) + EPOCH, DayIndex(b) + EPOCH, DayIndex(c) + EPOCH);
      SameKeyIff(DayOf(a), DayOf(b));
    }
  }

  /** The key of the instant separates its day from every other day. */
  ghost predicate KeyIsTheDay(a: int) {
    forall b :: DateKey(a) == DateKey(b) <==> DayIndex(a) == DayIndex(b)
  }

  /** Another day of the same month. */
  lemma AnotherDay(a: int) returns (b: int)
    ensures DayIndex(b) != DayIndex(a)
    ensures DayOf(b).year == DayOf(a).year && DayOf(b).month == DayOf(a).month
  {
    hide CivilDay, DaysIn;
    var k := DayIndex(a) + EPOCH;
    CivilDayExists(k);
    var n := if CivilDay(k).day == 1 then 1 else -1;
    WithinMonth(k, n);
    b := (DayIndex(a) + n) * MS_PER_DAY;
    assert DayIndex(b) == DayIndex(a) + n;
  }

  /** The key stands for the day exactly in the years 0 to 9999; elsewhere it stands for the month. */
  lemma KeyIsTheDayIff(a: int)
    ensures KeyIsTheDay(a) <==> FourDigitYear(DayOf(a))
  {
    hide IsoKey, CivilDay, DayIndex, Civil;
    if FourDigitYear(DayOf(a)) {
      forall b ensures DateKey(a) == DateKey(b) <==> DayIndex(a) == DayIndex(b) {
        if DateKey(a) == DateKey(b) {
          SameKeySameDay(a, b);
        }
      }
    } else {
      var b := AnotherDay(a);
      CivilDayExists(DayIndex(a) + EPOCH);
      CivilDayExists(DayIndex(b) + EPOCH);
      SameKeyIff(DayOf(a), DayOf(b));
    }
  }
}
