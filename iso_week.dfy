/** The week id of a date (`getWeekId`, src/WeeklyView.tsx lines 51-58, repeated in
    src/DailyView.tsx lines 27-34): move to the Thursday of the date's Monday-to-Sunday
    week, count whole weeks from the Thursday of the week holding 4 January of that
    Thursday's year, and print "year-week". This is the week numbering of section 4.1.4
    of ISO 8601:2004 (week dates).

    A `Date` is a local calendar day of the proleptic Gregorian calendar from year 1 on;
    `Days` numbers the days from 0001-01-01, a Monday. The source builds 4 January with
    `new Date(year, 0, 4)`, which reads a year from 0 to 99 as 1900 + year; the model keeps
    that, so the ISO facts below hold for Thursdays from year 100 on, and
    `EarlyYearWeekNegative` states what happens before. */
module IsoWeek {
  import opened Text

  datatype Date = Date(year: int, month: int, day: int)

  predicate Leap(y: int) {
    y % 4 == 0 && (y % 100 != 0 || y % 400 == 0)
  }

  function DaysInMonth(y: int, m: int): int
    requires 1 <= m <= 12
  {
    if m == 2 then (if Leap(y) then 29 else 28)
    else if m == 4 || m == 6 || m == 9 || m == 11 then 30
    else 31
  }

  predicate Valid(d: Date) {
    d.year >= 1 && 1 <= d.month <= 12 && 1 <= d.day <= DaysInMonth(d.year, d.month)
  }

  function DaysBeforeYear(y: int): (n: int)
    requires y >= 1
    ensures n >= 0
  {
    var p := y - 1;
    365 * p + p / 4 - p / 100 + p / 400
  }

  function DaysBeforeMonth(y: int, m: int): (n: int)
    requires 1 <= m <= 13
    ensures n >= 0
  {
    if m == 1 then 0 else DaysBeforeMonth(y, m - 1) + DaysInMonth(y, m - 1)
  }

  function YearLength(y: int): int {
    if Leap(y) then 366 else 365
  }

  /** The day number: 0001-01-01 is day 0. */
  function Days(d: Date): int
    requires Valid(d)
  {
    DaysBeforeYear(d.year) + DaysBeforeMonth(d.year, d.month) + d.day - 1
  }

  /** `getDay()`: 0 for Sunday up to 6 for Saturday. */
  function WeekDay(d: Date): int
    requires Valid(d)
  {
    (Days(d) + 1) % 7
  }

  /** `(getDay() + 6) % 7`: 0 for Monday up to 6 for Sunday. */
  function FromMonday(d: Date): int
    requires Valid(d)
  {
    (WeekDay(d) + 6) % 7
  }

  // ---------------------------------------------------------------- calendar facts

  lemma YearStep(y: int)
    requires y >= 1
    ensures DaysBeforeYear(y + 1) == DaysBeforeYear(y) + YearLength(y)
  {
    QuotientStep(y - 1, 4);
    QuotientStep(y - 1, 100);
    QuotientStep(y - 1, 400);
    DivisorChain(y);
    var a, b, c := y / 4 - (y - 1) / 4, y / 100 - (y - 1) / 100, y / 400 - (y - 1) / 400;
    assert YearLength(y) == 365 + a - b + c;
  }

  /** A multiple of 400 is one of 100, and a multiple of 100 one of 4. */
  lemma DivisorChain(y: int)
    ensures y % 400 == 0 ==> y % 100 == 0
    ensures y % 100 == 0 ==> y % 4 == 0
  {
    if y % 400 == 0 {
      var k := 4 * (y / 400);
      assert y == 100 * k;
      MultipleOf100(k);
    }
    if y % 100 == 0 {
      var k := 25 * (y / 100);
      assert y == 4 * k;
      MultipleOf4(k);
    }
  }

  lemma MultipleOf100(k: int)
    ensures (100 * k) % 100 == 0
  {
  }

  lemma MultipleOf4(k: int)
    ensures (4 * k) % 4 == 0
  {
  }

  /** One more day of count raises a quotient by one exactly at a multiple of the divisor. */
  lemma QuotientStep(p: nat, k: int)
    requires k == 4 || k == 100 || k == 400
    ensures (p + 1) / k == p / k + (if (p + 1) % k == 0 then 1 else 0)
  {
    var q, r := p / k, p % k;
    assert p == k * q + r && 0 <= r < k;
    if r == k - 1 {
      assert p + 1 == k * (q + 1);
    } else {
      assert p + 1 == k * q + (r + 1);
    }
  }

  lemma MonthsFillYear(y: int)
    ensures DaysBeforeMonth(y, 13) == YearLength(y)
  {
    var f := if Leap(y) then 1 else 0;
    assert DaysBeforeMonth(y, 2) == 31;
    assert DaysBeforeMonth(y, 3) == 59 + f;
    assert DaysBeforeMonth(y, 4) == 90 + f;
    assert DaysBeforeMonth(y, 5) == 120 + f;
    assert DaysBeforeMonth(y, 6) == 151 + f;
    assert DaysBeforeMonth(y, 7) == 181 + f;
    assert DaysBeforeMonth(y, 8) == 212 + f;
    assert DaysBeforeMonth(y, 9) == 243 + f;
    assert DaysBeforeMonth(y, 10) == 273 + f;
    assert DaysBeforeMonth(y, 11) == 304 + f;
    assert DaysBeforeMonth(y, 12) == 334 + f;
  }

  lemma {:induction false} MonthsIncrease(y: int, m1: int, m2: int)
    requires 1 <= m1 <= m2 <= 13
    ensures DaysBeforeMonth(y, m2) >= DaysBeforeMonth(y, m1) + 28 * (m2 - m1)
    decreases m2 - m1
  {
    if m1 < m2 {
      MonthsIncrease(y, m1, m2 - 1);
    }
  }

  lemma {:induction false} YearsIncrease(y1: int, y2: int)
    requires 1 <= y1 <= y2
    ensures DaysBeforeYear(y2) >= DaysBeforeYear(y1) + 365 * (y2 - y1)
    decreases y2 - y1
  {
    if y1 < y2 {
      YearsIncrease(y1, y2 - 1);
      YearStep(y2 - 1);
    }
  }

  /** A day's number falls inside its year and its month. */
  lemma DaysBounds(d: Date)
    requires Valid(d)
    ensures DaysBeforeYear(d.year) <= Days(d) < DaysBeforeYear(d.year + 1)
    ensures DaysBeforeMonth(d.year, d.month) <= Days(d) - DaysBeforeYear(d.year) < DaysBeforeMonth(d.year, d.month + 1)
  {
    YearStep(d.year);
    MonthsFillYear(d.year);
    MonthsIncrease(d.year, d.month + 1, 13);
  }

  /** Different days have different numbers. */
  lemma DaysInjective(a: Date, b: Date)
    requires Valid(a) && Valid(b) && Days(a) == Days(b)
    ensures a == b
  {
    if a.year < b.year {
      YearOfDayNumber(a, b);
    } else if b.year < a.year {
      YearOfDayNumber(b, a);
    } else if a.month < b.month {
      MonthOfDayNumber(a, b);
    } else if b.month < a.month {
      MonthOfDayNumber(b, a);
    }
  }

  /** A later year's days all come after an earlier year's. */
  lemma YearOfDayNumber(a: Date, b: Date)
    requires Valid(a) && Valid(b) && a.year < b.year
    ensures Days(a) < Days(b)
  {
    DaysBounds(a);
    DaysBounds(b);
    YearsIncrease(a.year + 1, b.year);
  }

  /** Within a year, a later month's days all come after an earlier month's. */
  lemma MonthOfDayNumber(a: Date, b: Date)
    requires Valid(a) && Valid(b) && a.year == b.year && a.month < b.month
    ensures Days(a) < Days(b)
  {
    DaysBounds(a);
    DaysBounds(b);
    MonthsIncrease(a.year, a.month + 1, b.month);
  }

  // ---------------------------------------------------------------- the Thursday

  /** `date.setDate(date.getDate() + k)` for a shift of at most three days: the day
      overflows into the neighbouring month (and year) at most once. */
  function Shift(d: Date, k: int): (r: Date)
    requires Valid(d) && -3 <= k <= 3
  {
    var nd := d.day + k;
    if nd < 1 then
      (if d.month == 1 then Date(d.year - 1, 12, nd + 31)
       else Date(d.year, d.month - 1, nd + DaysInMonth(d.year, d.month - 1)))
    else if nd > DaysInMonth(d.year, d.month) then
      (if d.month == 12 then Date(d.year + 1, 1, nd - 31)
       else Date(d.year, d.month + 1, nd - DaysInMonth(d.year, d.month)))
    else Date(d.year, d.month, nd)
  }

  /** Shifting moves the day number by the shift, as long as it stays from year 1 on. */
  lemma ShiftDays(d: Date, k: int)
    requires Valid(d) && -3 <= k <= 3 && Days(d) + k >= 0
    ensures Valid(Shift(d, k)) && Days(Shift(d, k)) == Days(d) + k
  {
    var nd := d.day + k;
    if nd < 1 {
      ShiftIntoPreviousMonth(d, k);
    } else if nd > DaysInMonth(d.year, d.month) {
      ShiftIntoNextMonth(d, k);
    }
  }

  lemma ShiftIntoPreviousMonth(d: Date, k: int)
    requires Valid(d) && -3 <= k <= 3 && Days(d) + k >= 0 && d.day + k < 1
    ensures Valid(Shift(d, k)) && Days(Shift(d, k)) == Days(d) + k
  {
    if d.month == 1 {
      if d.year > 1 {
        YearStep(d.year - 1);
        MonthsFillYear(d.year - 1);
      }
    } else {
      assert DaysBeforeMonth(d.year, d.month) == DaysBeforeMonth(d.year, d.month - 1) + DaysInMonth(d.year, d.month - 1);
    }
  }

  lemma ShiftIntoNextMonth(d: Date, k: int)
    requires Valid(d) && -3 <= k <= 3 && d.day + k > DaysInMonth(d.year, d.month)
    ensures Valid(Shift(d, k)) && Days(Shift(d, k)) == Days(d) + k
  {
    if d.month == 12 {
      YearStep(d.year);
      MonthsFillYear(d.year);
    } else {
      assert DaysBeforeMonth(d.year, d.month + 1) == DaysBeforeMonth(d.year, d.month) + DaysInMonth(d.year, d.month);
    }
  }

  /** The Thursday of the date's Monday-to-Sunday week. */
  function Thursday(d: Date): (t: Date)
    requires Valid(d)
    ensures Valid(t) && Days(t) == Days(d) - FromMonday(d) + 3
    ensures WeekDay(t) == 4 && Days(t) % 7 == 3
  {
    ThursdayShift(d);
    Shift(d, 3 - FromMonday(d))
  }

  /** Moving by `3 - FromMonday(d)` days lands on a Thursday, at most three days away. */
  lemma ThursdayShift(d: Date)
    requires Valid(d)
    ensures -3 <= 3 - FromMonday(d) <= 3
    ensures var t := Shift(d, 3 - FromMonday(d));
      Valid(t) && Days(t) == Days(d) - FromMonday(d) + 3 && (Days(t) + 1) % 7 == 4 && Days(t) % 7 == 3
  {
    var n := Days(d);
    FromMondayRem(d);
    var k := 3 - FromMonday(d);
    ShiftDays(d, k);
    ThursdayRem(n, Days(Shift(d, k)));
  }

  /** Counting from Monday, the day of the week is the day number modulo 7. */
  lemma FromMondayRem(d: Date)
    requires Valid(d)
    ensures FromMonday(d) == Days(d) % 7
    ensures Days(d) + 3 - FromMonday(d) >= 0
  {
    var n := Days(d);
    WeekDayArithmetic(n);
    assert WeekDay(d) == (n + 1) % 7;
  }

  /** The Thursday of day `n`'s week is day 3 of a seven-day block. */
  lemma ThursdayRem(n: int, m: int)
    requires n >= 0 && m == n - n % 7 + 3
    ensures m % 7 == 3 && (m + 1) % 7 == 4
  {
    WeekDayArithmetic(n);
  }

  /** Counting from a Monday: the day of the week of day `n` and of its week's Thursday. */
  lemma WeekDayArithmetic(n: int)
    requires n >= 0
    ensures ((n + 1) % 7 + 6) % 7 == n % 7
    ensures (n - n % 7 + 3 + 1) % 7 == 4
    ensures (n - n % 7 + 3) % 7 == 3
    ensures n - 3 <= n - n % 7 + 3 <= n + 3
  {
    var q, r := n / 7, n % 7;
    assert n == 7 * q + r;
    assert n - r + 4 == 7 * q + 4;
  }

  /** `Math.round(x / 7)` for an integer `x`: the floor of `x / 7 + 1/2`. */
  function Round7(x: int): int {
    (2 * x + 7) / 14
  }

  /** The year `new Date(y, 0, 4)` lands in: a year from 0 to 99 is taken as 1900 + y. */
  function ConstructorYear(y: int): int {
    if 0 <= y <= 99 then 1900 + y else y
  }

  function WeekNumber(d: Date): int
    requires Valid(d)
  {
    var t := Thursday(d);
    var week1 := Date(ConstructorYear(t.year), 1, 4);
    1 + Round7(Days(t) - Days(week1) - 3 + FromMonday(week1))
  }

  /** `getWeekId`: the Thursday's year, '-', the week number without padding. */
  function WeekId(d: Date): string
    requires Valid(d)
  {
    IntToString(Thursday(d).year) + "-" + IntToString(WeekNumber(d))
  }

  /** The number of the week's Monday. */
  function MondayOf(d: Date): int
    requires Valid(d)
  {
    Days(d) - FromMonday(d)
  }

  /** The first Thursday of year `y`. */
  function FirstThursday(y: int): int
    requires y >= 1
  {
    var jan4 := Date(y, 1, 4);
    Days(jan4) - FromMonday(jan4) + 3
  }

  /** The arithmetic behind the week number: two day numbers that are both Thursdays,
      the first Thursday within a week of the year's start and the other within the year. */
  lemma WeekArithmetic(t: int, ft: int, lo: int, len: int)
    requires t % 7 == 3 && ft % 7 == 3
    requires lo <= t < lo + len && lo <= ft <= lo + 6 && len <= 366
    ensures (t - ft) % 7 == 0 && 0 <= (t - ft) / 7 <= 52 && Round7(t - ft) == (t - ft) / 7
  {
    var q := (t - ft) / 7;
    assert t - ft == 7 * q;
    assert 14 * q + 7 == 2 * (t - ft) + 7;
  }

  /** Between two Thursdays lie whole weeks, so `Math.round` does not round. */
  lemma ThursdayGap(t: int, ft: int)
    requires t % 7 == 3 && ft % 7 == 3
    ensures (t - ft) % 7 == 0 && Round7(t - ft) == (t - ft) / 7
  {
    var q := (t - ft) / 7;
    assert t - ft == 7 * q by {
      assert t == 7 * (t / 7) + 3 && ft == 7 * (ft / 7) + 3;
    }
    assert 2 * (t - ft) + 7 == 14 * q + 7;
  }

  /** The first Thursday is a Thursday within the first seven days of the year. */
  lemma FirstThursdayFacts(y: int)
    requires y >= 1
    ensures FirstThursday(y) % 7 == 3
    ensures DaysBeforeYear(y) <= FirstThursday(y) <= DaysBeforeYear(y) + 6
  {
    var jan4 := Date(y, 1, 4);
    var n := Days(jan4);
    assert n == DaysBeforeYear(y) + 3;
    WeekDayArithmetic(n);
    assert FromMonday(jan4) == n % 7;
    assert FirstThursday(y) == n - n % 7 + 3;
  }

  /** The week number counts whole weeks from the first Thursday of the year the source's
      `week1` lands in: no rounding happens. From year 100 on that is the Thursday's own
      year, and the count is between 1 and 53. */
  lemma WeekNumberExact(d: Date)
    requires Valid(d)
    ensures var t := Thursday(d); var ft := FirstThursday(ConstructorYear(t.year));
      && (Days(t) - ft) % 7 == 0
      && WeekNumber(d) == 1 + (Days(t) - ft) / 7
    ensures Thursday(d).year >= 100 ==> 1 <= WeekNumber(d) <= 53
  {
    var t := Thursday(d);
    var y := t.year;
    var n, ft := Days(t), FirstThursday(ConstructorYear(y));
    assert WeekNumber(d) == 1 + Round7(n - ft);
    FirstThursdayFacts(ConstructorYear(y));
    ThursdayGap(n, ft);
    if y >= 100 {
      DaysBounds(t);
      YearStep(y);
      WeekArithmetic(n, ft, DaysBeforeYear(y), YearLength(y));
    }
  }

  /** For a Thursday in years 1 to 99 the source counts from 4 January of 1900 + year,
      which lies more than a week after it: the week number is negative, and the id
      prints a second '-' (0050-06-15 gets "50-" and a negative number). */
  lemma EarlyYearWeekNegative(d: Date)
    requires Valid(d) && Thursday(d).year <= 99
    ensures WeekNumber(d) < 0
    ensures WeekId(d) == NatToString(Thursday(d).year) + "-" + "-" + NatToString(-WeekNumber(d))
  {
    var t := Thursday(d);
    var y := t.year;
    assert Days(t) + 7 < FirstThursday(1900 + y) by {
      DaysBounds(t);
      YearsIncrease(y + 1, 1900 + y);
      FirstThursdayFacts(1900 + y);
    }
    WeekNumberExact(d);
    WeeksBefore(Days(t) - FirstThursday(1900 + y));
  }

  /** A whole number of weeks more than one week back counts at least two weeks back. */
  lemma WeeksBefore(x: int)
    requires x % 7 == 0 && x < -7
    ensures x / 7 <= -2
  {
    assert x == 7 * (x / 7);
  }

  /** "year-week" with a digit-only year splits back into its two parts. */
  lemma DashJoinInjective(ya: string, wa: string, yb: string, wb: string)
    requires AllDigits(ya) && AllDigits(yb) && ya + "-" + wa == yb + "-" + wb
    ensures ya == yb && wa == wb
  {
    assert '-' !in ya && '-' !in yb by {
      assert !IsDigit('-');
    }
    var joined := ya + ['-'] + wa;
    assert joined == yb + ['-'] + wb;
    SplitAtFirst(ya, '-', wa);
    SplitAtFirst(yb, '-', wb);
    assert ya == Split(joined, '-')[0] == yb;
    assert wa == (ya + "-" + wa)[|ya| + 1..];
    assert wb == (yb + "-" + wb)[|yb| + 1..];
  }

  /** Equal ids have equal years and equal week numbers. */
  lemma SameIdSameParts(a: Date, b: Date)
    requires Valid(a) && Valid(b) && WeekId(a) == WeekId(b)
    ensures Thursday(a).year == Thursday(b).year && WeekNumber(a) == WeekNumber(b)
  {
    var ya, yb := NatToString(Thursday(a).year), NatToString(Thursday(b).year);
    var wa, wb := IntToString(WeekNumber(a)), IntToString(WeekNumber(b));
    DashJoinInjective(ya, wa, yb, wb);
    IntRoundTrip(WeekNumber(a));
    IntRoundTrip(WeekNumber(b));
  }

  /** The id's year is the year of the week's Thursday, and the id splits at '-' into that
      year and the week number. */
  lemma WeekIdParts(d: Date)
    requires Valid(d) && Thursday(d).year >= 100
    ensures WeekNumber(d) >= 1
    ensures Split(WeekId(d), '-') == [NatToString(Thursday(d).year), NatToString(WeekNumber(d))]
  {
    WeekNumberExact(d);
    var a, b := NatToString(Thursday(d).year), NatToString(WeekNumber(d));
    assert WeekId(d) == a + ['-'] + b;
    SplitDigitPair(a, '-', b);
  }

  /** A day numbered within year `y` is a day of year `y`. */
  lemma YearOfDay(t: Date, y: int)
    requires Valid(t) && y >= 1 && DaysBeforeYear(y) <= Days(t) < DaysBeforeYear(y + 1)
    ensures t.year == y
  {
    DaysBounds(t);
    if t.year < y {
      YearsIncrease(t.year + 1, y);
    } else if t.year > y {
      YearsIncrease(y + 1, t.year);
    }
  }

  /** From year 100 on, 4 January lies in week 1 of its own year. */
  lemma FourthOfJanuaryInWeekOne(y: int)
    requires y >= 100
    ensures Valid(Date(y, 1, 4))
    ensures Thursday(Date(y, 1, 4)).year == y && WeekNumber(Date(y, 1, 4)) == 1
  {
    var jan4 := Date(y, 1, 4);
    var t := Thursday(jan4);
    FirstThursdayFacts(y);
    YearStep(y);
    assert Days(t) == FirstThursday(y);
    YearOfDay(t, y);
    WeekNumberExact(jan4);
  }

  /** Two dates get the same id exactly when they lie in the same Monday-to-Sunday week. */
  lemma SameIdIffSameWeek(a: Date, b: Date)
    requires Valid(a) && Valid(b)
    ensures WeekId(a) == WeekId(b) <==> MondayOf(a) == MondayOf(b)
  {
    var ta, tb := Thursday(a), Thursday(b);
    if MondayOf(a) == MondayOf(b) {
      DaysInjective(ta, tb);
    }
    if WeekId(a) == WeekId(b) {
      SameIdSameParts(a, b);
      WeekNumberExact(a);
      WeekNumberExact(b);
      var ft := FirstThursday(ConstructorYear(ta.year));
      assert Days(ta) == ft + 7 * (WeekNumber(a) - 1);
      assert Days(tb) == ft + 7 * (WeekNumber(b) - 1);
    }
  }
}
