/**
 * The proleptic Gregorian calendar of `java.time` and of JavaScript's `Date`:
 * civil dates, their day numbers counted from 1970-01-01 (Java's `toEpochDay`),
 * and local date-times with their epoch seconds.
 */
module Gregorian {

  datatype Date = Date(year: int, month: int, day: int)

  predicate IsLeap(y: int)
  {
    y % 4 == 0 && (y % 100 != 0 || y % 400 == 0)
  }

  function YearLength(y: int): int
  {
    if IsLeap(y) then 366 else 365
  }

  function DaysInMonth(y: int, m: int): int
    requires 1 <= m <= 12
  {
    if m == 2 then (if IsLeap(y) then 29 else 28)
    else if m == 4 || m == 6 || m == 9 || m == 11 then 30
    else 31
  }

  predicate Valid(d: Date)
  {
    1 <= d.month <= 12 && 1 <= d.day <= DaysInMonth(d.year, d.month)
  }

  /** Days in the months of year y before month m. */
  function DaysBeforeMonth(y: int, m: int): int
    requires 1 <= m <= 12
  {
    var common :=
      if m == 1 then 0 else if m == 2 then 31 else if m == 3 then 59
      else if m == 4 then 90 else if m == 5 then 120 else if m == 6 then 151
      else if m == 7 then 181 else if m == 8 then 212 else if m == 9 then 243
      else if m == 10 then 273 else if m == 11 then 304 else 334;
    common + (if m > 2 && IsLeap(y) then 1 else 0)
  }

  /** Days from 1970-01-01 to January 1st of year y (negative before 1970). */
  function DaysBeforeYear(y: int): int
  {
    365 * (y - 1) + (y - 1) / 4 - (y - 1) / 100 + (y - 1) / 400 - 719162
  }

  /** Java's `LocalDate.toEpochDay`: 1970-01-01 is day 0. */
  function DayNumber(d: Date): int
    requires Valid(d)
  {
    DaysBeforeYear(d.year) + DaysBeforeMonth(d.year, d.month) + d.day - 1
  }

  lemma FloorDivStep(x: int)
    ensures (x + 1) / 4 - x / 4 == if (x + 1) % 4 == 0 then 1 else 0
    ensures (x + 1) / 100 - x / 100 == if (x + 1) % 100 == 0 then 1 else 0
    ensures (x + 1) / 400 - x / 400 == if (x + 1) % 400 == 0 then 1 else 0
  {
  }

  /** A year's length counts the multiples of 4, 100 and 400 it is. */
  lemma LeapTerms(y: int)
    ensures YearLength(y)
      == 365 + (if y % 4 == 0 then 1 else 0) - (if y % 100 == 0 then 1 else 0) + (if y % 400 == 0 then 1 else 0)
  {
    if y % 400 == 0 {
      var k := y / 400;
      assert y == 100 * (4 * k) && y == 4 * (100 * k);
    } else if y % 100 == 0 {
      var k := y / 100;
      assert y == 4 * (25 * k);
    }
  }

  lemma YearStep(y: int)
    ensures DaysBeforeYear(y + 1) == DaysBeforeYear(y) + YearLength(y)
  {
    FloorDivStep(y - 1);
    LeapTerms(y);
  }

  lemma MonthStep(y: int, m: int)
    requires 1 <= m < 12
    ensures DaysBeforeMonth(y, m + 1) == DaysBeforeMonth(y, m) + DaysInMonth(y, m)
  {
  }

  lemma DayOfYearBound(d: Date)
    requires Valid(d)
    ensures 0 <= DaysBeforeMonth(d.year, d.month) + d.day - 1 < YearLength(d.year)
  {
  }

  lemma {:induction false} YearMonotone(a: int, b: int)
    requires a < b
    ensures DaysBeforeYear(a) + YearLength(a) <= DaysBeforeYear(b)
  {
    YearsLengthGap(a, b - a);
    assert YearsLength(a, b - a) == YearLength(a) + YearsLength(a + 1, b - a - 1);
  }

  /**
   * The date lying `off` days after January 1st of year y
   * (`off` may be negative or exceed the year).
   */
  function CivilFrom(off: int, y: int): (d: Date)
    ensures Valid(d)
    decreases if off < 0 then 400 - off else off
  {
    if off < 0 then CivilFrom(off + YearLength(y - 1), y - 1)
    else if off >= YearLength(y) then CivilFrom(off - YearLength(y), y + 1)
    else MonthFrom(y, off, 1)
  }

  /** The date lying `off` days after the first of month m in year y, within that year. */
  function MonthFrom(y: int, off: int, m: int): (d: Date)
    requires 1 <= m <= 12 && 0 <= off && DaysBeforeMonth(y, m) + off < YearLength(y)
    ensures Valid(d)
    decreases 12 - m
  {
    if off < DaysInMonth(y, m) then Date(y, m, off + 1)
    else MonthFrom(y, off - DaysInMonth(y, m), m + 1)
  }

  /** Java's `LocalDate.ofEpochDay`. */
  function FromDayNumber(n: int): (d: Date)
    ensures Valid(d)
  {
    CivilFrom(n, 1970)
  }

  lemma {:induction false} MonthFromNumber(y: int, off: int, m: int)
    requires 1 <= m <= 12 && 0 <= off && DaysBeforeMonth(y, m) + off < YearLength(y)
    ensures DayNumber(MonthFrom(y, off, m)) == DaysBeforeYear(y) + DaysBeforeMonth(y, m) + off
    decreases 12 - m
  {
    if off >= DaysInMonth(y, m) {
      assert m < 12;
      var off' := off - DaysInMonth(y, m);
      MonthStep(y, m);
      MonthFromNumber(y, off', m + 1);
      assert MonthFrom(y, off, m) == MonthFrom(y, off', m + 1);
    } else {
      assert MonthFrom(y, off, m) == Date(y, m, off + 1);
    }
  }

  lemma {:induction false} CivilFromNumber(off: int, y: int)
    ensures DayNumber(CivilFrom(off, y)) == DaysBeforeYear(y) + off
    decreases if off < 0 then 400 - off else off
  {
    if off < 0 {
      YearStep(y - 1);
      CivilFromNumber(off + YearLength(y - 1), y - 1);
    } else if off >= YearLength(y) {
      YearStep(y);
      CivilFromNumber(off - YearLength(y), y + 1);
    } else {
      MonthFromNumber(y, off, 1);
    }
  }

  /** Day numbers name dates: converting a day number to a date and back is the identity. */
  lemma DayNumberOfFromDayNumber(n: int)
    ensures DayNumber(FromDayNumber(n)) == n
  {
    CivilFromNumber(n, 1970);
  }

  lemma {:induction false} MonthFromOfDate(y: int, m: int, day: int, k: int)
    requires Valid(Date(y, m, day)) && 1 <= k <= m
    ensures DaysBeforeMonth(y, m) - DaysBeforeMonth(y, k) + day - 1 >= 0
    ensures DaysBeforeMonth(y, k) + (DaysBeforeMonth(y, m) - DaysBeforeMonth(y, k) + day - 1) < YearLength(y)
    ensures MonthFrom(y, DaysBeforeMonth(y, m) - DaysBeforeMonth(y, k) + day - 1, k) == Date(y, m, day)
    decreases m - k
  {
    DayOfYearBound(Date(y, m, day));
    if k < m {
      MonthStep(y, k);
      MonthFromOfDate(y, m, day, k + 1);
    }
  }

  /** The days in the n years starting with year y. */
  function YearsLength(y: int, n: nat): (r: int)
    ensures r >= 365 * n
    decreases n
  {
    if n == 0 then 0 else YearLength(y) + YearsLength(y + 1, n - 1)
  }

  lemma {:induction false} YearsLengthLast(y: int, z: int)
    requires y <= z
    ensures YearsLength(y, z + 1 - y) == YearsLength(y, z - y) + YearLength(z)
    decreases z - y
  {
    if y < z {
      YearsLengthLast(y + 1, z);
    }
  }

  lemma {:induction false} YearsLengthGap(y: int, n: nat)
    ensures DaysBeforeYear(y + n) == DaysBeforeYear(y) + YearsLength(y, n)
    decreases n
  {
    if n > 0 {
      YearStep(y);
      YearsLengthGap(y + 1, n - 1);
    }
  }

  lemma CivilFromNextYear(off: int, y: int)
    requires off >= YearLength(y)
    ensures CivilFrom(off, y) == CivilFrom(off - YearLength(y), y + 1)
  {
  }

  lemma CivilFromLastYear(off: int, y: int)
    requires off < 0
    ensures CivilFrom(off, y) == CivilFrom(off + YearLength(y - 1), y - 1)
  {
  }

  /** Walking forward whole years from year y to year z lands in year z. */
  lemma {:induction false} CivilFromUp(y: int, z: int, o: int)
    requires y <= z && 0 <= o < YearLength(z)
    ensures CivilFrom(YearsLength(y, z - y) + o, y) == MonthFrom(z, o, 1)
    decreases z - y
  {
    if y < z {
      var rest := YearsLength(y + 1, z - (y + 1));
      assert YearsLength(y, z - y) == YearLength(y) + rest;
      CivilFromUp(y + 1, z, o);
      CivilFromNextYear(YearLength(y) + rest + o, y);
    }
  }

  /** Walking backward whole years from year z to year y lands in year y. */
  lemma {:induction false} CivilFromDown(y: int, z: int, o: int)
    requires y <= z && 0 <= o < YearLength(y)
    ensures CivilFrom(o - YearsLength(y, z - y), z) == MonthFrom(y, o, 1)
    decreases z - y
  {
    if y < z {
      YearsLengthLast(y, z - 1);
      assert o - YearsLength(y, z - y) < 0;
      CivilFromDown(y, z - 1, o);
      CivilFromLastYear(o - YearsLength(y, z - y), z);
    }
  }

  lemma FromDayNumberOfDate(d: Date)
    requires Valid(d)
    ensures FromDayNumber(DayNumber(d)) == d
  {
    DayOfYearBound(d);
    var o := DaysBeforeMonth(d.year, d.month) + d.day - 1;
    MonthFromOfDate(d.year, d.month, d.day, 1);
    assert MonthFrom(d.year, o, 1) == d;
    var n := DayNumber(d);
    assert n == DaysBeforeYear(d.year) + o;
    assert DaysBeforeYear(1970) == 0;
    if d.year <= 1970 {
      var k := 1970 - d.year;
      YearsLengthGap(d.year, k);
      assert n == o - YearsLength(d.year, k);
      CivilFromDown(d.year, 1970, o);
    } else {
      var k := d.year - 1970;
      YearsLengthGap(1970, k);
      assert n == YearsLength(1970, k) + o;
      CivilFromUp(1970, d.year, o);
    }
  }

  /** Java's `LocalDate.isAfter`: a comparison of year, then month, then day. */
  predicate IsAfter(a: Date, b: Date)
  {
    a.year > b.year || (a.year == b.year && (a.month > b.month || (a.month == b.month && a.day > b.day)))
  }

  lemma MonthMonotone(y: int, a: int, b: int)
    requires 1 <= a < b <= 12
    ensures DaysBeforeMonth(y, a) + DaysInMonth(y, a) <= DaysBeforeMonth(y, b)
  {
  }

  /** The calendar order of valid dates is the order of their day numbers. */
  lemma IsAfterIffLaterDay(a: Date, b: Date)
    requires Valid(a) && Valid(b)
    ensures IsAfter(a, b) <==> DayNumber(a) > DayNumber(b)
  {
    DayOfYearBound(a);
    DayOfYearBound(b);
    if a.year < b.year {
      YearMonotone(a.year, b.year);
    } else if a.year > b.year {
      YearMonotone(b.year, a.year);
    } else if a.month < b.month {
      MonthMonotone(a.year, a.month, b.month);
    } else if a.month > b.month {
      MonthMonotone(a.year, b.month, a.month);
    }
  }

  /** Java's `LocalDate.plusDays` (and `minusDays` with a negative count). */
  function PlusDays(d: Date, k: int): (r: Date)
    requires Valid(d)
    ensures Valid(r)
  {
    FromDayNumber(DayNumber(d) + k)
  }

  /** A `LocalDateTime`: a date and a time of day with nanoseconds. */
  datatype DateTime = DateTime(date: Date, hour: int, minute: int, second: int, nano: int)

  predicate ValidDateTime(t: DateTime)
  {
    Valid(t.date) && 0 <= t.hour < 24 && 0 <= t.minute < 60 && 0 <= t.second < 60
    && 0 <= t.nano < 1_000_000_000
  }

  function SecondOfDay(t: DateTime): int
  {
    t.hour * 3600 + t.minute * 60 + t.second
  }

  /** Java's `LocalDateTime.toEpochSecond(ZoneOffset.UTC)`. */
  function EpochSecond(t: DateTime): int
    requires ValidDateTime(t)
  {
    DayNumber(t.date) * 86400 + SecondOfDay(t)
  }

  /** Java's `LocalDateTime.ofEpochSecond(s, nano, ZoneOffset.UTC)`. */
  function FromEpochSecond(s: int, nano: int): (t: DateTime)
    requires 0 <= nano < 1_000_000_000
    ensures ValidDateTime(t)
  {
    var sod := s % 86400;
    DateTime(FromDayNumber(s / 86400), sod / 3600, sod % 3600 / 60, sod % 3600 % 60, nano)
  }

  lemma EpochSecondOfFromEpochSecond(s: int, nano: int)
    requires 0 <= nano < 1_000_000_000
    ensures EpochSecond(FromEpochSecond(s, nano)) == s
  {
    DayNumberOfFromDayNumber(s / 86400);
  }

  lemma FromEpochSecondOfDateTime(t: DateTime)
    requires ValidDateTime(t)
    ensures FromEpochSecond(EpochSecond(t), t.nano) == t
  {
    var sod := SecondOfDay(t);
    var s := EpochSecond(t);
    assert 0 <= sod < 86400;
    assert s / 86400 == DayNumber(t.date) && s % 86400 == sod;
    assert sod / 3600 == t.hour && sod % 3600 == t.minute * 60 + t.second;
    FromDayNumberOfDate(t.date);
  }

  /** Java's `LocalDateTime.plusSeconds`. */
  function PlusSeconds(t: DateTime, k: int): (r: DateTime)
    requires ValidDateTime(t)
    ensures ValidDateTime(r)
  {
    FromEpochSecond(EpochSecond(t) + k, t.nano)
  }

  /** Java's `LocalDate.atStartOfDay()`. */
  function AtStartOfDay(d: Date): DateTime
  {
    DateTime(d, 0, 0, 0, 0)
  }
}
