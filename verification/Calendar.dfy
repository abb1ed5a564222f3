/**
 Day and time arithmetic of ECMA-262, section 21.4.1: days are counted from 1970-01-01 in the
 proleptic Gregorian calendar, instants are milliseconds.
 */
module Calendar {
  import opened Prelude
  import opened Text

  const MS_PER_DAY: int := 86_400_000
  const KST_OFFSET_MS: int := 9 * 60 * 60 * 1000

  predicate Leap(y: int) {
    y % 4 == 0 && (y % 100 != 0 || y % 400 == 0)
  }

  function DayFromYear(y: int): int {
    365 * (y - 1970) + (y - 1969) / 4 - (y - 1901) / 100 + (y - 1601) / 400
  }

  lemma YearLength(y: int)
    ensures DayFromYear(y + 1) == DayFromYear(y) + if Leap(y) then 366 else 365
  {
    QuotientStep(y - 1969, 4);
    QuotientStep(y - 1901, 100);
    QuotientStep(y - 1601, 400);
    SameRemainder(y, 4, 492);
    SameRemainder(y, 100, 19);
    SameRemainder(y, 400, 4);
  }

  lemma SameRemainder(y: int, n: int, k: int)
    requires n > 0
    ensures (y - k * n) % n == y % n
  {
    assert y - k * n == (y / n - k) * n + y % n;
    QuotientUnique(y - k * n, n, y / n - k, y % n);
  }

  lemma QuotientStep(a: int, n: int)
    requires n > 1
    ensures (a + 1) / n == a / n + if (a + 1) % n == 0 then 1 else 0
  {
    var q, r := a / n, a % n;
    assert a == q * n + r;
    if r + 1 < n {
      QuotientUnique(a + 1, n, q, r + 1);
    } else {
      assert a + 1 == (q + 1) * n;
      QuotientUnique(a + 1, n, q + 1, 0);
    }
  }

  lemma QuotientUnique(a: int, n: int, q: int, r: int)
    requires n > 0 && a == q * n + r && 0 <= r < n
    ensures a / n == q && a % n == r
  {
    var k := a / n - q;
    assert k * n == r - a % n;
    MultipleBeyond(k, n);
  }

  lemma MultipleBeyond(k: int, n: int)
    requires n > 0
    ensures k >= 1 ==> k * n >= n
    ensures k <= -1 ==> k * n <= -n
  {
  }

  /** A year that begins on or before day `d`, by at most a few years. */
  function YearEstimate(d: int): (y: int)
    ensures DayFromYear(y) <= d
  {
    1970 + if d >= 0 then d / 366 else d / 365
  }

  function YearSearch(d: int, y: int): (r: int)
    requires DayFromYear(y) <= d
    ensures DayFromYear(r) <= d < DayFromYear(r + 1)
    decreases d - DayFromYear(y)
  {
    YearLength(y);
    if DayFromYear(y + 1) <= d then YearSearch(d, y + 1) else y
  }

  /** The year day `d` falls in. */
  function YearFromDay(d: int): (y: int)
    ensures DayFromYear(y) <= d < DayFromYear(y + 1)
  {
    YearSearch(d, YearEstimate(d))
  }

  lemma {:induction false} YearsIncrease(x: int, y: int)
    requires x <= y
    ensures DayFromYear(x) <= DayFromYear(y)
    ensures x < y ==> DayFromYear(x) + 365 <= DayFromYear(y)
    decreases y - x
  {
    if x < y {
      YearsIncrease(x, y - 1);
      YearLength(y - 1);
    }
  }

  lemma YearIsUnique(d: int, y: int)
    requires DayFromYear(y) <= d < DayFromYear(y + 1)
    ensures YearFromDay(d) == y
  {
    hide DayFromYear;
    var r := YearFromDay(d);
    if r < y {
      YearsIncrease(r + 1, y);
    } else if y < r {
      YearsIncrease(y + 1, r);
    }
  }

  /** Days of the year before month `m`, counted from 0; `m == 12` gives the length of the year. */
  function DaysBefore(leap: bool, m: int): int
    requires 0 <= m <= 12
  {
    [0, 31, 59, 90, 120, 151, 181, 212, 243, 273, 304, 334, 365][m] + if leap && m >= 2 then 1 else 0
  }

  function MonthOf(leap: bool, day: int): (m: int)
    requires 0 <= day < if leap then 366 else 365
    ensures 0 <= m < 12 && DaysBefore(leap, m) <= day < DaysBefore(leap, m + 1)
  {
    var l := if leap then 1 else 0;
    if day < 31 then 0
    else if day < 59 + l then 1
    else if day < 90 + l then 2
    else if day < 120 + l then 3
    else if day < 151 + l then 4
    else if day < 181 + l then 5
    else if day < 212 + l then 6
    else if day < 243 + l then 7
    else if day < 273 + l then 8
    else if day < 304 + l then 9
    else if day < 334 + l then 10
    else 11
  }

  /** A calendar date; months and days count from 1. */
  datatype Date = Date(year: int, month: int, day: int)

  function DaysInMonth(year: int, month: int): int
    requires 1 <= month <= 12
  {
    DaysBefore(Leap(year), month) - DaysBefore(Leap(year), month - 1)
  }

  /** A date of the calendar. */
  predicate Real(date: Date) {
    1 <= date.month <= 12 && 1 <= date.day <= DaysInMonth(date.year, date.month)
  }

  /** `MakeDay`: months count from 0 and both month and day may be out of range. */
  function MakeDay(year: int, month: int, day: int): int {
    DayFromYear(year + month / 12) + DaysBefore(Leap(year + month / 12), month % 12) + day - 1
  }

  function DayOf(date: Date): int {
    MakeDay(date.year, date.month - 1, date.day)
  }

  function DateOf(d: int): (date: Date)
    ensures Real(date)
  {
    var y := YearFromDay(d);
    YearLength(y);
    var dayInYear := d - DayFromYear(y);
    var m := MonthOf(Leap(y), dayInYear);
    Date(y, m + 1, dayInYear - DaysBefore(Leap(y), m) + 1)
  }

  lemma DayOfDateOf(d: int)
    ensures DayOf(DateOf(d)) == d
  {
    hide DayFromYear, DaysBefore, MonthOf;
    var y := YearFromDay(d);
    YearLength(y);
    var m := MonthOf(Leap(y), d - DayFromYear(y));
    assert m / 12 == 0 && m % 12 == m;
  }

  lemma DayOfRealDate(date: Date)
    requires Real(date)
    ensures DayOf(date) == DayFromYear(date.year) + DaysBefore(Leap(date.year), date.month - 1) + date.day - 1
    ensures DayFromYear(date.year) <= DayOf(date) < DayFromYear(date.year + 1)
  {
    YearLength(date.year);
    assert (date.month - 1) / 12 == 0 && (date.month - 1) % 12 == date.month - 1;
  }

  lemma MonthIsUnique(leap: bool, day: int, m: int)
    requires 0 <= m < 12 && DaysBefore(leap, m) <= day < DaysBefore(leap, m + 1)
    ensures 0 <= day < (if leap then 366 else 365) && MonthOf(leap, day) == m
  {
  }

  /** Dates and day numbers are in bijection. */
  lemma DateOfDayOf(date: Date)
    requires Real(date)
    ensures DateOf(DayOf(date)) == date
  {
    hide DayFromYear, DaysBefore, MonthOf, YearFromDay, DayOf;
    DayOfRealDate(date);
    YearIsUnique(DayOf(date), date.year);
    MonthIsUnique(Leap(date.year), DayOf(date) - DayFromYear(date.year), date.month - 1);
  }

  lemma YearsFollowDays(d: int, e: int)
    requires d <= e
    ensures DateOf(d).year <= DateOf(e).year
  {
    hide DayFromYear, MonthOf;
    var x, y := YearFromDay(d), YearFromDay(e);
    assert DateOf(d).year == x && DateOf(e).year == y;
    if y < x {
      YearsIncrease(y + 1, x);
    }
  }

  /** `Date.UTC` on whole days: years 0 to 99 mean 1900 to 1999. */
  function FullYear(year: int): int {
    if 0 <= year <= 99 then 1900 + year else year
  }

  function UtcDay(year: int, month: int, day: int): int {
    MakeDay(FullYear(year), month, day)
  }

  function UtcMs(year: int, month: int, day: int, hour: int, minute: int, second: int): int {
    UtcDay(year, month, day) * MS_PER_DAY + hour * 3_600_000 + minute * 60_000 + second * 1000
  }

  // ---------------------------------------------------------------------------
  // Printed dates and times
  // ---------------------------------------------------------------------------

  /** `toISOString().slice(0, 10)` without its dashes. */
  function CompactDate(d: int): string {
    var date := DateOf(d);
    if 0 <= date.year <= 9999 then Fixed(date.year, 4) + Fixed(date.month, 2) + Fixed(date.day, 2)
    else if date.year > 9999 then "+" + Fixed(date.year, 6) + Fixed(date.month, 2)
    else Fixed(-date.year, 6) + Fixed(date.month, 2)
  }

  function SecondOfDay(ms: int): (s: nat)
    ensures s < 86_400
  {
    ms % MS_PER_DAY / 1000
  }

  /** `toISOString().slice(11, 19)` without its colons; outside years 0 to 9999 the slice is shifted. */
  function CompactTime(ms: int): string {
    var s := SecondOfDay(ms);
    var hour, minute, second := Fixed(s / 3600, 2), Fixed(s / 60 % 60, 2), Fixed(s % 60, 2);
    var date := DateOf(ms / MS_PER_DAY);
    if 0 <= date.year <= 9999 then hour + minute + second
    else Fixed(date.day, 2) + "T" + hour + minute
  }
}
