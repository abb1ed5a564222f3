/** The matcher's Korean-time stamps: `YYYYMMDD` and `HHMMSS` strings against instants. */
module KstTimestamp {
  import opened Prelude
  import opened Text
  import opened Calendar

  function FormatKstDate(ms: int): string {
    CompactDate((ms + KST_OFFSET_MS) / MS_PER_DAY)
  }

  function FormatKstTime(ms: int): string {
    CompactTime(ms + KST_OFFSET_MS)
  }

  predicate IsTime(time: string) {
    && |time| == 6 && AllDigits(time)
    && Value(time[..2]) <= 23 && Value(time[2..4]) <= 59 && Value(time[4..]) <= 59
  }

  function MsOfTime(time: string): int
    requires AllDigits(time) && |time| == 6
  {
    Value(time[..2]) * 3_600_000 + Value(time[2..4]) * 60_000 + Value(time[4..]) * 1000
  }

  function DateFields(date: string): Date
    requires AllDigits(date) && |date| == 8
  {
    Date(Value(date[..4]), Value(date[4..6]), Value(date[6..]))
  }

  /** `Date.UTC` of the fields, nine hours earlier; a day or month of `00` rolls backwards. */
  function ReadInstant(date: string, time: string): int
    requires |date| == 8 && AllDigits(date) && |time| == 6 && AllDigits(time)
  {
    var fields := DateFields(date);
    UtcMs(fields.year, fields.month - 1, fields.day, Value(time[..2]) - 9, Value(time[2..4]), Value(time[4..]))
  }

  function ParseKstTimestamp(date: string, time: string): Option<int> {
    if |date| != 8 || !AllDigits(date) || !IsTime(time) then None
    else
      var ms := ReadInstant(date, time);
      if FormatKstDate(ms) != date || FormatKstTime(ms) != time then None else Some(ms)
  }

  /** Real Gregorian dates written with four-digit years that `Date.UTC` does not shift. */
  predicate IsCalendarDate(date: string) {
    |date| == 8 && AllDigits(date) && DateFields(date).year >= 100 && Real(DateFields(date))
  }

  // ---------------------------------------------------------------------------
  // Printing
  // ---------------------------------------------------------------------------

  lemma DayAndRest(day: int, rest: int)
    requires 0 <= rest < MS_PER_DAY
    ensures (day * MS_PER_DAY + rest) / MS_PER_DAY == day && (day * MS_PER_DAY + rest) % MS_PER_DAY == rest
  {
    QuotientUnique(day * MS_PER_DAY + rest, MS_PER_DAY, day, rest);
  }

  lemma SmallPowers()
    ensures Pow10(2) == 100 && Pow10(4) == 10_000 && Pow10(6) == 1_000_000
  {
    assert Pow10(1) == 10 * Pow10(0);
    assert Pow10(3) == 10 * Pow10(2);
    assert Pow10(5) == 10 * Pow10(4);
  }

  lemma FixedParts(a: nat, b: nat, c: nat, w: nat)
    requires a < Pow10(w) && b < 100 && c < 100
    ensures var s := Fixed(a, w) + Fixed(b, 2) + Fixed(c, 2);
            && |s| == w + 4 && AllDigits(s)
            && s[..w] == Fixed(a, w) && s[w..w + 2] == Fixed(b, 2) && s[w + 2..] == Fixed(c, 2)
            && Value(s[..w]) == a && Value(s[w..w + 2]) == b && Value(s[w + 2..]) == c
            && Value(s) == a * 10_000 + b * 100 + c
  {
    hide Fixed, Value, Pow10;
    var s := Fixed(a, w) + Fixed(b, 2) + Fixed(c, 2);
    assert s[w..w + 2] == Fixed(b, 2) && s[w + 2..] == Fixed(c, 2) && s[..w] == Fixed(a, w);
    SmallPowers();
    ValueOfFixed(a, w);
    ValueOfFixed(b, 2);
    ValueOfFixed(c, 2);
    ValueOfConcat(Fixed(a, w), Fixed(b, 2));
    ValueOfConcat(Fixed(a, w) + Fixed(b, 2), Fixed(c, 2));
  }

  lemma FieldsPrintBack(s: string, w: nat)
    requires AllDigits(s) && |s| == w + 4
    ensures s == Fixed(Value(s[..w]), w) + Fixed(Value(s[w..w + 2]), 2) + Fixed(Value(s[w + 2..]), 2)
    ensures Value(s[..w]) < Pow10(w) && Value(s[w..w + 2]) < 100 && Value(s[w + 2..]) < 100
  {
    hide Fixed, Value, Pow10;
    SmallPowers();
    FixedOfValue(s[..w]);
    FixedOfValue(s[w..w + 2]);
    FixedOfValue(s[w + 2..]);
    ValueBound(s[..w]);
    ValueBound(s[w..w + 2]);
    ValueBound(s[w + 2..]);
    assert s == s[..w] + s[w..w + 2] + s[w + 2..];
  }

  lemma PrintedDate(d: int)
    requires 0 <= DateOf(d).year <= 9999
    ensures var s := CompactDate(d);
            |s| == 8 && AllDigits(s) && DateFields(s) == DateOf(d) && Value(s) == DateNumber(DateOf(d))
  {
    hide DateOf;
    var date := DateOf(d);
    SmallPowers();
    FixedParts(date.year, date.month, date.day, 4);
  }

  /** A date with each field padded on its own, as the broker adapters print it. */
  function FormatDate(day: int): string {
    var date := DateOf(day);
    PadStart(DecimalInt(date.year), 4) + PadStart(DecimalInt(date.month), 2) + PadStart(DecimalInt(date.day), 2)
  }

  lemma FormatDateIsCompact(day: int)
    requires 0 <= DateOf(day).year <= 9999
    ensures FormatDate(day) == CompactDate(day)
  {
    hide DateOf, Fixed, PadStart, Decimal, Pow10;
    var date := DateOf(day);
    SmallPowers();
    PaddedDecimal(date.year, 4);
    PaddedDecimal(date.month, 2);
    PaddedDecimal(date.day, 2);
  }

  /** Reading a calendar date and printing its day gives the same string. */
  lemma DatePrintsBack(date: string)
    requires IsCalendarDate(date)
    ensures CompactDate(DayOf(DateFields(date))) == date
    ensures DateOf(DayOf(DateFields(date))) == DateFields(date) && DateFields(date).year <= 9999
  {
    hide DateOf, DayOf;
    DateOfDayOf(DateFields(date));
    SmallPowers();
    FieldsPrintBack(date, 4);
    assert date[4..4 + 2] == date[4..6] && date[4 + 2..] == date[6..];
  }

  function SecondsOfTime(time: string): nat
    requires AllDigits(time) && |time| == 6
  {
    Value(time[..2]) * 3600 + Value(time[2..4]) * 60 + Value(time[4..])
  }

  lemma SecondsSplit(hour: nat, minute: nat, second: nat)
    requires hour <= 23 && minute <= 59 && second <= 59
    ensures var s := hour * 3600 + minute * 60 + second;
            s < 86_400 && s / 3600 == hour && s / 60 % 60 == minute && s % 60 == second
  {
    var s := hour * 3600 + minute * 60 + second;
    QuotientUnique(s, 3600, hour, minute * 60 + second);
    QuotientUnique(s, 60, hour * 60 + minute, second);
    QuotientUnique(hour * 60 + minute, 60, hour, minute);
  }

  lemma TimePrintsBack(time: string, day: int)
    requires IsTime(time) && 0 <= DateOf(day).year <= 9999
    ensures 0 <= MsOfTime(time) < MS_PER_DAY
    ensures CompactTime(day * MS_PER_DAY + MsOfTime(time)) == time
  {
    hide DateOf, Value, Fixed;
    assert MsOfTime(time) == 1000 * SecondsOfTime(time);
    SecondsSplit(Value(time[..2]), Value(time[2..4]), Value(time[4..]));
    DayAndRest(day, MsOfTime(time));
    assert SecondOfDay(day * MS_PER_DAY + MsOfTime(time)) == SecondsOfTime(time);
    FieldsPrintBack(time, 2);
    assert time[2..2 + 2] == time[2..4] && time[2 + 2..] == time[4..];
  }

  lemma ClockOfSeconds(s: nat)
    requires s < 86_400
    ensures var time := Fixed(s / 3600, 2) + Fixed(s / 60 % 60, 2) + Fixed(s % 60, 2);
            IsTime(time) && SecondsOfTime(time) == s
  {
    hide Value, Fixed;
    SmallPowers();
    FixedParts(s / 3600, s / 60 % 60, s % 60, 2);
    var t := Fixed(s / 3600, 2) + Fixed(s / 60 % 60, 2) + Fixed(s % 60, 2);
    assert t[2..2 + 2] == t[2..4] && t[2 + 2..] == t[4..];
    MinutesOfSeconds(s);
  }

  lemma MinutesOfSeconds(s: nat)
    requires s < 86_400
    ensures s / 3600 <= 23 && s / 60 % 60 <= 59 && s % 60 <= 59
    ensures s / 3600 * 3600 + s / 60 % 60 * 60 + s % 60 == s
  {
    var hour, minute, second := s / 3600, s % 3600 / 60, s % 60;
    assert s % 3600 == minute * 60 + s % 3600 % 60;
    QuotientUnique(s, 60, hour * 60 + minute, s % 3600 % 60);
    QuotientUnique(hour * 60 + minute, 60, hour, minute);
  }

  lemma PrintedTime(ms: int)
    requires 0 <= DateOf(ms / MS_PER_DAY).year <= 9999
    ensures IsTime(CompactTime(ms))
    ensures MsOfTime(CompactTime(ms)) == ms % MS_PER_DAY - ms % 1000
  {
    hide DateOf, Value, Fixed;
    var s := SecondOfDay(ms);
    ClockOfSeconds(s);
    assert MsOfTime(CompactTime(ms)) == 1000 * SecondsOfTime(CompactTime(ms));
    assert ms % MS_PER_DAY % 1000 == ms % 1000;
  }

  // ---------------------------------------------------------------------------
  // What the parser accepts
  // ---------------------------------------------------------------------------

  /** The day `Date.UTC` reads from eight digits. */
  function ReadDay(date: string): int
    requires |date| == 8 && AllDigits(date)
  {
    var fields := DateFields(date);
    UtcDay(fields.year, fields.month - 1, fields.day)
  }

  lemma TimeInDay(time: string)
    requires IsTime(time)
    ensures 0 <= MsOfTime(time) < MS_PER_DAY && MsOfTime(time) % 1000 == 0
  {
    hide Value;
    assert MsOfTime(time) == 1000 * SecondsOfTime(time);
  }

  lemma ParsedInstant(date: string, time: string)
    requires |date| == 8 && AllDigits(date) && IsTime(time)
    ensures ReadInstant(date, time) + KST_OFFSET_MS == ReadDay(date) * MS_PER_DAY + MsOfTime(time)
    ensures FormatKstDate(ReadInstant(date, time)) == CompactDate(ReadDay(date))
    ensures FormatKstTime(ReadInstant(date, time)) == CompactTime(ReadDay(date) * MS_PER_DAY + MsOfTime(time))
  {
    hide CompactDate, CompactTime, UtcDay, Value;
    TimeInDay(time);
    DayAndRest(ReadDay(date), MsOfTime(time));
  }

  /** A day whose printed date is eight digits has those fields, if it is not before the year 0. */
  lemma PrintedEightDigits(d: int, date: string)
    requires CompactDate(d) == date && |date| == 8 && AllDigits(date) && DateOf(d).year >= 0
    ensures DateOf(d).year <= 9999 && DateFields(date) == DateOf(d)
  {
    hide DateOf, Value, Fixed;
    if DateOf(d).year <= 9999 {
      PrintedDate(d);
    }
  }

  /** Rolling a month or day of `00` backwards leaves the previous year at the earliest. */
  lemma ReadYearBound(year: int, month: int, day: int)
    requires month >= -1 && day >= 0
    ensures DateOf(MakeDay(year, month, day)).year >= year - 1
  {
    hide DayFromYear;
    var d := MakeDay(year, month, day);
    YearsIncrease(year - 1, year + month / 12);
    var y := DateOf(d).year;
    assert DayFromYear(y) <= d < DayFromYear(y + 1);
    assert DayFromYear(year - 1) - 1 <= d;
    if month >= 0 {
      YearsIncrease(year - 1, year + month / 12);
    } else {
      assert month / 12 == -1 && month % 12 == 11;
    }
    if y + 1 <= year - 1 {
      YearsIncrease(y + 1, year - 1);
    }
  }

  /** `Date.UTC` of the eight digits, printed, is the same string. */
  predicate PrintsBack(date: string) {
    |date| == 8 && AllDigits(date) && CompactDate(ReadDay(date)) == date
  }

  lemma DatesThatPrintBack(date: string)
    ensures PrintsBack(date) <==> IsCalendarDate(date)
  {
    hide DateOf, MakeDay, CompactDate, Value;
    if IsCalendarDate(date) {
      DatePrintsBack(date);
    }
    if PrintsBack(date) {
      var fields := DateFields(date);
      ReadYearBound(FullYear(fields.year), fields.month - 1, fields.day);
      PrintedEightDigits(ReadDay(date), date);
    }
  }

  lemma RealTimesParse(date: string, time: string)
    requires IsCalendarDate(date) && IsTime(time)
    ensures ParseKstTimestamp(date, time)
         == Some(DayOf(DateFields(date)) * MS_PER_DAY + MsOfTime(time) - KST_OFFSET_MS)
  {
    hide DateOf, MakeDay, CompactDate, CompactTime, Value, ReadInstant, FormatKstDate, FormatKstTime, IsTime, MsOfTime;
    assert ReadDay(date) == DayOf(DateFields(date));
    ParsedInstant(date, time);
    DatePrintsBack(date);
    TimePrintsBack(time, ReadDay(date));
  }

  lemma ParsedDatesAreReal(date: string, time: string)
    requires ParseKstTimestamp(date, time).Some?
    ensures IsCalendarDate(date) && IsTime(time)
  {
    hide MakeDay, CompactDate, CompactTime, Value, ReadInstant, FormatKstDate, FormatKstTime, IsTime, MsOfTime, DateOf;
    ParsedInstant(date, time);
    var fields := DateFields(date);
    ReadYearBound(FullYear(fields.year), fields.month - 1, fields.day);
    PrintedEightDigits(ReadDay(date), date);
  }

  /**
   The parser accepts exactly the real Gregorian dates of years 0100 to 9999 with a valid time of
   day, and returns the instant of that Korean wall-clock time.
   */
  lemma ParserAcceptsExactlyRealTimes(date: string, time: string)
    ensures ParseKstTimestamp(date, time).Some? <==> IsCalendarDate(date) && IsTime(time)
    ensures IsCalendarDate(date) && IsTime(time) ==>
              ParseKstTimestamp(date, time)
                == Some(DayOf(DateFields(date)) * MS_PER_DAY + MsOfTime(time) - KST_OFFSET_MS)
  {
    hide ParseKstTimestamp, DayOf, MsOfTime, IsTime, IsCalendarDate;
    if ParseKstTimestamp(date, time).Some? {
      ParsedDatesAreReal(date, time);
    }
    if IsCalendarDate(date) && IsTime(time) {
      assert |date| == 8 && AllDigits(date) && |time| == 6 && AllDigits(time) by { ShapesOfStamps(date, time); }
      RealTimesParse(date, time);
    }
  }

  lemma ShapesOfStamps(date: string, time: string)
    requires IsCalendarDate(date) && IsTime(time)
    ensures |date| == 8 && AllDigits(date) && |time| == 6 && AllDigits(time)
  {
  }

  /** Parsing then printing gives the same strings back. */
  lemma ParseThenFormat(date: string, time: string)
    requires ParseKstTimestamp(date, time).Some?
    ensures var ms := ParseKstTimestamp(date, time).value;
            && FormatKstDate(ms) == date && FormatKstTime(ms) == time && ms % 1000 == 0
  {
    hide DateOf, MakeDay, CompactDate, CompactTime, Value, DayOf;
    ParserAcceptsExactlyRealTimes(date, time);
  }

  function KstYear(ms: int): int {
    DateOf((ms + KST_OFFSET_MS) / MS_PER_DAY).year
  }

  lemma YearsFollowInstants(a: int, b: int)
    requires a <= b
    ensures KstYear(a) <= KstYear(b)
  {
    hide DateOf;
    YearsFollowDays((a + KST_OFFSET_MS) / MS_PER_DAY, (b + KST_OFFSET_MS) / MS_PER_DAY);
  }

  /** Printing then parsing gives the start of the second back, so the same instant exactly for a whole second. */
  lemma FormatThenParse(ms: int)
    requires 100 <= KstYear(ms) <= 9999
    ensures ParseKstTimestamp(FormatKstDate(ms), FormatKstTime(ms)) == Some(ms - ms % 1000)
    ensures ParseKstTimestamp(FormatKstDate(ms), FormatKstTime(ms)) == Some(ms) <==> ms % 1000 == 0
  {
    hide DateOf, CompactDate, CompactTime, DayOf, Value, ParseKstTimestamp, IsTime, MsOfTime, AllDigits, IsCalendarDate, DateFields;
    var wall := ms + KST_OFFSET_MS;
    var day := wall / MS_PER_DAY;
    PrintedDayIsReal(day);
    PrintedTime(wall);
    ShapesOfStamps(CompactDate(day), CompactTime(wall));
    RealTimesParse(CompactDate(day), CompactTime(wall));
    WholeSeconds(wall);
  }

  lemma PrintedDayIsReal(day: int)
    requires 100 <= DateOf(day).year <= 9999
    ensures IsCalendarDate(CompactDate(day)) && DayOf(DateFields(CompactDate(day))) == day
  {
    hide DateOf, CompactDate, DayOf, Value;
    PrintedDate(day);
    DayOfDateOf(day);
  }

  lemma WholeSeconds(wall: int)
    ensures wall / MS_PER_DAY * MS_PER_DAY + wall % MS_PER_DAY == wall
    ensures wall % 1000 == (wall - KST_OFFSET_MS) % 1000
  {
  }

  // ---------------------------------------------------------------------------
  // Order
  // ---------------------------------------------------------------------------

  /** A date read as one decimal number. */
  function DateNumber(date: Date): int {
    date.year * 10_000 + date.month * 100 + date.day
  }

  lemma EarlierDate(a: Date, b: Date)
    requires Real(a) && Real(b)
    requires a.year < b.year || (a.year == b.year && (a.month < b.month || (a.month == b.month && a.day < b.day)))
    ensures DayOf(a) < DayOf(b)
  {
    hide DayOf, DayFromYear;
    DayOfRealDate(a);
    DayOfRealDate(b);
    if a.year < b.year {
      YearsIncrease(a.year + 1, b.year);
    }
  }

  lemma DateOrder(a: Date, b: Date)
    requires Real(a) && Real(b)
    ensures DateNumber(a) < DateNumber(b) <==> DayOf(a) < DayOf(b)
  {
    hide DayOf;
    if DateNumber(a) < DateNumber(b) {
      EarlierDate(a, b);
    } else if DateNumber(b) < DateNumber(a) {
      EarlierDate(b, a);
    } else {
      assert a == b;
    }
  }

  /** Printed dates sort as strings exactly as their days do. */
  lemma PrintedDatesSort(d: int, e: int)
    requires 0 <= DateOf(d).year <= 9999 && 0 <= DateOf(e).year <= 9999
    ensures LexLess(CompactDate(d), CompactDate(e)) <==> d < e
  {
    hide DateOf, CompactDate, DayOf;
    PrintedDate(d);
    PrintedDate(e);
    LexIsNumeric(CompactDate(d), CompactDate(e));
    DateOrder(DateOf(d), DateOf(e));
    DayOfDateOf(d);
    DayOfDateOf(e);
  }

  lemma TimeNumber(time: string)
    requires IsTime(time)
    ensures Value(time) == Value(time[..2]) * 10_000 + Value(time[2..4]) * 100 + Value(time[4..])
  {
    FieldsPrintBack(time, 2);
    assert time[2..2 + 2] == time[2..4] && time[2 + 2..] == time[4..];
    FixedParts(Value(time[..2]), Value(time[2..4]), Value(time[4..]), 2);
  }

  lemma DateStringNumber(date: string)
    requires IsCalendarDate(date)
    ensures Value(date) == DateNumber(DateFields(date))
  {
    hide Value, Fixed, Pow10, Real;
    SmallPowers();
    FieldsPrintBack(date, 4);
    assert date[4..4 + 2] == date[4..6] && date[4 + 2..] == date[6..];
    FixedParts(Value(date[..4]), Value(date[4..6]), Value(date[6..]), 4);
  }

  /** Stamps sort as strings, date first, exactly as their instants do. */
  lemma StampsSort(date: string, time: string, date': string, time': string)
    requires ParseKstTimestamp(date, time).Some? && ParseKstTimestamp(date', time').Some?
    ensures LexLess(date + time, date' + time')
       <==> ParseKstTimestamp(date, time).value < ParseKstTimestamp(date', time').value
  {
    hide DateOf, DayOf, ParseKstTimestamp;
    ParserAcceptsExactlyRealTimes(date, time);
    ParserAcceptsExactlyRealTimes(date', time');
    LexIsNumeric(date + time, date' + time');
    ValueOfConcat(date, time);
    ValueOfConcat(date', time');
    ValueBound(time);
    ValueBound(time');
    DateStringNumber(date);
    DateStringNumber(date');
    DateOrder(DateFields(date), DateFields(date'));
    DateOrder(DateFields(date'), DateFields(date));
    DigitsDecide(Value(date), Value(date'), Pow10(6), Value(time), Value(time'));
    TimesSort(time, time');
    InstantOrder(DayOf(DateFields(date)), MsOfTime(time), DayOf(DateFields(date')), MsOfTime(time'));
  }

  lemma TimesSort(time: string, time': string)
    requires IsTime(time) && IsTime(time')
    ensures Value(time) < Value(time') <==> MsOfTime(time) < MsOfTime(time')
    ensures 0 <= MsOfTime(time) < MS_PER_DAY && 0 <= MsOfTime(time') < MS_PER_DAY
  {
    hide Value;
    TimeNumber(time);
    TimeNumber(time');
    ClockOrder(Value(time[..2]), Value(time[2..4]), Value(time[4..]),
               Value(time'[..2]), Value(time'[2..4]), Value(time'[4..]));
  }

  /** Reading a clock in base 100 or in base 60 gives the same order. */
  lemma ClockOrder(h: nat, m: nat, s: nat, h': nat, m': nat, s': nat)
    requires h <= 23 && m <= 59 && s <= 59 && h' <= 23 && m' <= 59 && s' <= 59
    ensures h * 10_000 + m * 100 + s < h' * 10_000 + m' * 100 + s'
       <==> h * 3_600_000 + m * 60_000 + s * 1000 < h' * 3_600_000 + m' * 60_000 + s' * 1000
  {
    if h == h' {
      if m != m' {
        assert m < m' || m' < m;
      }
    } else {
      assert h < h' || h' < h;
    }
  }

  lemma InstantOrder(d: int, a: int, e: int, b: int)
    requires 0 <= a < MS_PER_DAY && 0 <= b < MS_PER_DAY
    ensures d * MS_PER_DAY + a < e * MS_PER_DAY + b <==> d < e || (d == e && a < b)
  {
  }
}
