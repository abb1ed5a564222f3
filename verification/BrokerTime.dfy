/** When the broker says it took an order: a six-digit time of day or a fourteen-digit stamp. */
module BrokerTime {
  import opened Prelude
  import opened Text
  import opened Calendar
  import opened KstTimestamp

  const MAX_BROKER_TIME_SKEW_MS: int := 10 * 60 * 1000

  datatype BrokerStamp = BrokerStamp(date: string, time: string, instant: int)

  /** The Korean calendar day of an instant. */
  function KstDay(ms: int): int {
    (ms + KST_OFFSET_MS) / MS_PER_DAY
  }

  // ---------------------------------------------------------------------------
  // Six digits: the day is guessed
  // ---------------------------------------------------------------------------

  /** The instant at `time` on the `offset`-th Korean day after the one of `call`. */
  function InstantOn(call: int, offset: int, time: string): int
    requires AllDigits(time) && |time| == 6
  {
    (KstDay(call) + offset) * MS_PER_DAY + MsOfTime(time) - KST_OFFSET_MS
  }

  /** The day `Date.UTC` makes of the call's Korean date, shifted by `offset` days. */
  function CandidateDay(call: int, offset: int): int {
    var date := DateOf(KstDay(call));
    UtcDay(date.year, date.month - 1, date.day + offset)
  }

  function Candidate(call: int, offset: int, time: string): BrokerStamp
    requires AllDigits(time) && |time| == 6
  {
    var day := CandidateDay(call, offset);
    BrokerStamp(FormatDate(day), time, day * MS_PER_DAY + MsOfTime(time) - KST_OFFSET_MS)
  }

  function Distance(stamp: BrokerStamp, call: int): nat {
    Abs(stamp.instant - call)
  }

  function Nearer(nearest: BrokerStamp, candidate: BrokerStamp, call: int): BrokerStamp {
    if Distance(candidate, call) < Distance(nearest, call) then candidate else nearest
  }

  function ResolveSixDigits(time: string, call: int): Option<BrokerStamp> {
    if !IsTime(time) then None
    else
      Some(Nearer(Nearer(Candidate(call, -1, time), Candidate(call, 0, time), call), Candidate(call, 1, time), call))
  }

  /** The years `Date.UTC` moves to the twentieth century. */
  predicate TwoDigitYear(call: int) {
    0 <= KstYear(call) <= 99
  }

  lemma CandidateDays(call: int, offset: int)
    ensures !TwoDigitYear(call) ==> CandidateDay(call, offset) == KstDay(call) + offset
    ensures TwoDigitYear(call) ==> CandidateDay(call, offset) >= KstDay(call) + offset + 365 * 1800
  {
    hide DateOf, DayFromYear, DaysBefore, Leap;
    var date := DateOf(KstDay(call));
    DayOfDateOf(KstDay(call));
    assert (date.month - 1) / 12 == 0 && (date.month - 1) % 12 == date.month - 1;
    if TwoDigitYear(call) {
      YearsApart(date.year, 1900 + date.year);
      LeapMatters(Leap(date.year), Leap(1900 + date.year), date.month - 1);
    }
  }

  lemma LeapMatters(a: bool, b: bool, m: int)
    requires 0 <= m < 12
    ensures DaysBefore(b, m) >= DaysBefore(a, m) - 1
  {
  }

  lemma {:induction false} YearsApart(x: int, y: int)
    requires x <= y
    ensures DayFromYear(y) >= DayFromYear(x) + 365 * (y - x)
    decreases y - x
  {
    if x < y {
      YearsApart(x, y - 1);
      YearLength(y - 1);
    }
  }

  ghost predicate IsNearest(stamp: BrokerStamp, call: int) {
    AllDigits(stamp.time) && |stamp.time| == 6 &&
    forall offset: int :: Distance(stamp, call) <= Abs(InstantOn(call, offset, stamp.time) - call)
  }

  lemma FarDaysAreFar(call: int, time: string, offset: int)
    requires IsTime(time)
    ensures offset <= -1 ==> InstantOn(call, offset, time) <= InstantOn(call, -1, time) <= call
    ensures offset >= 1 ==> call <= InstantOn(call, 1, time) <= InstantOn(call, offset, time)
    ensures -MS_PER_DAY < InstantOn(call, 0, time) - call < MS_PER_DAY
  {
    TimeInDay(time);
    assert call + KST_OFFSET_MS == KstDay(call) * MS_PER_DAY + (call + KST_OFFSET_MS) % MS_PER_DAY;
  }

  /**
   Looking at the days before, of and after the call is enough: the chosen instant is nearest over
   every Korean day and within twelve hours, unless the call falls in the years 0000 to 0099.
   */
  lemma SixDigitsPickTheNearestDay(time: string, call: int)
    requires IsTime(time)
    ensures ResolveSixDigits(time, call).Some?
    ensures IsNearest(ResolveSixDigits(time, call).value, call) <==> !TwoDigitYear(call)
    ensures !TwoDigitYear(call) ==> 2 * Distance(ResolveSixDigits(time, call).value, call) <= MS_PER_DAY
    ensures TwoDigitYear(call) ==> Distance(ResolveSixDigits(time, call).value, call) > MS_PER_DAY
  {
    hide IsTime, CandidateDay, TwoDigitYear, MsOfTime, FormatDate, KstDay;
    CandidateDays(call, -1);
    CandidateDays(call, 0);
    CandidateDays(call, 1);
    var chosen := ResolveSixDigits(time, call).value;
    assert |time| == 6 && AllDigits(time) by { TimeShape(time); }
    forall offset: int
      ensures !TwoDigitYear(call) ==> Distance(chosen, call) <= Abs(InstantOn(call, offset, time) - call)
    {
      FarDaysAreFar(call, time, offset);
      FarDaysAreFar(call, time, 0);
    }
    FarDaysAreFar(call, time, 0);
    FarDaysAreFar(call, time, -1);
    FarDaysAreFar(call, time, 1);
    assert TwoDigitYear(call) ==> Distance(chosen, call) > Abs(InstantOn(call, 0, time) - call);
  }

  lemma TimeShape(time: string)
    requires IsTime(time)
    ensures |time| == 6 && AllDigits(time)
  {
  }

  // ---------------------------------------------------------------------------
  // Fourteen digits: the day is stated
  // ---------------------------------------------------------------------------

  function ResolveFourteenDigits(stamp: string): Option<BrokerStamp> {
    if |stamp| != 14 || !AllDigits(stamp) then None
    else
      var fields := DateFields(stamp[..8]);
      if fields.year < 2000 || !(1 <= fields.month <= 12) || fields.day < 1 || !IsTime(stamp[8..]) then None
      else
        var day := UtcDay(fields.year, fields.month - 1, fields.day);
        if DateOf(day) != fields then None
        else Some(BrokerStamp(stamp[..8], stamp[8..], day * MS_PER_DAY + MsOfTime(stamp[8..]) - KST_OFFSET_MS))
  }

  lemma FourteenDigitsAreReal(stamp: string)
    ensures ResolveFourteenDigits(stamp).Some?
       <==> |stamp| == 14 && IsCalendarDate(stamp[..8]) && DateFields(stamp[..8]).year >= 2000 && IsTime(stamp[8..])
    ensures ResolveFourteenDigits(stamp).Some? ==>
              var read := ResolveFourteenDigits(stamp).value;
              && read.date == stamp[..8] && read.time == stamp[8..]
              && ParseKstTimestamp(read.date, read.time) == Some(read.instant)
  {
    hide DateOf, MakeDay, ParseKstTimestamp, Value, MsOfTime;
    if |stamp| == 14 && AllDigits(stamp[..8]) && IsTime(stamp[8..]) {
      assert stamp == stamp[..8] + stamp[8..];
      var fields := DateFields(stamp[..8]);
      if Real(fields) && fields.year >= 2000 {
        DateOfDayOf(fields);
        RealTimesParse(stamp[..8], stamp[8..]);
      }
    }
  }

  // ---------------------------------------------------------------------------
  // Either
  // ---------------------------------------------------------------------------

  function ResolveAny(stamp: string, call: int): Option<BrokerStamp> {
    if |stamp| == 6 then ResolveSixDigits(stamp, call)
    else if |stamp| == 14 then ResolveFourteenDigits(stamp)
    else None
  }

  /** `raw` is `None` for a value that is not a string. */
  function ResolveBrokerTimestamp(raw: Option<string>, call: int): Option<BrokerStamp> {
    if raw.None? then None
    else
      var resolved := ResolveAny(Trim(raw.value), call);
      if resolved.None? || Distance(resolved.value, call) > MAX_BROKER_TIME_SKEW_MS then None else resolved
  }

  /**
   Any other stamp is accepted exactly when it is a date and time in fourteen digits, from the year 2000
   on, and the matcher's parser reads an instant from it within ten minutes of the call.
   */
  lemma OtherStampsAcceptedExactly(raw: string, call: int)
    requires |Trim(raw)| != 6
    ensures ResolveBrokerTimestamp(Some(raw), call).Some?
       <==> && |Trim(raw)| == 14 && IsCalendarDate(Trim(raw)[..8]) && DateFields(Trim(raw)[..8]).year >= 2000
            && (var read := ParseKstTimestamp(Trim(raw)[..8], Trim(raw)[8..]);
                read.Some? && -600_000 <= read.value - call <= 600_000)
    ensures ResolveBrokerTimestamp(Some(raw), call).Some? ==>
              && |Trim(raw)| == 14
              && ResolveBrokerTimestamp(Some(raw), call).value.date == Trim(raw)[..8]
              && ResolveBrokerTimestamp(Some(raw), call).value.time == Trim(raw)[8..]
    ensures ResolveBrokerTimestamp(None, call).None?
  {
    hide Trim, ParseKstTimestamp, ResolveFourteenDigits, ResolveSixDigits, IsCalendarDate, IsTime, DateFields;
    var stamp := Trim(raw);
    FourteenDigitsAreReal(stamp);
    if |stamp| == 14 {
      ParserAcceptsExactlyRealTimes(stamp[..8], stamp[8..]);
    }
  }

  /** Some Korean day puts `time` within ten minutes of the call. */
  ghost predicate CloseOnSomeDay(time: string, call: int)
    requires AllDigits(time) && |time| == 6
  {
    exists offset: int :: Abs(InstantOn(call, offset, time) - call) <= MAX_BROKER_TIME_SKEW_MS
  }

  lemma CloseDayIsUnique(time: string, call: int, i: int, j: int)
    requires AllDigits(time) && |time| == 6
    requires Abs(InstantOn(call, i, time) - call) <= MAX_BROKER_TIME_SKEW_MS
    requires Abs(InstantOn(call, j, time) - call) <= MAX_BROKER_TIME_SKEW_MS
    ensures i == j
  {
    hide MsOfTime;
    assert InstantOn(call, i, time) - InstantOn(call, j, time) == (i - j) * MS_PER_DAY;
  }

  /**
   A six-digit time is accepted exactly when some Korean day, which is then the only one, puts it
   within ten minutes of the call, and resolves to that day; calls in the years 0000 to 0099 are
   never accepted.
   */
  lemma SixDigitsAcceptedExactly(raw: string, call: int)
    requires |Trim(raw)| == 6
    ensures ResolveBrokerTimestamp(Some(raw), call).Some?
       <==> IsTime(Trim(raw)) && CloseOnSomeDay(Trim(raw), call) && !TwoDigitYear(call)
    ensures forall offset: int ::
              ResolveBrokerTimestamp(Some(raw), call).Some?
              && Abs(InstantOn(call, offset, Trim(raw)) - call) <= MAX_BROKER_TIME_SKEW_MS ==>
                ResolveBrokerTimestamp(Some(raw), call).value
                  == BrokerStamp(FormatDate(KstDay(call) + offset), Trim(raw), InstantOn(call, offset, Trim(raw)))
  {
    hide IsTime, TwoDigitYear, IsNearest, Trim, InstantOn, ResolveSixDigits, KstDay, MsOfTime, FormatDate;
    var time := Trim(raw);
    if IsTime(time) {
      TimeShape(time);
      SixDigitsPickTheNearestDay(time, call);
      var chosen := ResolveSixDigits(time, call).value;
      if !TwoDigitYear(call) {
        var day := ChosenDay(time, call);
        NearestIsNearest(chosen, time, call);
        forall offset: int | Abs(InstantOn(call, offset, time) - call) <= MAX_BROKER_TIME_SKEW_MS
          ensures chosen.instant == InstantOn(call, offset, time)
          ensures chosen == BrokerStamp(FormatDate(KstDay(call) + offset), time, InstantOn(call, offset, time))
        {
          CloseDayIsUnique(time, call, day, offset);
        }
      }
    } else {
      assert ResolveSixDigits(time, call).None? by { NotATime(time, call); }
    }
  }

  lemma NotATime(time: string, call: int)
    requires !IsTime(time)
    ensures ResolveSixDigits(time, call).None?
  {
  }

  lemma NearestIsNearest(stamp: BrokerStamp, time: string, call: int)
    requires IsNearest(stamp, call) && stamp.time == time
    ensures |time| == 6 && AllDigits(time)
    ensures forall offset: int :: Distance(stamp, call) <= Abs(InstantOn(call, offset, time) - call)
  {
  }

  /** The chosen stamp is the one of some day. */
  lemma ChosenDay(time: string, call: int) returns (offset: int)
    requires IsTime(time) && !TwoDigitYear(call)
    ensures ResolveSixDigits(time, call)
         == Some(BrokerStamp(FormatDate(KstDay(call) + offset), time, InstantOn(call, offset, time)))
  {
    hide IsTime, CandidateDay, TwoDigitYear, MsOfTime, FormatDate, KstDay;
    TimeShape(time);
    CandidateDays(call, -1);
    CandidateDays(call, 0);
    CandidateDays(call, 1);
    var chosen := ResolveSixDigits(time, call).value;
    offset := if chosen == Candidate(call, -1, time) then -1 else if chosen == Candidate(call, 0, time) then 0 else 1;
  }

  /** Reading the resolved date and time as one fourteen-digit stamp gives the same instant. */
  lemma SixDigitsReadAsFourteen(time: string, call: int)
    requires IsTime(time) && !TwoDigitYear(call)
    requires var stamp := ResolveSixDigits(time, call).value; 2000 <= KstYear(stamp.instant) <= 9999
    ensures var stamp := ResolveSixDigits(time, call).value;
            ResolveFourteenDigits(stamp.date + stamp.time) == Some(stamp)
  {
    hide IsTime, ResolveSixDigits, FormatDate, ResolveFourteenDigits, ParseKstTimestamp, CompactDate, DateOf, MsOfTime, TwoDigitYear;
    var offset := ChosenDay(time, call);
    var day := KstDay(call) + offset;
    var stamp := ResolveSixDigits(time, call).value;
    TimeShape(time);
    TimeInDay(time);
    DayAndRest(day, MsOfTime(time));
    StampOfDay(day, time);
    FourteenDigitsAreReal(stamp.date + stamp.time);
    assert (stamp.date + stamp.time)[..8] == stamp.date && (stamp.date + stamp.time)[8..] == stamp.time;
  }

  /** The stamp of a day the calendar can print parses to that day. */
  lemma StampOfDay(day: int, time: string)
    requires IsTime(time) && 100 <= DateOf(day).year <= 9999
    ensures |FormatDate(day)| == 8 && IsCalendarDate(FormatDate(day)) && DateFields(FormatDate(day)) == DateOf(day)
    ensures ParseKstTimestamp(FormatDate(day), time) == Some(day * MS_PER_DAY + MsOfTime(time) - KST_OFFSET_MS)
  {
    hide IsTime, FormatDate, ParseKstTimestamp, CompactDate, DateOf, DayOf, MsOfTime, Value;
    FormatDateIsCompact(day);
    PrintedDate(day);
    DayOfDateOf(day);
    RealTimesParse(FormatDate(day), time);
  }

  /**
   Whatever form the broker used, an accepted stamp is one the order matcher parses back to the same
   instant, within ten minutes of the call: an order found this way is found again by recovery.
   */
  lemma AcceptedStampParses(raw: Option<string>, call: int)
    requires ResolveBrokerTimestamp(raw, call).Some?
    requires 100 <= KstYear(ResolveBrokerTimestamp(raw, call).value.instant) <= 9999
    ensures var stamp := ResolveBrokerTimestamp(raw, call).value;
            && ParseKstTimestamp(stamp.date, stamp.time) == Some(stamp.instant)
            && Abs(stamp.instant - call) <= MAX_BROKER_TIME_SKEW_MS
            && IsCalendarDate(stamp.date) && IsTime(stamp.time)
  {
    hide IsTime, ResolveSixDigits, ResolveFourteenDigits, FormatDate, ParseKstTimestamp, DateOf, MsOfTime, Trim,
      TwoDigitYear, IsCalendarDate;
    var text := Trim(raw.value);
    var stamp := ResolveBrokerTimestamp(raw, call).value;
    if |text| == 6 {
      SixDigitsAcceptedExactly(raw.value, call);
      var offset := ChosenDay(text, call);
      TimeShape(text);
      TimeInDay(text);
      DayAndRest(KstDay(call) + offset, MsOfTime(text));
      StampOfDay(KstDay(call) + offset, text);
    } else {
      FourteenDigitsAreReal(text);
    }
  }
}
