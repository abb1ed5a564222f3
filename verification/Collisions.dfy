/** Which stored records already stand for the broker orders that recovery found. */
module Collisions {
  import opened Prelude
  import opened Text
  import opened Calendar
  import opened KstTimestamp
  import opened TradeRecords
  import opened OrderHistory
  import opened OrderMatcher

  /** The columns of a `TradeRecord` that the collision check reads. */
  datatype StoredRow = StoredRow(
    id: RecordId, broker: Broker, market: Market, environment: Option<Environment>, accountHash: Option<string>,
    orderDate: Option<string>, exchangeCode: string, orderNo: Option<string>, createdAt: int)

  datatype Requester = Requester(
    tradeRecordId: RecordId, broker: Broker, market: Market, environment: Environment, accountHash: string)

  datatype Collision = NoCollision | Exact(id: RecordId) | Legacy(id: RecordId)

  /** `rows.find(p)`. */
  function Find(rows: seq<StoredRow>, p: StoredRow -> bool): Option<StoredRow> {
    if rows == [] then None else if p(rows[0]) then Some(rows[0]) else Find(rows[1..], p)
  }

  /** `findMany` with the condition `p`, in the table's order. */
  function Where(rows: seq<StoredRow>, p: StoredRow -> bool): seq<StoredRow> {
    if rows == [] then [] else (if p(rows[0]) then [rows[0]] else []) + Where(rows[1..], p)
  }

  function CandidateExchange(candidate: Candidate): string {
    Upper(Trim(candidate.exchangeCode))
  }

  function CandidateOrderNo(candidate: Candidate): string {
    Trim(candidate.orderNo)
  }

  // ---------------------------------------------------------------------------
  // Days
  // ---------------------------------------------------------------------------

  function ParseKstCalendarDay(date: string): Option<int> {
    if PrintsBack(date) then Some(ReadDay(date) * MS_PER_DAY) else None
  }

  /** `None` is the `NaN` of a day whose printed year has not four digits. */
  function KstCalendarDay(ms: int): Option<int> {
    var day := (ms + KST_OFFSET_MS) / MS_PER_DAY;
    if 0 <= DateOf(day).year <= 9999 then Some(day * MS_PER_DAY) else None
  }

  lemma CandidateDaysParse(date: string)
    requires IsCalendarDate(date)
    ensures |date| == 8 && AllDigits(date)
    ensures ParseKstCalendarDay(date) == Some(ReadDay(date) * MS_PER_DAY)
    ensures 100 <= DateOf(ReadDay(date)).year <= 9999
  {
    hide DateOf, CompactDate, DayOf, ReadDay;
    ShapeOfDate(date);
    KisDateDay(date);
    DatePrintsBack(date);
  }

  function CandidateDays(candidates: seq<Candidate>): seq<int> {
    if candidates == [] then []
    else
      var day := ParseKstCalendarDay(candidates[0].orderDate);
      (if day.Some? then [day.value] else []) + CandidateDays(candidates[1..])
  }

  function Least(days: seq<int>): int
    requires days != []
  {
    if |days| == 1 then days[0] else Min(days[0], Least(days[1..]))
  }

  function Greatest(days: seq<int>): int
    requires days != []
  {
    if |days| == 1 then days[0] else Max(days[0], Greatest(days[1..]))
  }

  /** The `createdAt` range of the second query: from one day before the first candidate to the end of the day after the last. */
  predicate InCreatedRange(createdAt: int, days: seq<int>)
    requires days != []
  {
    Least(days) - MS_PER_DAY - KST_OFFSET_MS <= createdAt < Greatest(days) + 2 * MS_PER_DAY - KST_OFFSET_MS
  }

  // ---------------------------------------------------------------------------
  // The two queries and the annotation
  // ---------------------------------------------------------------------------

  predicate ExactScope(row: StoredRow, request: Requester) {
    && row.id != request.tradeRecordId
    && row.broker == request.broker && row.market == request.market
    && row.environment == Some(request.environment) && row.accountHash == Some(request.accountHash)
  }

  predicate LegacyScope(row: StoredRow, request: Requester) {
    && row.id != request.tradeRecordId
    && row.broker == request.broker && row.market == request.market
    && (row.environment.None? || row.accountHash.None? || row.orderDate.None?)
  }

  predicate HasOrderNumber(row: StoredRow, candidate: Candidate) {
    row.exchangeCode == CandidateExchange(candidate) && row.orderNo == Some(CandidateOrderNo(candidate))
  }

  predicate HasIdentity(row: StoredRow, candidate: Candidate) {
    row.orderDate == Some(candidate.orderDate) && HasOrderNumber(row, candidate)
  }

  function ExactQuery(request: Requester, candidates: seq<Candidate>): StoredRow -> bool {
    (row: StoredRow) => ExactScope(row, request) && exists c :: c in candidates && HasIdentity(row, c)
  }

  function LegacyQuery(request: Requester, candidates: seq<Candidate>, days: seq<int>): StoredRow -> bool
    requires days != []
  {
    (row: StoredRow) =>
      LegacyScope(row, request) && InCreatedRange(row.createdAt, days)
      && exists c :: c in candidates && HasOrderNumber(row, c)
  }

  predicate SameOrder(row: StoredRow, candidate: Candidate) {
    && Upper(Trim(row.exchangeCode)) == CandidateExchange(candidate)
    && row.orderNo.Some? && Trim(row.orderNo.value) == CandidateOrderNo(candidate)
  }

  function IsExact(candidate: Candidate): StoredRow -> bool {
    (row: StoredRow) => row.orderDate == Some(candidate.orderDate) && SameOrder(row, candidate)
  }

  predicate NearInTime(row: StoredRow, candidate: Candidate) {
    var day, created := ParseKstCalendarDay(candidate.orderDate), KstCalendarDay(row.createdAt);
    day.Some? && created.Some? && Abs(created.value - day.value) <= MS_PER_DAY
  }

  function IsLegacy(candidate: Candidate): StoredRow -> bool {
    row => SameOrder(row, candidate) && NearInTime(row, candidate)
  }

  function Annotate(candidate: Candidate, exactRows: seq<StoredRow>, legacyRows: seq<StoredRow>): Collision {
    var exact := Find(exactRows, IsExact(candidate));
    if exact.Some? then Exact(exact.value.id)
    else
      var legacy := Find(legacyRows, IsLegacy(candidate));
      if legacy.Some? then Legacy(legacy.value.id) else NoCollision
  }

  /** `None` when no candidate has a date to bound the second query with. */
  function AnnotateCandidateCollisions(rows: seq<StoredRow>, request: Requester, candidates: seq<Candidate>): Option<seq<Collision>> {
    if candidates == [] then Some([])
    else
      var days := CandidateDays(candidates);
      if days == [] then None
      else
        var exactRows := Where(rows, ExactQuery(request, candidates));
        var legacyRows := Where(rows, LegacyQuery(request, candidates, days));
        Some(seq(|candidates|, i requires 0 <= i < |candidates| => Annotate(candidates[i], exactRows, legacyRows)))
  }

  // ---------------------------------------------------------------------------
  // The reference: every row of the table against every candidate
  // ---------------------------------------------------------------------------

  /** A stored record holds the candidate's order: same account and market, same day, exchange and number. */
  predicate ExactFor(row: StoredRow, request: Requester, candidate: Candidate) {
    && row.id != request.tradeRecordId
    && row.broker == request.broker && row.market == request.market
    && row.environment.Some? && row.environment.value == request.environment
    && row.accountHash.Some? && row.accountHash.value == request.accountHash
    && row.orderDate.Some? && row.orderDate.value == candidate.orderDate
    && Upper(Trim(row.exchangeCode)) == Upper(Trim(candidate.exchangeCode))
    && row.orderNo.Some? && Trim(row.orderNo.value) == Trim(candidate.orderNo)
  }

  /** An old record may hold it: part of its identity is missing, and it was created within a day of the order. */
  predicate LegacyFor(row: StoredRow, request: Requester, candidate: Candidate) {
    && row.id != request.tradeRecordId
    && row.broker == request.broker && row.market == request.market
    && !(row.environment.Some? && row.accountHash.Some? && row.orderDate.Some?)
    && Upper(Trim(row.exchangeCode)) == Upper(Trim(candidate.exchangeCode))
    && row.orderNo.Some? && Trim(row.orderNo.value) == Trim(candidate.orderNo)
    && IsCalendarDate(candidate.orderDate) && KstYear(row.createdAt) <= 9999
    && -1 <= (row.createdAt + 32_400_000) / 86_400_000 - DayOf(DateFields(candidate.orderDate)) <= 1
  }

  ghost predicate FirstSuch(rows: seq<StoredRow>, i: int, p: StoredRow -> bool) {
    0 <= i < |rows| && p(rows[i]) && forall j :: 0 <= j < i ==> !p(rows[j])
  }

  /** Exact collisions win; the first row in table order is named. */
  ghost predicate IsScanned(collision: Collision, rows: seq<StoredRow>, request: Requester, candidate: Candidate) {
    match collision
    case Exact(id) => exists i :: FirstSuch(rows, i, row => ExactFor(row, request, candidate)) && rows[i].id == id
    case Legacy(id) =>
      && (forall row :: row in rows ==> !ExactFor(row, request, candidate))
      && exists i :: FirstSuch(rows, i, row => LegacyFor(row, request, candidate)) && rows[i].id == id
    case NoCollision =>
      forall row :: row in rows ==> !ExactFor(row, request, candidate) && !LegacyFor(row, request, candidate)
  }

  /** Rows as the services store them. */
  predicate IsNormalised(row: StoredRow) {
    && Upper(Trim(row.exchangeCode)) == row.exchangeCode
    && (row.orderNo.Some? ==> Trim(row.orderNo.value) == row.orderNo.value)
  }

  lemma {:induction false} FindAmongWhere(rows: seq<StoredRow>, p: StoredRow -> bool, q: StoredRow -> bool, both: StoredRow -> bool)
    requires forall row :: row in rows ==> (both(row) <==> p(row) && q(row))
    ensures Find(Where(rows, p), q) == Find(rows, both)
  {
    if rows != [] {
      FindAmongWhere(rows[1..], p, q, both);
      var rest := Where(rows[1..], p);
      assert rows[0] in rows;
      if p(rows[0]) {
        assert ([rows[0]] + rest)[1..] == rest;
      } else {
        assert Where(rows, p) == rest;
      }
    }
  }

  lemma {:induction false} FindFindsTheFirst(rows: seq<StoredRow>, p: StoredRow -> bool)
    ensures Find(rows, p).None? <==> forall row :: row in rows ==> !p(row)
    ensures Find(rows, p).Some? ==> exists i :: FirstSuch(rows, i, p) && rows[i] == Find(rows, p).value
  {
    if rows != [] {
      FindFindsTheFirst(rows[1..], p);
      if p(rows[0]) {
        assert FirstSuch(rows, 0, p);
      } else if Find(rows[1..], p).Some? {
        var i :| FirstSuch(rows[1..], i, p) && rows[1..][i] == Find(rows, p).value;
        assert FirstSuch(rows, i + 1, p);
      }
    }
  }

  lemma {:induction false} DaysOfCandidates(candidates: seq<Candidate>, i: nat)
    requires forall c :: c in candidates ==> IsCalendarDate(c.orderDate)
    requires i < |candidates|
    ensures CandidateDays(candidates) != []
    ensures ParseKstCalendarDay(candidates[i].orderDate).Some?
    ensures Least(CandidateDays(candidates)) <= ParseKstCalendarDay(candidates[i].orderDate).value
                                             <= Greatest(CandidateDays(candidates))
  {
    hide IsCalendarDate, ParseKstCalendarDay;
    var rest := candidates[1..];
    var days := CandidateDays(candidates);
    assert candidates[0] in candidates;
    CandidateDaysParse(candidates[0].orderDate);
    assert days[1..] == CandidateDays(rest);
    if rest != [] {
      DaysOfCandidates(rest, if i == 0 then 0 else i - 1);
    }
  }

  /** A row within one calendar day of some candidate is inside the queried range. */
  lemma NearIsInRange(createdAt: int, day: int, days: seq<int>)
    requires days != [] && Least(days) <= day <= Greatest(days)
    requires KstCalendarDay(createdAt).Some? && Abs(KstCalendarDay(createdAt).value - day) <= MS_PER_DAY
    ensures InCreatedRange(createdAt, days)
  {
    hide DateOf, Least, Greatest;
    var wall := createdAt + KST_OFFSET_MS;
    assert wall == wall / MS_PER_DAY * MS_PER_DAY + wall % MS_PER_DAY;
  }

  /**
   The two narrow queries lose nothing: on normalised rows and candidates with real dates, as the
   matcher produces them, every annotation is the one a scan of the whole table would give.
   */
  lemma PrefilterLosesNothing(rows: seq<StoredRow>, request: Requester, candidates: seq<Candidate>)
    requires forall row :: row in rows ==> IsNormalised(row)
    requires forall c :: c in candidates ==> IsCalendarDate(c.orderDate)
    ensures AnnotateCandidateCollisions(rows, request, candidates).Some?
    ensures var found := AnnotateCandidateCollisions(rows, request, candidates).value;
            && |found| == |candidates|
            && forall i :: 0 <= i < |candidates| ==> IsScanned(found[i], rows, request, candidates[i])
  {
    hide IsCalendarDate, IsScanned, Annotate, Where, ExactQuery, LegacyQuery, ParseKstCalendarDay, IsNormalised;
    if candidates != [] {
      DaysOfCandidates(candidates, 0);
      var days := CandidateDays(candidates);
      forall i | 0 <= i < |candidates|
        ensures IsScanned(Annotate(candidates[i], Where(rows, ExactQuery(request, candidates)),
                                   Where(rows, LegacyQuery(request, candidates, days))),
                          rows, request, candidates[i])
      {
        OneCandidate(rows, request, candidates, i);
      }
    }
  }

  /** Being near in time is being created on the candidate's day or a neighbouring one, up to the year 9999. */
  lemma NearIsWithinADay(row: StoredRow, candidate: Candidate)
    requires IsCalendarDate(candidate.orderDate)
    ensures NearInTime(row, candidate)
       <==> && KstYear(row.createdAt) <= 9999
            && -1 <= (row.createdAt + 32_400_000) / 86_400_000 - DayOf(DateFields(candidate.orderDate)) <= 1
  {
    hide DateOf, DayOf, DateFields, IsCalendarDate, ParseKstCalendarDay, KstCalendarDay, ReadDay, KstYear;
    CandidateDaysParse(candidate.orderDate);
    ReadDayIsDayOf(candidate.orderDate);
    var day, created := ReadDay(candidate.orderDate), (row.createdAt + KST_OFFSET_MS) / MS_PER_DAY;
    WholeDaysApart(created, day);
    DayOfCreation(row.createdAt, created);
    if -1 <= created - day {
      YearsNearby(row.createdAt, day);
    }
  }

  lemma ReadDayIsDayOf(date: string)
    requires IsCalendarDate(date)
    ensures |date| == 8 && AllDigits(date) && ReadDay(date) == DayOf(DateFields(date))
  {
    hide DateOf, DayOf, ReadDay, FormatDate;
    KisDateDay(date);
  }

  lemma DayOfCreation(createdAt: int, day: int)
    requires day == (createdAt + KST_OFFSET_MS) / MS_PER_DAY
    ensures KstCalendarDay(createdAt) == if 0 <= KstYear(createdAt) <= 9999 then Some(day * MS_PER_DAY) else None
  {
    hide DateOf;
  }

  lemma YearsNearby(createdAt: int, day: int)
    requires day - 1 <= (createdAt + KST_OFFSET_MS) / MS_PER_DAY
    ensures DateOf(day).year - 1 <= KstYear(createdAt)
  {
    hide DateOf;
    YearBefore(day - 1);
    YearsFollowDays(day - 1, (createdAt + KST_OFFSET_MS) / MS_PER_DAY);
  }

  lemma WholeDaysApart(a: int, b: int)
    ensures Abs(a * MS_PER_DAY - b * MS_PER_DAY) <= MS_PER_DAY <==> -1 <= a - b <= 1
  {
  }

  lemma ExactRowsAreQueried(row: StoredRow, request: Requester, candidates: seq<Candidate>, i: nat)
    requires IsNormalised(row) && i < |candidates|
    ensures ExactFor(row, request, candidates[i])
       <==> ExactQuery(request, candidates)(row) && IsExact(candidates[i])(row)
  {
    hide Trim, Upper;
    if ExactFor(row, request, candidates[i]) {
      assert candidates[i] in candidates;
    }
  }

  lemma LegacyRowsAreQueried(row: StoredRow, request: Requester, candidates: seq<Candidate>, i: nat)
    requires IsNormalised(row) && i < |candidates|
    requires forall c :: c in candidates ==> IsCalendarDate(c.orderDate)
    ensures CandidateDays(candidates) != []
    ensures LegacyFor(row, request, candidates[i])
       <==> LegacyQuery(request, candidates, CandidateDays(candidates))(row) && IsLegacy(candidates[i])(row)
  {
    hide Trim, Upper, IsCalendarDate, InCreatedRange, KstCalendarDay, ParseKstCalendarDay, CandidateDays, Least, Greatest,
      DateFields, DayOf, KstYear;
    DaysOfCandidates(candidates, i);
    assert candidates[i] in candidates;
    NearIsWithinADay(row, candidates[i]);
    if LegacyFor(row, request, candidates[i]) {
      NearIsInRange(row.createdAt, ParseKstCalendarDay(candidates[i].orderDate).value, CandidateDays(candidates));
    }
  }

  lemma OneCandidate(rows: seq<StoredRow>, request: Requester, candidates: seq<Candidate>, i: nat)
    requires forall row :: row in rows ==> IsNormalised(row)
    requires forall c :: c in candidates ==> IsCalendarDate(c.orderDate)
    requires i < |candidates|
    ensures CandidateDays(candidates) != []
    ensures IsScanned(Annotate(candidates[i], Where(rows, ExactQuery(request, candidates)),
                               Where(rows, LegacyQuery(request, candidates, CandidateDays(candidates)))),
                      rows, request, candidates[i])
  {
    hide IsCalendarDate, IsNormalised, Where, Find, ExactQuery, LegacyQuery, IsExact, IsLegacy, CandidateDays,
      ExactFor, LegacyFor, FirstSuch, ParseKstCalendarDay, Least, Greatest;
    DaysOfCandidates(candidates, i);
    var candidate, days := candidates[i], CandidateDays(candidates);
    forall row | row in rows
      ensures ExactFor(row, request, candidate) <==> ExactQuery(request, candidates)(row) && IsExact(candidate)(row)
      ensures LegacyFor(row, request, candidate) <==> LegacyQuery(request, candidates, days)(row) && IsLegacy(candidate)(row)
    {
      ExactRowsAreQueried(row, request, candidates, i);
      LegacyRowsAreQueried(row, request, candidates, i);
    }
    FirstOfQuery(rows, ExactQuery(request, candidates), IsExact(candidate), row => ExactFor(row, request, candidate));
    FirstOfQuery(rows, LegacyQuery(request, candidates, days), IsLegacy(candidate),
                 row => LegacyFor(row, request, candidate));
  }

  /** Searching the answer of a query is searching the table for rows that pass both tests. */
  lemma FirstOfQuery(rows: seq<StoredRow>, p: StoredRow -> bool, q: StoredRow -> bool, both: StoredRow -> bool)
    requires forall row :: row in rows ==> (both(row) <==> p(row) && q(row))
    ensures Find(Where(rows, p), q).None? <==> forall row :: row in rows ==> !both(row)
    ensures Find(Where(rows, p), q).Some? ==>
              exists i :: FirstSuch(rows, i, both) && rows[i] == Find(Where(rows, p), q).value
  {
    hide Find, Where, FirstSuch;
    FindAmongWhere(rows, p, q, both);
    FindFindsTheFirst(rows, both);
  }

  /** With a single candidate the queried range is exactly the one-calendar-day test, up to the year 9999. */
  lemma SingleCandidateRangeIsExact(row: StoredRow, candidate: Candidate)
    requires IsCalendarDate(candidate.orderDate)
    ensures CandidateDays([candidate]) != []
    ensures NearInTime(row, candidate)
       <==> InCreatedRange(row.createdAt, CandidateDays([candidate])) && KstYear(row.createdAt) <= 9999
  {
    hide DateOf, IsCalendarDate, ParseKstCalendarDay;
    CandidateDaysParse(candidate.orderDate);
    var day := ParseKstCalendarDay(candidate.orderDate).value;
    assert CandidateDays([candidate]) == [day] by { assert [candidate][1..] == []; }
    var wall := row.createdAt + KST_OFFSET_MS;
    var created := wall / MS_PER_DAY;
    assert wall == created * MS_PER_DAY + wall % MS_PER_DAY;
    DayBounds(wall, ReadDay(candidate.orderDate));
    if InCreatedRange(row.createdAt, [day]) {
      YearBefore(ReadDay(candidate.orderDate) - 1);
      YearsFollowDays(ReadDay(candidate.orderDate) - 1, created);
    }
  }

  lemma DayBounds(wall: int, day: int)
    ensures (day - 1) * MS_PER_DAY <= wall < (day + 2) * MS_PER_DAY <==> -1 <= wall / MS_PER_DAY - day <= 1
  {
  }

  lemma YearBefore(day: int)
    ensures DateOf(day).year >= DateOf(day + 1).year - 1
  {
    hide DayFromYear, MonthOf;
    var y := DateOf(day + 1).year;
    YearsIncrease(y - 1, y);
    if DateOf(day).year < y - 1 {
      YearsIncrease(DateOf(day).year + 1, y - 1);
    }
  }

  // ---------------------------------------------------------------------------
  // Linking
  // ---------------------------------------------------------------------------

  /** The operator's choice: `linkCandidate` takes it only if it is listed and collides with nothing. */
  predicate MayLink(rows: seq<StoredRow>, request: Requester, candidates: seq<Candidate>, i: nat)
    requires i < |candidates|
  {
    var found := AnnotateCandidateCollisions(rows, request, candidates);
    found.Some? && i < |found.value| && found.value[i] == NoCollision
  }

  /** A linked order belongs to no other record of the account, and to no old record that may be it. */
  lemma LinkedOrderIsFree(rows: seq<StoredRow>, request: Requester, candidates: seq<Candidate>, i: nat)
    requires forall row :: row in rows ==> IsNormalised(row)
    requires forall c :: c in candidates ==> IsCalendarDate(c.orderDate)
    requires i < |candidates|
    ensures MayLink(rows, request, candidates, i)
       <==> forall row :: row in rows ==>
              !ExactFor(row, request, candidates[i]) && !LegacyFor(row, request, candidates[i])
  {
    hide AnnotateCandidateCollisions, ExactFor, LegacyFor, IsNormalised, IsCalendarDate;
    PrefilterLosesNothing(rows, request, candidates);
    var found := AnnotateCandidateCollisions(rows, request, candidates).value[i];
    assert IsScanned(found, rows, request, candidates[i]);
    if found.Exact? {
      var at :| FirstSuch(rows, at, row => ExactFor(row, request, candidates[i])) && rows[at].id == found.id;
      assert rows[at] in rows;
    } else if found.Legacy? {
      var at :| FirstSuch(rows, at, row => LegacyFor(row, request, candidates[i])) && rows[at].id == found.id;
      assert rows[at] in rows;
    }
  }
}
