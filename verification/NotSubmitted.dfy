/**
 The operator's "it was never submitted": the record is closed as failed after a complete read of the
 broker's history found no order it could be.
 */
module NotSubmitted {
  import opened Prelude
  import opened Text
  import opened Calendar
  import opened KstTimestamp
  import opened Identity
  import opened Pagination
  import opened OrderHistory
  import opened OrderMatcher
  import opened TradeRecords
  import opened TradeRecordTable
  import opened OrderProtocol
  import opened OrderSafety
  import opened OrderTheorems

  /** The broker could be asked, answered completely, and no order it listed matches. */
  ghost predicate NoOrderFound(request: MatchRequest, current: Context, endpoint: Endpoint) {
    && IsAccountOf(request, current) && request.submittedAt.Some?
    && WindowOrders(request, endpoint).Some?
    && forall order :: order in WindowOrders(request, endpoint).value ==> !Matches(order, request)
  }

  /**
   `loaded` is the row the request read first, `later` the broker context after the history was read,
   and the table is the one the final transaction finds. The record is closed exactly when nothing
   matched and the guard still holds; otherwise nothing is written.
   */
  method ConfirmNotSubmitted(
    table: Table, id: RecordId, loaded: Row, instrument: Instrument, current: Context, later: Context, endpoint: Endpoint)
    returns (confirmed: bool)
    modifies table
    ensures confirmed
       <==> && loaded.status == SubmissionUnknown
            && NoOrderFound(MatchRequest(instrument.market, instrument.exchangeCode, instrument.stockCode, instrument.side,
                                         loaded.quantity, loaded.submissionStartedAt, loaded.environment, loaded.accountHash),
                            current, endpoint)
            && loaded.environment == Some(later.environment) && loaded.accountHash == Some(later.accountHash)
            && id in old(table.rows) && ResolveSubmissionAsFailed(id, old(table.rows)[id], loaded, true).Commit?
    ensures table.View() == if confirmed then
                              old(table.View()).UpdateMany(id, row => ResolveSubmissionAsFailed(id, row, loaded, true))
                            else old(table.View())
  {
    hide WindowOrders, Matches, IsAccountOf, FirstOccurrences, Normalized;
    if loaded.status != SubmissionUnknown { return false; }
    var request := ToMatchRequest(instrument, loaded);
    var candidates := FindSubmissionCandidates(request, current, endpoint);
    if candidates.Err? { return false; }
    if loaded.environment != Some(later.environment) || loaded.accountHash != Some(later.accountHash) { return false; }
    EmptyExactlyWhenNothingMatches(WindowOrders(request, endpoint).value, request);
    if |candidates.value| > 0 { return false; }
    if id !in table.rows { return false; }
    var count := table.Apply(id, ResolveSubmissionAsFailed(id, table.rows[id], loaded, true));
    confirmed := count == 1;
  }

  // ---------------------------------------------------------------------------
  // Soundness
  // ---------------------------------------------------------------------------

  /** A row of the broker's history holds an order of the request: column by column, within ten minutes of the submission. */
  ghost predicate HoldsOrderOf(row: HistoryRow, request: MatchRequest) {
    && IsValidOrder(request.market, row) && request.submittedAt.Some?
    && (var stamp := ParseKstTimestamp(NonemptyString(row.date), NonemptyString(row.time));
        stamp.Some? && -600_000 <= stamp.value - request.submittedAt.value <= 600_000)
    && (request.market == Overseas ==> Upper(NonemptyString(row.exchange)) == Upper(Trim(request.exchangeCode)))
    && Upper(NonemptyString(row.stockCode)) == Upper(Trim(request.stockCode))
    && NonemptyString(row.side) == (if request.side == Sell then "01" else "02")
    && Shows(row.ordered, request.quantity)
  }

  /** The matcher finds exactly the orders of such rows. */
  lemma RowsMatchAsTheyHold(row: HistoryRow, request: MatchRequest)
    requires IsValidOrder(request.market, row)
    ensures Matches(ToOrder(request.market, row), request) <==> HoldsOrderOf(row, request)
  {
    hide ParseKstTimestamp, IsKisDate, IsTime, Matches, Trim, Upper, GoodRemaining, ParseInteger, Shows;
    ReadsExactlyWhatIsShown(row.ordered, request.quantity);
    MatchesExactlyWhenItFits(ToOrder(request.market, row), request);
    StampsAreTrimmed(row.date.text, row.time.text);
    TrimTrims(row.orderNo.text);
    TrimTrims(row.stockCode.text);
    TrimTrims(NonemptyString(row.exchange));
    UpperOfBlank(NonemptyString(row.exchange));
  }

  lemma HoldersAreValid(row: HistoryRow, request: MatchRequest)
    requires HoldsOrderOf(row, request)
    ensures request.submittedAt.Some? && IsValidOrder(request.market, row) && IsNonemptyRow(row)
  {
    hide ParseKstTimestamp, IsKisDate, IsTime, Trim, Upper;
  }

  lemma UpperOfBlank(s: string)
    ensures Upper(s) in OVERSEAS_EXCHANGES ==> s != ""
  {
  }

  /** Rows the broker lists under one identity are the same order: they agree on all that is matched. */
  ghost predicate IdentitiesAreOrders(market: Market, endpoint: Endpoint, request: MatchRequest) {
    forall from, end, k: nat, l: nat, a, b ::
      a in KisRows(Validated(market, endpoint(from, end)), k) && b in KisRows(Validated(market, endpoint(from, end)), l)
      && RowKey(market, a) == RowKey(market, b) ==>
        (HoldsOrderOf(a, request) <==> HoldsOrderOf(b, request))
  }

  function FirstKstDay(submittedAt: int): int {
    (submittedAt - TEN_MINUTES_MS + KST_OFFSET_MS) / MS_PER_DAY
  }

  function LastKstDay(submittedAt: int): int {
    (submittedAt + TEN_MINUTES_MS + KST_OFFSET_MS) / MS_PER_DAY
  }

  /** Years in which every date of the query has eight digits. */
  predicate InPrintableYears(submittedAt: int) {
    100 <= DateOf(FirstKstDay(submittedAt) - 1).year && DateOf(LastKstDay(submittedAt)).year <= 9999
  }

  lemma PrintedDayReadsBack(day: int)
    requires 100 <= DateOf(day).year <= 9999
    ensures IsKisDate(CompactDate(day)) && ReadDay(CompactDate(day)) == day && FormatDate(day) == CompactDate(day)
  {
    hide DateOf, CompactDate, FormatDate, IsKisDate, IsCalendarDate, ReadDay, DayOf, DateFields;
    FormatDateIsCompact(day);
    PrintedDayIsKisDate(day);
    KisDatesAreCalendarDates(CompactDate(day));
    ShapeOfDate(CompactDate(day));
    KisDateDay(CompactDate(day));
    DayOfDateOf(day);
  }

  /** The range sent to the broker starts on the first day of the window, or overseas the day before. */
  lemma QueriedRange(market: Market, submittedAt: int)
    requires InPrintableYears(submittedAt)
    ensures var from := QueriedStart(market, WindowStart(submittedAt), WindowEnd(submittedAt));
            && from.Some? && IsKisDate(from.value) && IsKisDate(WindowEnd(submittedAt))
            && ReadDay(from.value) == FirstKstDay(submittedAt) - (if market == Overseas then 1 else 0)
            && ReadDay(WindowEnd(submittedAt)) == LastKstDay(submittedAt)
  {
    hide DateOf, CompactDate, FormatDate, IsKisDate, ReadDay;
    var first, last := FirstKstDay(submittedAt), LastKstDay(submittedAt);
    WindowYears(submittedAt);
    PrintedDayReadsBack(first - 1);
    PrintedDayReadsBack(first);
    PrintedDayReadsBack(last);
  }

  lemma WindowYears(submittedAt: int)
    requires InPrintableYears(submittedAt)
    ensures var first, last := FirstKstDay(submittedAt), LastKstDay(submittedAt);
            && 100 <= DateOf(first - 1).year <= DateOf(first).year <= DateOf(last).year <= 9999
  {
    hide DateOf;
    DaysFollow(submittedAt - TEN_MINUTES_MS + KST_OFFSET_MS, submittedAt + TEN_MINUTES_MS + KST_OFFSET_MS);
    YearsFollowDays(FirstKstDay(submittedAt) - 1, FirstKstDay(submittedAt));
    YearsFollowDays(FirstKstDay(submittedAt), LastKstDay(submittedAt));
  }

  /** A matching row is dated inside the window. */
  lemma MatchingRowIsInRange(row: HistoryRow, request: MatchRequest, day: int)
    requires HoldsOrderOf(row, request) && FiledUnder(request.market, row, day)
    requires InPrintableYears(request.submittedAt.value)
    ensures FirstKstDay(request.submittedAt.value) - (if request.market == Overseas then 1 else 0)
            <= day <= LastKstDay(request.submittedAt.value)
  {
    hide DateOf, ParseKstTimestamp, IsKisDate, IsTime, GoodQuantities, GoodRemaining, Trim;
    var submittedAt := request.submittedAt.value;
    var date, time := row.date.text, row.time.text;
    StampsAreTrimmed(date, time);
    WindowYears(submittedAt);
    YearOfDay(submittedAt - TEN_MINUTES_MS);
    YearOfDay(submittedAt + TEN_MINUTES_MS);
    WindowCoversMatches(date, time, submittedAt);
  }

  lemma YearOfDay(ms: int)
    ensures KstYear(ms) == DateOf((ms + KST_OFFSET_MS) / MS_PER_DAY).year
  {
  }

  lemma StampsAreTrimmed(date: string, time: string)
    requires IsKisDate(date) && IsTime(time)
    ensures Trim(date) == date && Trim(time) == time
  {
    DigitsAreTrimmed(date);
    DigitsAreTrimmed(time);
  }

  /** The range the request asks the broker for, as it is sent. */
  function QueriedServer(request: MatchRequest, endpoint: Endpoint): KisServer<HistoryRow>
    requires request.submittedAt.Some? && InPrintableYears(request.submittedAt.value)
  {
    QueriedRange(request.market, request.submittedAt.value);
    var end := WindowEnd(request.submittedAt.value);
    Validated(request.market, endpoint(QueriedStart(request.market, WindowStart(request.submittedAt.value), end).value, end))
  }

  /** The chain ends after `n + 1` pages, and no row that comes first under its identity matches. */
  ghost predicate NoFirstRowMatches(request: MatchRequest, server: KisServer<HistoryRow>, n: nat) {
    && n < MAX_PAGES && KisEndsAt(server, n)
    && var rows := KisRows(server, n + 1);
       forall i :: 0 <= i < |rows| && IsFirst(rows, KeyOf(request.market), i) ==> !HoldsOrderOf(rows[i], request)
  }

  /**
   Exactly when nothing is found: the account is right, the broker's chain of pages for the window ends,
   and none of the rows it lists first under their identities matches. What comes later under an
   identity does not count.
   */
  lemma NoOrderIsFoundExactlyWhen(request: MatchRequest, current: Context, endpoint: Endpoint)
    requires request.submittedAt.Some? && InPrintableYears(request.submittedAt.value)
    ensures NoOrderFound(request, current, endpoint)
       <==> IsAccountOf(request, current)
            && exists n: nat :: NoFirstRowMatches(request, QueriedServer(request, endpoint), n)
  {
    hide InPrintableYears, WindowStart, WindowEnd, QueriedStart, Validated, CompleteRows, ToOrders,
      IsAccountOf, Matches, HoldsOrderOf, AllPass, NoFirstRowMatches, KisEndsAt;
    var market, submittedAt := request.market, request.submittedAt.value;
    QueriedRange(market, submittedAt);
    var end := WindowEnd(submittedAt);
    var server := endpoint(QueriedStart(market, WindowStart(submittedAt), end).value, end);
    assert QueriedServer(request, endpoint) == Validated(market, server);
    if n: nat :| NoFirstRowMatches(request, Validated(market, server), n) {
      assert n < MAX_PAGES && KisEndsAt(Validated(market, server), n) by { EndsHere(request, Validated(market, server), n); }
      FirstRowsDecide(request, server, n);
      OrdersMatchAsRows(request, CompleteRows(market, server).value);
    }
    if NoOrderFound(request, current, endpoint) {
      var n := EndOfCompleteRead(market, server);
      FirstRowsDecide(request, server, n);
      OrdersMatchAsRows(request, CompleteRows(market, server).value);
      assert NoFirstRowMatches(request, Validated(market, server), n);
    }
  }

  lemma EndsHere(request: MatchRequest, server: KisServer<HistoryRow>, n: nat)
    requires NoFirstRowMatches(request, server, n)
    ensures n < MAX_PAGES && KisEndsAt(server, n)
  {
    hide KisEndsAt;
  }

  lemma OrdersMatchAsRows(request: MatchRequest, rows: seq<HistoryRow>)
    requires AllPass(request.market, rows)
    ensures (forall order :: order in ToOrders(request.market, rows) ==> !Matches(order, request))
       <==> (forall row :: row in rows ==> !HoldsOrderOf(row, request))
  {
    hide ToOrders, Matches, AllPass, HasColumns, IsKisDate, IsTime, HoldsOrderOf, IsNonemptyRow, ToOrder;
    OrderOfEveryRow(request.market, rows);
    if row :| row in rows && HoldsOrderOf(row, request) {
      MatchingRowIsListed(request, rows, row);
    }
    if order :| order in ToOrders(request.market, rows) && Matches(order, request) {
      var i :| 0 <= i < |rows| && IsNonemptyRow(rows[i]) && IsValidOrder(request.market, rows[i])
               && ToOrder(request.market, rows[i]) == order;
      RowsMatchAsTheyHold(rows[i], request);
      assert rows[i] in rows;
    }
  }

  lemma KeptRowsAreFirst(rows: seq<HistoryRow>, key: HistoryRow -> string, row: HistoryRow) returns (i: nat)
    requires row in FirstOccurrences(rows, key)
    ensures i < |rows| && IsFirst(rows, key, i) && rows[i] == row
  {
    hide IsFirst, FirstOccurrences;
    var at := FirstOccurrencesAreExact(rows, key);
    InRange(rows, key, at);
    var a :| 0 <= a < |FirstOccurrences(rows, key)| && FirstOccurrences(rows, key)[a] == row;
    i := at[a];
  }

  lemma FirstRowsDecide(request: MatchRequest, server: KisServer<HistoryRow>, n: nat)
    requires n < MAX_PAGES && KisEndsAt(Validated(request.market, server), n)
    ensures CompleteRows(request.market, server).Some?
    ensures (forall row :: row in CompleteRows(request.market, server).value ==> !HoldsOrderOf(row, request))
       <==> NoFirstRowMatches(request, Validated(request.market, server), n)
  {
    hide Validated, KisRows, KisEndsAt, FirstOccurrences, KeyOf, IsFirst, HoldsOrderOf;
    var market, served := request.market, Validated(request.market, server);
    KisEndsOnce(served, n);
    var all := KisRows(served, n + 1);
    var kept := FirstOccurrences(all, KeyOf(market));
    assert CompleteRows(market, server) == Some(kept);
    if i :| 0 <= i < |all| && IsFirst(all, KeyOf(market), i) && HoldsOrderOf(all[i], request) {
      FirstOccurrenceOf(all, KeyOf(market), i);
    }
    if row :| row in kept && HoldsOrderOf(row, request) {
      var i := KeptRowsAreFirst(all, KeyOf(market), row);
    }
  }

  /**
   Soundness of "not submitted" against the broker: if the broker's history holds an order of the
   request's exchange, stock, side and quantity within ten minutes of the submission, and its answers
   are complete, the confirmation cannot go through, however the answer is paged.
   */
  lemma AMatchingOrderBlocksConfirmation(
    request: MatchRequest, current: Context, endpoint: Endpoint,
    history: set<HistoryRow>, filed: HistoryRow -> int, row: HistoryRow)
    requires row in history && HoldsOrderOf(row, request) && FiledUnder(request.market, row, filed(row))
    requires Answers(request.market, endpoint, history, filed)
    requires IdentitiesAreOrders(request.market, endpoint, request)
    requires InPrintableYears(request.submittedAt.value)
    ensures !NoOrderFound(request, current, endpoint)
  {
    hide HoldsOrderOf, FiledUnder, InPrintableYears, WindowStart, WindowEnd, IsKisDate, Validated, KisRows, KisEndsAt,
      QueriedStart, RowKey, ReadDay, IsAccountOf, NoOrderFound, KeyOf;
    assert request.submittedAt.Some? by { HoldersAreValid(row, request); }
    NoOrderIsFoundExactlyWhen(request, current, endpoint);
    if n: nat :| NoFirstRowMatches(request, QueriedServer(request, endpoint), n) {
      var submittedAt := request.submittedAt.value;
      QueriedRange(request.market, submittedAt);
      MatchingRowIsInRange(row, request, filed(row));
      var rows := KisRows(QueriedServer(request, endpoint), n + 1);
      var i :| 0 <= i < |rows| && rows[i] == row;
      var first := FirstOfIdentity(rows, KeyOf(request.market), i);
      KeysAreRowKeys(request.market, rows[first]);
      KeysAreRowKeys(request.market, row);
      assert rows[first] in rows;
    }
  }

  lemma KeysAreRowKeys(market: Market, row: HistoryRow)
    ensures KeyOf(market)(row) == RowKey(market, row)
  {
  }

  /** Every row has a first row of its identity. */
  lemma FirstOfIdentity<R, K>(rows: seq<R>, key: R -> K, i: nat) returns (first: nat)
    requires i < |rows|
    ensures first <= i && IsFirst(rows, key, first) && key(rows[first]) == key(rows[i])
  {
    if j :| 0 <= j < i && key(rows[j]) == key(rows[i]) {
      first := FirstOfIdentity(rows, key, j);
    } else {
      first := i;
    }
  }

  lemma EndOfCompleteRead(market: Market, server: KisServer<HistoryRow>) returns (n: nat)
    requires CompleteRows(market, server).Some?
    ensures n < MAX_PAGES && KisEndsAt(Validated(market, server), n)
  {
    hide KisEndsAt, KisRows, Validated, FirstOccurrences;
    n :| 0 <= n < MAX_PAGES && KisEndsAt(Validated(market, server), n);
  }

  lemma ReadRowsWereServed(market: Market, server: KisServer<HistoryRow>, n: nat, row: HistoryRow)
    requires n < MAX_PAGES && KisEndsAt(Validated(market, server), n)
    requires CompleteRows(market, server).Some? && row in CompleteRows(market, server).value
    ensures row in KisRows(Validated(market, server), n + 1)
  {
    hide KisEndsAt, KisRows, Validated, FirstOccurrences;
    KisEndsOnce(Validated(market, server), n);
    FirstOccurrencesKeepEveryKey(KisRows(Validated(market, server), n + 1), KeyOf(market));
  }

  lemma MatchingRowIsListed(request: MatchRequest, rows: seq<HistoryRow>, row: HistoryRow)
    requires AllPass(request.market, rows) && row in rows && HoldsOrderOf(row, request)
    ensures exists order :: order in ToOrders(request.market, rows) && Matches(order, request)
  {
    hide ToOrders, Matches, AllPass, HasColumns, IsKisDate, IsTime, HoldsOrderOf, IsNonemptyRow, ToOrder;
    OrderOfEveryRow(request.market, rows);
    var i :| 0 <= i < |rows| && rows[i] == row;
    HoldersAreValid(row, request);
    RowsMatchAsTheyHold(row, request);
    assert ToOrder(request.market, row) in ToOrders(request.market, rows);
  }

  /**
   End to end. Take any schedule of handlers, crashes, takeovers and operators, a record an order was
   POSTed for, and any value of it that an operator may have loaded as an unknown submission. If the
   broker's history holds that order, with the quantity that was POSTed and a time within ten minutes
   of the recorded start, "not submitted" can never be confirmed.
   */
  lemma APostedOrderIsNeverDeclaredNotSubmitted(
    steps: seq<Step>, id: RecordId, loaded: Row, instrument: Instrument, current: Context, endpoint: Endpoint,
    history: set<HistoryRow>, filed: HistoryRow -> int, row: HistoryRow)
    requires id in Reached(steps).journals && Reached(steps).journals[id].posts != []
    requires loaded in Reached(steps).journals[id].seen && loaded.status == SubmissionUnknown
    requires loaded.submissionStartedAt.Some? && InPrintableYears(loaded.submissionStartedAt.value)
    requires row in history && FiledUnder(instrument.market, row, filed(row))
    requires var posted := MatchRequest(
               instrument.market, instrument.exchangeCode, instrument.stockCode, instrument.side,
               Reached(steps).journals[id].posts[0], loaded.submissionStartedAt, loaded.environment, loaded.accountHash);
             && HoldsOrderOf(row, posted)
             && Answers(instrument.market, endpoint, history, filed)
             && IdentitiesAreOrders(instrument.market, endpoint, posted)
    ensures !NoOrderFound(ToMatchRequest(instrument, loaded), current, endpoint)
  {
    hide HoldsOrderOf, FiledUnder, Answers, IdentitiesAreOrders, NoOrderFound, InPrintableYears, Run;
    ReachedIsSafe(steps);
    var s := Reached(steps);
    assert RecordOk(s.db.rows[id], s.journals[id], s.db.audit, id);
    assert s.journals[id].posts[0] == loaded.quantity;
    AMatchingOrderBlocksConfirmation(ToMatchRequest(instrument, loaded), current, endpoint, history, filed, row);
  }

  // ---------------------------------------------------------------------------
  // Why identities must be orders
  // ---------------------------------------------------------------------------

  function OnePage(rows: seq<HistoryRow>): KisServer<HistoryRow> {
    c => Some(KisPage(Some(rows), Some("D"), None, None))
  }

  /** The same order listed once more, with a larger quantity. */
  function Amended(row: HistoryRow): HistoryRow
    requires GoodQuantities(row)
  {
    row.(ordered := Whole(ParseInteger(row.ordered).value + 1))
  }

  /**
   Without that assumption the promise fails for every order: when the broker lists another row of the
   same identity first, with another quantity, the matching row is dropped as a duplicate and
   "not submitted" is confirmed.
   */
  lemma AnEarlierTwinHidesTheOrder(request: MatchRequest, current: Context, row: HistoryRow)
    requires HoldsOrderOf(row, request) && IsAccountOf(request, current)
    requires InPrintableYears(request.submittedAt.value)
    requires ParseInteger(row.ordered).value < MAX_SAFE_INTEGER
    ensures RowKey(request.market, Amended(row)) == RowKey(request.market, row)
    ensures NoOrderFound(request, current, (from, end) => OnePage([Amended(row), row]))
  {
    hide InPrintableYears, WindowStart, WindowEnd, IsKisDate, QueriedStart, NoOrderFound, NoFirstRowMatches, Validated,
      IsAccountOf, IsTime, RowKey;
    var endpoint: Endpoint := (from, end) => OnePage([Amended(row), row]);
    QueriedRange(request.market, request.submittedAt.value);
    AmendedPasses(request.market, row);
    AmendedDoesNotMatch(request, row);
    TwinComesFirst(request, Amended(row), row);
    NoOrderIsFoundExactlyWhen(request, current, endpoint);
    assert NoFirstRowMatches(request, QueriedServer(request, endpoint), 0);
  }

  lemma TwinComesFirst(request: MatchRequest, twin: HistoryRow, row: HistoryRow)
    requires AllPass(request.market, [twin, row]) && RowKey(request.market, twin) == RowKey(request.market, row)
    requires !HoldsOrderOf(twin, request)
    ensures NoFirstRowMatches(request, Validated(request.market, OnePage([twin, row])), 0)
  {
    hide KisRows, KisEndsAt, Validated, HoldsOrderOf, RowKey, AllPass, OnePage, KeyOf;
    OnePageEnds(request.market, [twin, row]);
    KeysAreRowKeys(request.market, twin);
    KeysAreRowKeys(request.market, row);
    var rows, key := [twin, row], KeyOf(request.market);
    assert key(rows[0]) == key(rows[1]);
    forall i | 0 <= i < |rows| && IsFirst(rows, key, i)
      ensures rows[i] == twin
    {
    }
  }

  lemma AmendedPasses(market: Market, row: HistoryRow)
    requires IsValidOrder(market, row) && ParseInteger(row.ordered).value < MAX_SAFE_INTEGER
    ensures IsValidOrder(market, Amended(row)) && RowKey(market, Amended(row)) == RowKey(market, row)
    ensures AllPass(market, [Amended(row), row])
  {
    hide IsKisDate, IsTime;
  }

  lemma WholeNumbersParse(n: int)
    requires -MAX_SAFE_INTEGER <= n <= MAX_SAFE_INTEGER
    ensures ParseInteger(Whole(n)) == Some(n)
  {
  }

  lemma AmendedDoesNotMatch(request: MatchRequest, row: HistoryRow)
    requires HoldsOrderOf(row, request) && ParseInteger(row.ordered).value < MAX_SAFE_INTEGER
    ensures !HoldsOrderOf(Amended(row), request)
  {
    hide IsKisDate, IsTime, ParseInteger, Shows, Trim;
    ReadsExactlyWhatIsShown(row.ordered, request.quantity);
    ReadsExactlyWhatIsShown(Amended(row).ordered, request.quantity);
    assert ParseInteger(Amended(row).ordered) == Some(request.quantity + 1) by { WholeNumbersParse(request.quantity + 1); }
  }

  lemma OnePageEnds(market: Market, rows: seq<HistoryRow>)
    requires AllPass(market, rows)
    ensures KisEndsAt(Validated(market, OnePage(rows)), 0) && KisRows(Validated(market, OnePage(rows)), 1) == rows
  {
    hide PassesValidation;
    var server := Validated(market, OnePage(rows));
    assert forall row :: row in rows ==> PassesValidation(market, row);
    assert Trim("D") == "D" && Upper("D") == "D";
    KisPosition(server, 0, FIRST_PAGE);
    assert KisRows(server, 0) == [];
  }
}
