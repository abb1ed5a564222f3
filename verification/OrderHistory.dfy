/** Order-execution history of Korea Investment & Securities: row validation, mapping and the queried range. */
module OrderHistory {
  import opened Prelude
  import opened Text
  import opened Calendar
  import opened KstTimestamp
  import opened BrokerTime
  import opened Identity
  import opened Pagination

  /** A JSON value as the row validators see it. */
  datatype Field = Missing | Whole(n: int) | Fractional | Text(text: string) | OtherValue

  const MAX_SAFE_INTEGER: int := 9_007_199_254_740_991

  /** The longest text `parseInteger` can accept reads below this many digits; longer numbers are unsafe. */
  function ParseInteger(field: Field): Option<int> {
    match field
    case Whole(n) => if Abs(n) <= MAX_SAFE_INTEGER then Some(n) else None
    case Text(text) =>
      var digits := Trim(text);
      if digits != "" && AllDigits(digits) && Value(digits) <= MAX_SAFE_INTEGER then Some(Value(digits)) else None
    case _ => None
  }

  /** A column shows a number: as a safe JSON integer, or printed in decimal digits with room for zeros and blanks around it. */
  ghost predicate Shows(field: Field, n: int) {
    -9_007_199_254_740_991 <= n <= 9_007_199_254_740_991 &&
    match field
    case Whole(m) => m == n
    case Text(text) =>
      0 <= n && exists w: nat, before, after ::
                  0 < w && n < Pow10(w) && IsBlank(before) && IsBlank(after) && text == before + Fixed(n, w) + after
    case _ => false
  }

  /** Exactly the numbers a column shows are read from it. */
  lemma ReadsExactlyWhatIsShown(field: Field, n: int)
    ensures ParseInteger(field) == Some(n) <==> Shows(field, n)
  {
    if field.Text? {
      hide Shows, ParseInteger;
      if ParseInteger(field) == Some(n) {
        ReadIsShown(field.text, n);
      }
      if Shows(field, n) {
        ShownIsRead(field.text, n);
      }
    }
  }

  lemma ReadIsShown(text: string, n: int)
    requires ParseInteger(Text(text)) == Some(n)
    ensures Shows(Text(text), n)
  {
    hide Fixed, Trim, Value, Pow10, IsBlank;
    var digits := Trim(text);
    TrimmedExactlyWhen(text, digits);
    var before, after :| IsBlank(before) && IsBlank(after) && text == before + digits + after;
    FixedOfValue(digits);
    ValueBound(digits);
    assert 0 < |digits|;
  }

  lemma ShownIsRead(text: string, n: int)
    requires Shows(Text(text), n)
    ensures ParseInteger(Text(text)) == Some(n)
  {
    hide Fixed, Trim, Value, Pow10, IsBlank;
    var w: nat, before, after :| 0 < w && n < Pow10(w) && IsBlank(before) && IsBlank(after) && text == before + Fixed(n, w) + after;
    DigitsAreTrimmed(Fixed(n, w));
    TrimTrims(Fixed(n, w));
    TrimmedExactlyWhen(text, Fixed(n, w));
    ValueOfFixed(n, w);
  }

  datatype OptionalInteger = Undefined | Invalid | Given(n: int)

  function ParseOptionalInteger(field: Field): OptionalInteger {
    if field.Missing? || (field.Text? && Trim(field.text) == "") then Undefined
    else
      match ParseInteger(field)
      case None => Invalid
      case Some(n) => Given(n)
  }

  /** `""` stands for a value that is not a string or is blank. */
  function NonemptyString(field: Field): string {
    if field.Text? then Trim(field.text) else ""
  }

  predicate IsNonempty(field: Field) {
    match field
    case Missing => false
    case Text(text) => Trim(text) != ""
    case _ => true
  }

  /**
   One row of either history endpoint. `exchange` and `remaining` are columns of the overseas
   endpoint only; `other` says whether any further column is present and not blank.
   */
  datatype HistoryRow = HistoryRow(
    date: Field, time: Field, exchange: Field, orderNo: Field, stockCode: Field, side: Field,
    ordered: Field, filled: Field, remaining: Field, other: bool)

  predicate IsNonemptyRow(row: HistoryRow) {
    || IsNonempty(row.date) || IsNonempty(row.time) || IsNonempty(row.exchange) || IsNonempty(row.orderNo)
    || IsNonempty(row.stockCode) || IsNonempty(row.side) || IsNonempty(row.ordered) || IsNonempty(row.filled)
    || IsNonempty(row.remaining) || row.other
  }

  const OVERSEAS_EXCHANGES: set<string> :=
    {"NASD", "NYSE", "AMEX", "SEHK", "SHAA", "SZAA", "TKSE", "HASE", "VNSE"}

  /** `isValidKisCalendarDate`: the fields survive a trip through `Date.UTC`. */
  predicate IsKisDate(date: string) {
    && |date| == 8 && AllDigits(date)
    && DateOf(ReadDay(date)) == DateFields(date)
  }

  lemma KisDatesAreCalendarDates(date: string)
    ensures IsKisDate(date) <==> IsCalendarDate(date)
  {
    hide DateOf, MakeDay, Value;
    if |date| == 8 && AllDigits(date) {
      var fields := DateFields(date);
      if Real(fields) {
        DateOfDayOf(fields);
      }
      if 0 <= fields.year <= 99 && Real(fields) {
        ReadYearBound(1900 + fields.year, fields.month - 1, fields.day);
      } else if 0 <= fields.year <= 99 {
        RealAfterAll(ReadDay(date));
      }
    }
  }

  lemma RealAfterAll(d: int)
    ensures Real(DateOf(d))
  {
  }

  predicate GoodQuantities(row: HistoryRow) {
    var ordered, filled := ParseInteger(row.ordered), ParseInteger(row.filled);
    && ordered.Some? && ordered.value > 0
    && filled.Some? && 0 <= filled.value <= ordered.value
  }

  /** `remaining` may be negative when it is a JSON number: the source checks only upper bounds. */
  predicate GoodRemaining(row: HistoryRow)
    requires GoodQuantities(row)
  {
    var ordered, filled := ParseInteger(row.ordered).value, ParseInteger(row.filled).value;
    match ParseOptionalInteger(row.remaining)
    case Undefined => true
    case Invalid => false
    case Given(n) => n <= ordered && filled + n <= ordered
  }

  predicate HasColumns(market: Market, row: HistoryRow) {
    && NonemptyString(row.orderNo) != "" && NonemptyString(row.stockCode) != ""
    && NonemptyString(row.side) in {"01", "02"}
    && GoodQuantities(row)
    && (market == Overseas ==>
          Upper(NonemptyString(row.exchange)) in OVERSEAS_EXCHANGES && GoodRemaining(row))
    && row.date.Text? && row.time.Text?
  }

  predicate IsValidOrder(market: Market, row: HistoryRow) {
    HasColumns(market, row) && IsKisDate(row.date.text) && IsTime(row.time.text)
  }

  /** Blank rows are let through and dropped later. */
  predicate PassesValidation(market: Market, row: HistoryRow) {
    IsNonemptyRow(row) ==> IsValidOrder(market, row)
  }

  /** What the port hands to the rest of the system. */
  datatype BrokerOrder = BrokerOrder(
    orderNo: Option<string>, stockCode: Option<string>, side: Side,
    orderQuantity: int, filledQuantity: int, remainingQuantity: int,
    exchangeCode: Option<string>, orderDate: Option<string>, orderTime: Option<string>)

  function ToOrder(market: Market, row: HistoryRow): BrokerOrder
    requires HasColumns(market, row)
  {
    var ordered, filled := ParseInteger(row.ordered).value, ParseInteger(row.filled).value;
    var rest := Max(0, ordered - filled);
    var remaining := ParseOptionalInteger(row.remaining);
    BrokerOrder(
      Some(Trim(row.orderNo.text)), Some(Trim(row.stockCode.text)),
      if Trim(row.side.text) == "01" then Sell else Buy,
      ordered, filled,
      if market == Overseas && remaining.Given? then remaining.n else rest,
      if market == Domestic then Some("KRX") else Some(row.exchange.text),
      Some(row.date.text), Some(row.time.text))
  }

  /** A column holds text that is not blank. */
  predicate HasText(field: Field) {
    field.Text? && !IsBlank(field.text)
  }

  predicate IsEmptyColumn(field: Field) {
    field.Missing? || (field.Text? && IsBlank(field.text))
  }

  /** What the columns of a row show, and how much of the order is left open. */
  ghost predicate ShowsQuantities(market: Market, row: HistoryRow, ordered: int, filled: int, remaining: int) {
    && Shows(row.ordered, ordered) && Shows(row.filled, filled)
    && 0 < ordered && 0 <= filled <= ordered
    && (if market == Domestic || IsEmptyColumn(row.remaining) then remaining == ordered - filled
        else Shows(row.remaining, remaining) && remaining <= ordered - filled)
  }

  lemma TextColumns(field: Field)
    ensures NonemptyString(field) != "" <==> HasText(field)
    ensures ParseOptionalInteger(field).Undefined? <==> IsEmptyColumn(field)
  {
    if field.Text? {
      BlankExactlyWhen(field.text);
    }
  }

  /** A row is accepted exactly when its columns show an order: quantities that fit, known codes, a real date and time. */
  lemma ValidExactlyWhen(market: Market, row: HistoryRow)
    ensures IsValidOrder(market, row)
       <==> && HasText(row.orderNo) && HasText(row.stockCode)
            && row.side.Text? && (Trim(row.side.text) == "01" || Trim(row.side.text) == "02")
            && (exists ordered, filled, remaining :: ShowsQuantities(market, row, ordered, filled, remaining))
            && (market == Overseas ==>
                  row.exchange.Text? && Upper(Trim(row.exchange.text)) in
                    {"NASD", "NYSE", "AMEX", "SEHK", "SHAA", "SZAA", "TKSE", "HASE", "VNSE"})
            && row.date.Text? && IsCalendarDate(row.date.text)
            && row.time.Text? && IsTime(row.time.text)
  {
    hide IsKisDate, IsCalendarDate, IsTime, Trim, Shows, IsBlank, ParseInteger, HasText, IsEmptyColumn;
    TextColumns(row.orderNo);
    TextColumns(row.stockCode);
    if row.date.Text? {
      KisDatesAreCalendarDates(row.date.text);
    }
    QuantitiesExactlyWhen(market, row);
    assert Upper("") !in OVERSEAS_EXCHANGES;
  }

  /** A row is dropped as blank exactly when no column holds anything. */
  lemma BlankRowExactlyWhen(row: HistoryRow)
    ensures IsNonemptyRow(row)
       <==> !(&& IsEmptyColumn(row.date) && IsEmptyColumn(row.time) && IsEmptyColumn(row.exchange) && IsEmptyColumn(row.orderNo)
              && IsEmptyColumn(row.stockCode) && IsEmptyColumn(row.side) && IsEmptyColumn(row.ordered)
              && IsEmptyColumn(row.filled) && IsEmptyColumn(row.remaining) && !row.other)
  {
    hide IsEmptyColumn, IsNonempty;
    EmptyOrNot(row.date);
    EmptyOrNot(row.time);
    EmptyOrNot(row.exchange);
    EmptyOrNot(row.orderNo);
    EmptyOrNot(row.stockCode);
    EmptyOrNot(row.side);
    EmptyOrNot(row.ordered);
    EmptyOrNot(row.filled);
    EmptyOrNot(row.remaining);
  }

  lemma EmptyOrNot(field: Field)
    ensures IsNonempty(field) <==> !IsEmptyColumn(field)
  {
    if field.Text? {
      BlankExactlyWhen(field.text);
    }
  }

  lemma QuantitiesExactlyWhen(market: Market, row: HistoryRow)
    ensures GoodQuantities(row) && (market == Overseas ==> GoodRemaining(row))
       <==> exists ordered, filled, remaining :: ShowsQuantities(market, row, ordered, filled, remaining)
  {
    hide Shows, IsBlank, ParseInteger, IsEmptyColumn;
    TextColumns(row.remaining);
    if GoodQuantities(row) && (market == Overseas ==> GoodRemaining(row)) {
      var ordered, filled := ParseInteger(row.ordered).value, ParseInteger(row.filled).value;
      ReadsExactlyWhatIsShown(row.ordered, ordered);
      ReadsExactlyWhatIsShown(row.filled, filled);
      var given := ParseOptionalInteger(row.remaining);
      var remaining := if market == Overseas && given.Given? then given.n else ordered - filled;
      ReadsExactlyWhatIsShown(row.remaining, remaining);
      assert ShowsQuantities(market, row, ordered, filled, remaining);
    }
    if ordered, filled, remaining :| ShowsQuantities(market, row, ordered, filled, remaining) {
      ReadsExactlyWhatIsShown(row.ordered, ordered);
      ReadsExactlyWhatIsShown(row.filled, filled);
      ReadsExactlyWhatIsShown(row.remaining, remaining);
    }
  }

  /** And the order made of it holds what they show. */
  lemma OrderHoldsWhatIsShown(market: Market, row: HistoryRow, ordered: int, filled: int, remaining: int)
    requires IsValidOrder(market, row) && ShowsQuantities(market, row, ordered, filled, remaining)
    ensures ToOrder(market, row) == BrokerOrder(
              Some(Trim(row.orderNo.text)), Some(Trim(row.stockCode.text)),
              if Trim(row.side.text) == "02" then Buy else Sell,
              ordered, filled, remaining,
              Some(if market == Overseas then row.exchange.text else "KRX"),
              Some(row.date.text), Some(row.time.text))
  {
    hide IsKisDate, IsTime, Trim, Shows, IsBlank, ParseInteger, IsEmptyColumn, Upper;
    TextColumns(row.remaining);
    ReadsExactlyWhatIsShown(row.ordered, ordered);
    ReadsExactlyWhatIsShown(row.filled, filled);
    ReadsExactlyWhatIsShown(row.remaining, remaining);
  }

  /**
   A validated row's quantities add up. The one hole is exact: the remaining quantity is negative
   exactly when the overseas column held a negative JSON number, which no digit string can be.
   */
  lemma QuantitiesAddUp(market: Market, row: HistoryRow)
    requires HasColumns(market, row)
    ensures var order := ToOrder(market, row);
            && 0 < order.orderQuantity
            && 0 <= order.filledQuantity
            && order.filledQuantity + order.remainingQuantity <= order.orderQuantity
            && (order.remainingQuantity < 0 <==> market == Overseas && row.remaining.Whole? && row.remaining.n < 0)
  {
  }

  /**
   The hole is as wide as it can be: whatever valid overseas row one takes, with any negative safe integer
   in its remaining column it passes the whole validation and becomes an order with that remaining quantity.
   */
  lemma NegativeRemainingPasses(row: HistoryRow, n: int)
    requires IsValidOrder(Overseas, row) && -MAX_SAFE_INTEGER <= n < 0
    ensures var odd := row.(remaining := Whole(n));
            && IsValidOrder(Overseas, odd) && PassesValidation(Overseas, odd)
            && ToOrder(Overseas, odd) == ToOrder(Overseas, row).(remainingQuantity := n)
  {
    hide IsKisDate, IsTime, Trim, Upper;
  }

  // ---------------------------------------------------------------------------
  // The queried range
  // ---------------------------------------------------------------------------

  function ShiftKisDate(date: string, days: int): Option<string> {
    if !IsKisDate(date) then None else Some(FormatDate(ReadDay(date) + days))
  }

  lemma DashIsNoDigit(s: string, i: nat)
    requires i < |s| && s[i] == '-'
    ensures !AllDigits(s)
  {
  }

  /** A printed day reads as a calendar date exactly when its year has a plain four-digit form. */
  lemma PrintedDayIsKisDate(day: int)
    ensures IsCalendarDate(FormatDate(day)) <==> 100 <= DateOf(day).year <= 9999
    ensures IsCalendarDate(FormatDate(day)) ==> DateFields(FormatDate(day)) == DateOf(day)
  {
    hide DateOf, Value, Pow10, Fixed, CompactDate;
    var date := DateOf(day);
    if 0 <= date.year <= 9999 {
      FormatDateIsCompact(day);
      PrintedDate(day);
    } else {
      SmallPowers();
      PaddedDecimal(date.month, 2);
      PaddedDecimal(date.day, 2);
      var year := PadStart(DecimalInt(date.year), 4);
      if date.year > 9999 {
        LongDecimal(date.year, 4);
        assert |FormatDate(day)| > 8;
      } else {
        var i := if |DecimalInt(date.year)| >= 4 then 0 else 4 - |DecimalInt(date.year)|;
        assert year[i] == '-';
        assert FormatDate(day)[i] == '-';
        DashIsNoDigit(FormatDate(day), i);
      }
    }
  }

  lemma KisDateDay(date: string)
    requires IsCalendarDate(date)
    ensures ReadDay(date) == DayOf(DateFields(date)) && FormatDate(ReadDay(date)) == date
    ensures DateOf(ReadDay(date)) == DateFields(date)
  {
    hide DateOf, MakeDay, CompactDate, FormatDate, Value;
    DatePrintsBack(date);
    FormatDateIsCompact(DayOf(DateFields(date)));
  }

  /** Shifting a date by some days and back is the identity exactly while the shifted year is in range. */
  lemma ShiftBack(date: string, days: int)
    requires IsKisDate(date)
    ensures var shifted := ShiftKisDate(date, days).value;
            ShiftKisDate(shifted, -days) == Some(date) <==> 100 <= DateOf(ReadDay(date) + days).year <= 9999
  {
    hide DateOf, ReadDay, FormatDate, IsKisDate, IsCalendarDate, DateFields, DayOf;
    KisDatesAreCalendarDates(date);
    ShapeOfDate(date);
    KisDateDay(date);
    var day := ReadDay(date) + days;
    var shifted := FormatDate(day);
    KisDatesAreCalendarDates(shifted);
    PrintedDayIsKisDate(day);
    if IsCalendarDate(shifted) {
      ShapeOfDate(shifted);
      KisDateDay(shifted);
      DayOfDateOf(day);
    }
  }

  lemma ShapeOfDate(date: string)
    requires IsCalendarDate(date)
    ensures |date| == 8 && AllDigits(date)
  {
  }

  datatype HistoryError = InvalidDate | PageFailed(error: PageError)

  /** The broker's endpoint for one market: pages that depend on the queried range and the cursor. */
  type Endpoint = (string, string) -> KisServer<HistoryRow>

  /** The start date sent to the broker: overseas orders are filed under the local day, which may be the day before. */
  function QueriedStart(market: Market, start: string, end: string): Option<string> {
    if market == Domestic then Some(start)
    else if !IsKisDate(end) then None
    else ShiftKisDate(start, -1)
  }

  /** `fetchPage` throws on a page with an invalid row. */
  function Validated(market: Market, server: KisServer<HistoryRow>): KisServer<HistoryRow> {
    c =>
      match server(c)
      case None => None
      case Some(page) =>
        if page.rows.Some? && exists row :: row in page.rows.value && !PassesValidation(market, row) then None
        else Some(page)
  }

  lemma PagesTakenExactlyWhen(market: Market, server: KisServer<HistoryRow>, c: KisCursor, page: KisPage<HistoryRow>)
    ensures Validated(market, server)(c) == Some(page)
       <==> && server(c) == Some(page)
            && (page.rows.Some? ==> forall row :: row in page.rows.value ==> PassesValidation(market, row))
    ensures forall row :: PassesValidation(market, row) <==> !IsNonemptyRow(row) || IsValidOrder(market, row)
  {
    hide IsValidOrder, IsNonemptyRow;
  }

  /** `String(value ?? '').trim()`, for the values a dedupe key is made of. */
  function KeyText(field: Field): string {
    match field
    case Text(text) => Trim(text)
    case Whole(n) => DecimalInt(n)
    case _ => ""
  }

  function JoinKey(a: string, b: string, c: string): string {
    a + "|" + b + "|" + c
  }

  function RowKey(market: Market, row: HistoryRow): string {
    JoinKey(KeyText(row.date), if market == Domestic then "KRX" else KeyText(row.exchange), KeyText(row.orderNo))
  }

  lemma JoinKeepsParts(a: string, a': string, b: string, b': string, c: string, c': string)
    requires |a| == |a'| && |b| == |b'| && JoinKey(a, b, c) == JoinKey(a', b', c')
    ensures a == a' && b == b' && c == c'
  {
    var s, s' := JoinKey(a, b, c), JoinKey(a', b', c');
    assert s[..|a|] == a && s'[..|a|] == a';
    assert s[|a| + 1..|a| + 1 + |b|] == b && s'[|a| + 1..|a| + 1 + |b|] == b';
    assert s[|a| + 1 + |b| + 1..] == c && s'[|a| + 1 + |b| + 1..] == c';
  }

  /** The columns an identity is made of hold a date, a number and, abroad, a known exchange. */
  predicate HasIdentity(market: Market, row: HistoryRow) {
    && row.date.Text? && IsKisDate(row.date.text) && row.orderNo.Text?
    && (market == Overseas ==> row.exchange.Text? && Upper(Trim(row.exchange.text)) in OVERSEAS_EXCHANGES)
  }

  lemma ValidOrdersHaveIdentities(market: Market, row: HistoryRow)
    requires IsValidOrder(market, row)
    ensures HasIdentity(market, row)
  {
    hide IsKisDate, IsTime, GoodQuantities, GoodRemaining, Trim;
    assert Upper("") == "";
  }

  /** Two such rows have one identity exactly when date, order number and, abroad, exchange agree. */
  lemma RowKeysIdentify(market: Market, a: HistoryRow, b: HistoryRow)
    requires HasIdentity(market, a) && HasIdentity(market, b)
    ensures RowKey(market, a) == RowKey(market, b)
       <==> && a.date.text == b.date.text && Trim(a.orderNo.text) == Trim(b.orderNo.text)
            && (market == Overseas ==> Trim(a.exchange.text) == Trim(b.exchange.text))
  {
    hide IsKisDate, Trim, JoinKey, Upper;
    ValidDates(a.date.text);
    ValidDates(b.date.text);
    var here, there := "KRX", "KRX";
    if market == Overseas {
      here, there := Trim(a.exchange.text), Trim(b.exchange.text);
      CodeLength(here);
      CodeLength(there);
    }
    if RowKey(market, a) == RowKey(market, b) {
      JoinKeepsParts(a.date.text, b.date.text, here, there, Trim(a.orderNo.text), Trim(b.orderNo.text));
    }
  }

  lemma ValidDates(date: string)
    requires IsKisDate(date)
    ensures Trim(date) == date && |date| == 8
  {
    hide Trim;
    DigitsAreTrimmed(date);
  }

  lemma CodeLength(code: string)
    requires Upper(code) in OVERSEAS_EXCHANGES
    ensures |code| == 4
  {
    assert |Upper(code)| == |code|;
  }

  predicate AllPass(market: Market, rows: seq<HistoryRow>) {
    forall i :: 0 <= i < |rows| ==> PassesValidation(market, rows[i])
  }

  function ToOrders(market: Market, rows: seq<HistoryRow>): seq<BrokerOrder>
    requires AllPass(market, rows)
  {
    if rows == [] then []
    else
      var init, last := rows[..|rows| - 1], rows[|rows| - 1];
      ToOrders(market, init) + if IsNonemptyRow(last) then [ToOrder(market, last)] else []
  }

  /** Every order returned is some row's, and every row that is not blank has its order. */
  lemma {:induction false} OrderOfEveryRow(market: Market, rows: seq<HistoryRow>)
    requires AllPass(market, rows)
    ensures forall i :: 0 <= i < |rows| && IsNonemptyRow(rows[i]) ==>
              IsValidOrder(market, rows[i]) && ToOrder(market, rows[i]) in ToOrders(market, rows)
    ensures forall order :: order in ToOrders(market, rows) ==>
              exists i :: 0 <= i < |rows| && IsNonemptyRow(rows[i]) && IsValidOrder(market, rows[i])
                          && ToOrder(market, rows[i]) == order
  {
    hide IsNonemptyRow, HasColumns, IsKisDate, IsTime, ToOrder;
    if rows != [] {
      var n := |rows| - 1;
      var init := rows[..n];
      OrderOfEveryRow(market, init);
      assert forall i :: 0 <= i < n ==> init[i] == rows[i];
      assert PassesValidation(market, rows[n]);
      forall order | order in ToOrders(market, rows)
        ensures exists i :: 0 <= i < |rows| && IsNonemptyRow(rows[i]) && IsValidOrder(market, rows[i])
                            && ToOrder(market, rows[i]) == order
      {
        if order in ToOrders(market, init) {
          var i :| 0 <= i < n && IsNonemptyRow(init[i]) && IsValidOrder(market, init[i]) && ToOrder(market, init[i]) == order;
          assert rows[i] == init[i];
        } else {
          assert ToOrder(market, rows[n]) == order;
        }
      }
    }
  }

  function KeyOf(market: Market): HistoryRow -> string {
    row => RowKey(market, row)
  }

  lemma {:induction false} ValidatedRowsPass(market: Market, server: KisServer<HistoryRow>, k: nat)
    ensures AllPass(market, KisRows(Validated(market, server), k))
  {
    hide PassesValidation, KisAt;
    if k > 0 {
      ValidatedRowsPass(market, server, k - 1);
      var served := Validated(market, server);
      if KisAt(served, k - 1).Some? {
        var received := KisPageRows(served, KisAt(served, k - 1).value);
        assert forall i :: 0 <= i < |received| ==> received[i] in received;
        assert KisRows(served, k) == KisRows(served, k - 1) + received;
      }
    }
  }

  lemma KeptRowsPass(market: Market, all: seq<HistoryRow>)
    requires AllPass(market, all)
    ensures AllPass(market, FirstOccurrences(all, KeyOf(market)))
  {
    hide PassesValidation, FirstOccurrences;
    var kept := FirstOccurrences(all, KeyOf(market));
    FirstOccurrencesKeepEveryKey(all, KeyOf(market));
    forall i | 0 <= i < |kept|
      ensures PassesValidation(market, kept[i])
    {
      assert kept[i] in kept;
      var j :| 0 <= j < |all| && all[j] == kept[i];
    }
  }

  /** The rows a complete read returns. */
  ghost function CompleteRows(market: Market, server: KisServer<HistoryRow>): (rows: Option<seq<HistoryRow>>)
    ensures rows.Some? ==> AllPass(market, rows.value)
  {
    if exists n :: 0 <= n < MAX_PAGES && KisEndsAt(Validated(market, server), n) then
      var n :| 0 <= n < MAX_PAGES && KisEndsAt(Validated(market, server), n);
      var all := KisRows(Validated(market, server), n + 1);
      ValidatedRowsPass(market, server, n + 1);
      KeptRowsPass(market, all);
      Some(FirstOccurrences(all, KeyOf(market)))
    else
      None
  }

  ghost function HistoryRead(market: Market, endpoint: Endpoint, start: string, end: string): Option<seq<BrokerOrder>> {
    var from := QueriedStart(market, start, end);
    if from.None? then None
    else
      var rows := CompleteRows(market, endpoint(from.value, end));
      if rows.None? then None else Some(ToOrders(market, rows.value))
  }

  /** A history is returned whole or not at all. */
  method GetOrderExecutions(market: Market, endpoint: Endpoint, start: string, end: string)
    returns (result: Result<seq<BrokerOrder>, HistoryError>)
    ensures result.Ok? <==> HistoryRead(market, endpoint, start, end).Some?
    ensures result.Ok? ==> Some(result.value) == HistoryRead(market, endpoint, start, end)
  {
    hide KisEndsAt, KisRows, RowsAt, IsCompleteRead, Validated, ToOrders, AllPass, IsKisDate, ShiftKisDate, FirstOccurrences;
    var from := QueriedStart(market, start, end);
    if from.None? {
      return Err(InvalidDate);
    }
    var server := Validated(market, endpoint(from.value, end));
    var read, _ := Paginate(server, KeyOf(market));
    match read {
      case Err(error) => result := Err(PageFailed(error));
      case Ok(rows) =>
        assert CompleteRows(market, endpoint(from.value, end)) == Some(rows);
        assert AllPass(market, rows);
        result := Ok(ToOrders(market, rows));
    }
  }

  // ---------------------------------------------------------------------------
  // What a complete answer contains
  // ---------------------------------------------------------------------------

  /** An order of `history` is filed under the Korean day it was placed on, or overseas under the day before. */
  predicate FiledUnder(market: Market, row: HistoryRow, day: int) {
    && row.date.Text? && IsKisDate(row.date.text)
    && (day == ReadDay(row.date.text) || (market == Overseas && day == ReadDay(row.date.text) - 1))
  }

  /** Whenever the broker's chain of pages for a range ends, its pages hold every order of `history` filed in it. */
  ghost predicate Answers(market: Market, endpoint: Endpoint, history: set<HistoryRow>, filed: HistoryRow -> int) {
    forall from, end, row, n: nat ::
      row in history && IsKisDate(from) && IsKisDate(end)
      && ReadDay(from) <= filed(row) <= ReadDay(end)
      && KisEndsAt(Validated(market, endpoint(from, end)), n) ==>
        row in KisRows(Validated(market, endpoint(from, end)), n + 1)
  }

  /** A row of a range is read, or another row of the same identity came before it. */
  lemma RowOrItsTwinIsRead(market: Market, server: KisServer<HistoryRow>, row: HistoryRow, n: nat)
    requires n < MAX_PAGES && KisEndsAt(Validated(market, server), n)
    requires row in KisRows(Validated(market, server), n + 1)
    ensures CompleteRows(market, server).Some?
    ensures exists twin :: twin in CompleteRows(market, server).value && RowKey(market, twin) == RowKey(market, row)
  {
    hide KisEndsAt, KisRows, Validated, PassesValidation, RowKey;
    var served := Validated(market, server);
    KisEndsOnce(served, n);
    var all := KisRows(served, n + 1);
    var i :| 0 <= i < |all| && all[i] == row;
    var kept := FirstOccurrences(all, KeyOf(market));
    assert CompleteRows(market, server) == Some(kept);
    FirstOccurrencesKeepEveryKey(all, KeyOf(market));
    KeyOfRow(all, KeyOf(market), i);
    var j :| 0 <= j < |kept| && KeyOf(market)(kept[j]) == RowKey(market, row);
    assert kept[j] in kept;
  }
}
