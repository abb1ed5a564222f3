/** Finding the broker orders that an order submission with an unknown outcome may have become. */
module OrderMatcher {
  import opened Prelude
  import opened Text
  import opened Calendar
  import opened KstTimestamp
  import opened Identity
  import opened TradeRecords
  import opened OrderHistory

  const TEN_MINUTES_MS: int := 10 * 60 * 1000

  datatype MatchRequest = MatchRequest(
    market: Market, exchangeCode: string, stockCode: string, side: Side, quantity: int,
    submittedAt: Option<int>, environment: Option<Environment>, accountHash: Option<string>)

  /** The broker account the process is configured for. */
  datatype Context = Context(environment: Environment, accountHash: string)

  datatype Candidate = Candidate(
    orderNo: string, stockCode: string, side: Side, orderQuantity: int, filledQuantity: int, remainingQuantity: int,
    exchangeCode: string, orderDate: string, orderTime: string)

  /** The columns of a record that never change. */
  datatype Instrument = Instrument(market: Market, exchangeCode: string, stockCode: string, side: Side)

  function ToMatchRequest(instrument: Instrument, row: Row): MatchRequest {
    MatchRequest(instrument.market, instrument.exchangeCode, instrument.stockCode, instrument.side, row.quantity,
                 row.submissionStartedAt, row.environment, row.accountHash)
  }

  datatype MatchError = WrongContext | NoSubmissionTime | HistoryFailed

  predicate IsCurrentContext(request: MatchRequest, current: Context) {
    && request.environment == Some(current.environment)
    && request.accountHash == Some(current.accountHash)
    && Trim(current.accountHash) != ""
  }

  /** The request is for an order of the account in use, and that account is known. */
  predicate IsAccountOf(request: MatchRequest, current: Context) {
    && request.environment.Some? && request.environment.value == current.environment
    && request.accountHash.Some? && request.accountHash.value == current.accountHash
    && !IsBlank(current.accountHash)
  }

  lemma ContextIsOfTheAccount(request: MatchRequest, current: Context)
    ensures IsCurrentContext(request, current) <==> IsAccountOf(request, current)
  {
    BlankExactlyWhen(current.accountHash);
  }

  function Trimmed(value: Option<string>): string {
    if value.None? then "" else Trim(value.value)
  }

  function ExpectedExchange(request: MatchRequest): string {
    if request.market == Domestic then "KRX" else Upper(Trim(request.exchangeCode))
  }

  function OrderExchange(order: BrokerOrder, market: Market): string {
    if market == Domestic then "KRX" else Upper(Trimmed(order.exchangeCode))
  }

  predicate InWindow(order: BrokerOrder, submittedAt: int) {
    var parsed := ParseKstTimestamp(Trimmed(order.orderDate), Trimmed(order.orderTime));
    parsed.Some? && submittedAt - TEN_MINUTES_MS <= parsed.value <= submittedAt + TEN_MINUTES_MS
  }

  predicate SameStock(order: BrokerOrder, request: MatchRequest) {
    order.stockCode.Some? && Upper(Trim(order.stockCode.value)) == Upper(Trim(request.stockCode))
  }

  /** `normalizeCandidate`. */
  function NormalizeCandidate(order: BrokerOrder, request: MatchRequest, submittedAt: int): Option<Candidate> {
    var orderNo, orderDate, orderTime := Trimmed(order.orderNo), Trimmed(order.orderDate), Trimmed(order.orderTime);
    if orderNo == "" || orderDate == "" || orderTime == "" then None
    else if !InWindow(order, submittedAt) then None
    else if OrderExchange(order, request.market) == ""
            || OrderExchange(order, request.market) != ExpectedExchange(request) then None
    else if !SameStock(order, request) then None
    else if order.side != request.side || order.orderQuantity != request.quantity then None
    else
      Some(Candidate(orderNo, Upper(Trim(order.stockCode.value)), order.side, order.orderQuantity,
                     order.filledQuantity, order.remainingQuantity, OrderExchange(order, request.market),
                     orderDate, orderTime))
  }

  /** `orders` with everything that is no candidate left out. */
  function Normalized(orders: seq<BrokerOrder>, request: MatchRequest, submittedAt: int): seq<Candidate> {
    if orders == [] then []
    else
      var last := NormalizeCandidate(orders[|orders| - 1], request, submittedAt);
      Normalized(orders[..|orders| - 1], request, submittedAt) + if last.Some? then [last.value] else []
  }

  function CandidateKey(candidate: Candidate): string {
    JoinKey(candidate.orderDate, candidate.exchangeCode, candidate.orderNo)
  }

  /** The range the broker is asked for. */
  function WindowStart(submittedAt: int): string {
    FormatKstDate(submittedAt - TEN_MINUTES_MS)
  }

  function WindowEnd(submittedAt: int): string {
    FormatKstDate(submittedAt + TEN_MINUTES_MS)
  }

  /** What the broker's complete history of the window holds, if it can be read. */
  ghost function WindowOrders(request: MatchRequest, endpoint: Endpoint): Option<seq<BrokerOrder>>
    requires request.submittedAt.Some?
  {
    HistoryRead(request.market, endpoint, WindowStart(request.submittedAt.value), WindowEnd(request.submittedAt.value))
  }

  method FindSubmissionCandidates(request: MatchRequest, current: Context, endpoint: Endpoint)
    returns (result: Result<seq<Candidate>, MatchError>)
    ensures result.Ok?
       <==> IsAccountOf(request, current) && request.submittedAt.Some? && WindowOrders(request, endpoint).Some?
    ensures result.Ok? ==>
              var orders := WindowOrders(request, endpoint).value;
              result.value == FirstOccurrences(Normalized(orders, request, request.submittedAt.value), CandidateKey)
  {
    hide NormalizeCandidate, FirstOccurrences, KeysOf, FormatKstDate, Trim, HistoryRead;
    ContextIsOfTheAccount(request, current);
    if !IsCurrentContext(request, current) { return Err(WrongContext); }
    if request.submittedAt.None? { return Err(NoSubmissionTime); }
    var submittedAt := request.submittedAt.value;
    var read := GetOrderExecutions(request.market, endpoint, WindowStart(submittedAt), WindowEnd(submittedAt));
    if read.Err? { return Err(HistoryFailed); }
    var orders := read.value;

    var candidates: seq<Candidate>, identities: set<string> := [], {};
    NoCandidates();
    for i := 0 to |orders|
      invariant candidates == FirstOccurrences(Normalized(orders[..i], request, submittedAt), CandidateKey)
      invariant identities == KeysOf(Normalized(orders[..i], request, submittedAt), CandidateKey)
    {
      ghost var before := Normalized(orders[..i], request, submittedAt);
      assert orders[..i + 1][..i] == orders[..i];
      var candidate := NormalizeCandidate(orders[i], request, submittedAt);
      if candidate.Some? {
        FirstOccurrencesAppend(before, candidate.value, CandidateKey);
        KeysOfAppend(before, candidate.value, CandidateKey);
        if CandidateKey(candidate.value) !in identities {
          candidates := candidates + [candidate.value];
          identities := identities + {CandidateKey(candidate.value)};
        }
      } else {
        assert before + [] == before;
      }
    }
    assert orders[..|orders|] == orders;
    result := Ok(candidates);
  }

  lemma NoCandidates()
    ensures FirstOccurrences<Candidate, string>([], CandidateKey) == []
    ensures KeysOf<Candidate, string>([], CandidateKey) == {}
  {
  }

  // ---------------------------------------------------------------------------
  // Nothing that matches is overlooked
  // ---------------------------------------------------------------------------

  predicate Matches(order: BrokerOrder, request: MatchRequest) {
    request.submittedAt.Some? && NormalizeCandidate(order, request, request.submittedAt.value).Some?
  }

  /** An order fits a request: column by column, and stamped within ten minutes of the submission. */
  predicate Fits(order: BrokerOrder, request: MatchRequest) {
    && request.submittedAt.Some?
    && order.orderNo.Some? && Trim(order.orderNo.value) != ""
    && order.orderDate.Some? && order.orderTime.Some?
    && (var stamp := ParseKstTimestamp(Trim(order.orderDate.value), Trim(order.orderTime.value));
        stamp.Some? && -600_000 <= stamp.value - request.submittedAt.value <= 600_000)
    && (request.market == Overseas ==>
          && order.exchangeCode.Some? && Trim(order.exchangeCode.value) != ""
          && Upper(Trim(order.exchangeCode.value)) == Upper(Trim(request.exchangeCode)))
    && order.stockCode.Some? && Upper(Trim(order.stockCode.value)) == Upper(Trim(request.stockCode))
    && order.side == request.side && order.orderQuantity == request.quantity
  }

  /** The candidate made of an order that fits: its own columns, trimmed and, for codes, in upper case. */
  function CandidateOf(order: BrokerOrder, request: MatchRequest): Candidate
    requires Fits(order, request)
  {
    Candidate(
      Trim(order.orderNo.value), Upper(Trim(request.stockCode)), request.side, request.quantity,
      order.filledQuantity, order.remainingQuantity,
      if request.market == Domestic then "KRX" else Upper(Trim(request.exchangeCode)),
      Trim(order.orderDate.value), Trim(order.orderTime.value))
  }

  /** Exactly the orders that fit match, and become that candidate. */
  lemma MatchesExactlyWhenItFits(order: BrokerOrder, request: MatchRequest)
    ensures Matches(order, request) <==> Fits(order, request)
    ensures Fits(order, request) ==>
              NormalizeCandidate(order, request, request.submittedAt.value) == Some(CandidateOf(order, request))
  {
    hide ParseKstTimestamp, Trim;
    assert ParseKstTimestamp("", Trimmed(order.orderTime)).None? && ParseKstTimestamp(Trimmed(order.orderDate), "").None? by {
      BlankStampsDoNotParse(Trimmed(order.orderDate), Trimmed(order.orderTime));
    }
    if order.exchangeCode.Some? {
      assert |Upper(Trim(order.exchangeCode.value))| == |Trim(order.exchangeCode.value)|;
    }
  }

  lemma BlankStampsDoNotParse(date: string, time: string)
    ensures ParseKstTimestamp("", time).None? && ParseKstTimestamp(date, "").None?
  {
    hide ParseKstTimestamp, IsTime;
    ParserAcceptsExactlyRealTimes("", time);
    ParserAcceptsExactlyRealTimes(date, "");
    assert !IsTime("") by { NoTimeIsBlank(); }
  }

  lemma NoTimeIsBlank()
    ensures !IsTime("")
  {
  }

  lemma {:induction false} NormalizedHas(orders: seq<BrokerOrder>, request: MatchRequest, submittedAt: int)
    ensures forall order :: order in orders && NormalizeCandidate(order, request, submittedAt).Some? ==>
              NormalizeCandidate(order, request, submittedAt).value in Normalized(orders, request, submittedAt)
    ensures forall candidate :: candidate in Normalized(orders, request, submittedAt) ==>
              exists order :: order in orders && NormalizeCandidate(order, request, submittedAt) == Some(candidate)
  {
    hide NormalizeCandidate;
    if orders != [] {
      var n := |orders| - 1;
      NormalizedHas(orders[..n], request, submittedAt);
      assert forall order :: order in orders ==> order in orders[..n] || order == orders[n];
      assert orders[n] in orders;
    }
  }

  /** The list of candidates is empty exactly when no order matches. */
  lemma EmptyExactlyWhenNothingMatches(orders: seq<BrokerOrder>, request: MatchRequest)
    requires request.submittedAt.Some?
    ensures FirstOccurrences(Normalized(orders, request, request.submittedAt.value), CandidateKey) == []
       <==> forall order :: order in orders ==> !Matches(order, request)
  {
    hide NormalizeCandidate, FirstOccurrences, KeysOf;
    var candidates := Normalized(orders, request, request.submittedAt.value);
    var kept := FirstOccurrences(candidates, CandidateKey);
    NormalizedHas(orders, request, request.submittedAt.value);
    FirstOccurrencesKeepEveryKey(candidates, CandidateKey);
    if candidates != [] {
      KeyOfRow(candidates, CandidateKey, 0);
      assert kept == [] ==> KeysOf(kept, CandidateKey) == {} by { NoCandidates(); }
      assert candidates[0] in candidates;
    } else {
      assert kept == [] by { NoCandidates(); }
    }
  }

  /** Every candidate carries a date the calendar knows, which is what later checks on it rely on. */
  lemma CandidatesHaveRealDates(orders: seq<BrokerOrder>, request: MatchRequest, submittedAt: int)
    ensures forall c :: c in FirstOccurrences(Normalized(orders, request, submittedAt), CandidateKey) ==>
              IsCalendarDate(c.orderDate) && IsTime(c.orderTime)
  {
    hide NormalizeCandidate, FirstOccurrences, IsCalendarDate, IsTime;
    var candidates := Normalized(orders, request, submittedAt);
    FirstOccurrencesKeepEveryKey(candidates, CandidateKey);
    NormalizedHas(orders, request, submittedAt);
    forall c | c in candidates
      ensures IsCalendarDate(c.orderDate) && IsTime(c.orderTime)
    {
      var order :| order in orders && NormalizeCandidate(order, request, submittedAt) == Some(c);
      CandidateHasRealDate(order, request, submittedAt);
    }
  }

  lemma CandidateHasRealDate(order: BrokerOrder, request: MatchRequest, submittedAt: int)
    requires NormalizeCandidate(order, request, submittedAt).Some?
    ensures var c := NormalizeCandidate(order, request, submittedAt).value;
            IsCalendarDate(c.orderDate) && IsTime(c.orderTime)
  {
    hide ParseKstTimestamp, IsCalendarDate, IsTime, Trim;
    ParsedDatesAreReal(Trimmed(order.orderDate), Trimmed(order.orderTime));
  }

  /** Two candidates of one request have the same key exactly when date and order number agree. */
  lemma KeysIdentify(a: Candidate, b: Candidate)
    requires |a.orderDate| == |b.orderDate| && a.exchangeCode == b.exchangeCode
    ensures CandidateKey(a) == CandidateKey(b) <==> a.orderDate == b.orderDate && a.orderNo == b.orderNo
  {
    if CandidateKey(a) == CandidateKey(b) {
      JoinKeepsParts(a.orderDate, b.orderDate, a.exchangeCode, b.exchangeCode, a.orderNo, b.orderNo);
    }
  }

  /**
   Asking only for the days of the window loses nothing: every order stamped within ten minutes of
   the submission is dated between the two days, as strings and as days.
   */
  lemma WindowCoversMatches(date: string, time: string, submittedAt: int)
    requires 0 <= KstYear(submittedAt - TEN_MINUTES_MS) && KstYear(submittedAt + TEN_MINUTES_MS) <= 9999
    requires ParseKstTimestamp(date, time).Some?
    requires Abs(ParseKstTimestamp(date, time).value - submittedAt) <= TEN_MINUTES_MS
    ensures !LexLess(date, WindowStart(submittedAt)) && !LexLess(WindowEnd(submittedAt), date)
    ensures IsKisDate(date)
    ensures var day := (submittedAt - TEN_MINUTES_MS + KST_OFFSET_MS) / MS_PER_DAY;
            day <= ReadDay(date) <= (submittedAt + TEN_MINUTES_MS + KST_OFFSET_MS) / MS_PER_DAY
  {
    hide DateOf, CompactDate, DayOf, IsTime, MsOfTime, ReadDay, IsKisDate, IsCalendarDate, ParseKstTimestamp;
    var from, ms, to := submittedAt - TEN_MINUTES_MS, ParseKstTimestamp(date, time).value, submittedAt + TEN_MINUTES_MS;
    ParseThenFormat(date, time);
    ParsedDatesAreReal(date, time);
    ShapesOfStamps(date, time);
    KisDatesAreCalendarDates(date);
    DaysFollow(from + KST_OFFSET_MS, ms + KST_OFFSET_MS);
    DaysFollow(ms + KST_OFFSET_MS, to + KST_OFFSET_MS);
    YearsFollowInstants(from, ms);
    YearsFollowInstants(ms, to);
    PrintedDatesSort((ms + KST_OFFSET_MS) / MS_PER_DAY, (from + KST_OFFSET_MS) / MS_PER_DAY);
    PrintedDatesSort((to + KST_OFFSET_MS) / MS_PER_DAY, (ms + KST_OFFSET_MS) / MS_PER_DAY);
    ParsedDay(date, time);
  }

  lemma DaysFollow(a: int, b: int)
    requires a <= b
    ensures a / MS_PER_DAY <= b / MS_PER_DAY
  {
  }

  /** The Korean day of a parsed stamp is the day its date names. */
  lemma ParsedDay(date: string, time: string)
    requires ParseKstTimestamp(date, time).Some?
    ensures |date| == 8 && AllDigits(date)
    ensures (ParseKstTimestamp(date, time).value + KST_OFFSET_MS) / MS_PER_DAY == ReadDay(date)
  {
    hide DateOf, CompactDate, CompactTime, MakeDay, Value, MsOfTime, IsTime, IsCalendarDate, ParseKstTimestamp;
    ParsedDatesAreReal(date, time);
    ShapesOfStamps(date, time);
    RealTimesParse(date, time);
    TimeInDay(time);
    KisDateDay(date);
    DayAndRest(ReadDay(date), MsOfTime(time));
  }
}
