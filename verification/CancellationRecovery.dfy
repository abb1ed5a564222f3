/** Closing a cancellation with an unknown outcome from complete reads of the broker's state. */
module CancellationRecovery {
  import opened Prelude
  import opened Text
  import opened KstTimestamp
  import opened TradeRecords
  import opened TradeRecordTable
  import opened OrderHistory
  import opened OrderMatcher
  import opened OrderProtocol

  datatype Rejection = WasRejected | NotRejected | RejectionUnknown

  /** `flag` is the separate `rejected === true`. */
  datatype Execution = Execution(
    orderNo: string, exchangeCode: Option<string>, stockCode: string, side: Side, orderDate: Option<string>,
    ordered: int, filled: int, remaining: int, rejection: Rejection, flag: bool)

  datatype OpenOrder = OpenOrder(
    orderNo: string, exchangeCode: Option<string>, stockCode: string, side: Side, quantity: int)

  function NormalizeExchange(market: Market, exchange: Option<string>): string {
    if market == Domestic then "KRX" else Upper(Trimmed(exchange))
  }

  predicate MatchesTuple(
    instrument: Instrument, row: Row, orderNo: string, exchange: Option<string>, stockCode: string, side: Side)
  {
    && row.orderNo.Some? && Trim(orderNo) == Trim(row.orderNo.value)
    && NormalizeExchange(instrument.market, exchange) == NormalizeExchange(instrument.market, Some(instrument.exchangeCode))
    && Upper(Trim(stockCode)) == Upper(Trim(instrument.stockCode))
    && side == instrument.side
  }

  predicate MatchesExecution(instrument: Instrument, row: Row, e: Execution) {
    && e.orderDate.Some? && row.orderDate == Some(Trim(e.orderDate.value))
    && MatchesTuple(instrument, row, e.orderNo, e.exchangeCode, e.stockCode, e.side)
    && e.ordered == row.quantity
  }

  predicate IsOpenOrder(instrument: Instrument, row: Row, o: OpenOrder) {
    MatchesTuple(instrument, row, o.orderNo, o.exchangeCode, o.stockCode, o.side) && 0 < o.quantity <= row.quantity
  }

  function MatchingExecutions(instrument: Instrument, row: Row, executions: seq<Execution>): seq<Execution> {
    if executions == [] then []
    else
      (if MatchesExecution(instrument, row, executions[0]) then [executions[0]] else [])
      + MatchingExecutions(instrument, row, executions[1..])
  }

  // ---------------------------------------------------------------------------
  // Aggregation
  // ---------------------------------------------------------------------------

  predicate IsUnambiguous(quantity: int, e: Execution) {
    && e.rejection == NotRejected && !e.flag
    && 0 <= e.filled <= quantity && 0 <= e.remaining <= quantity
    && e.filled + e.remaining <= quantity
  }

  predicate AllUnambiguous(quantity: int, executions: seq<Execution>) {
    forall i :: 0 <= i < |executions| ==> IsUnambiguous(quantity, executions[i])
  }

  datatype Totals = Totals(filled: int, remaining: int)

  /** The most any row filled and the least any row left over. */
  ghost predicate IsAggregate(totals: Totals, executions: seq<Execution>) {
    && (exists e :: e in executions && e.filled == totals.filled)
    && (exists e :: e in executions && e.remaining == totals.remaining)
    && forall e :: e in executions ==> e.filled <= totals.filled && totals.remaining <= e.remaining
  }

  /** `None` when some row is rejected, unclear or inconsistent. */
  method AggregateExecutions(quantity: int, executions: seq<Execution>) returns (totals: Option<Totals>)
    requires executions != []
    ensures totals.Some? <==> AllUnambiguous(quantity, executions)
    ensures totals.Some? ==> IsAggregate(totals.value, executions)
  {
    for i := 0 to |executions|
      invariant AllUnambiguous(quantity, executions[..i])
    {
      if !IsUnambiguous(quantity, executions[i]) {
        return None;
      }
    }
    var aggregate := Totals(executions[0].filled, executions[0].remaining);
    for i := 1 to |executions|
      invariant IsAggregate(aggregate, executions[..i])
    {
      var e := executions[i];
      ghost var before := aggregate;
      aggregate := Totals(Max(aggregate.filled, e.filled), Min(aggregate.remaining, e.remaining));
      AggregateStep(before, executions[..i], e);
      assert executions[..i + 1] == executions[..i] + [e];
    }
    assert executions[..|executions|] == executions;
    totals := Some(aggregate);
  }

  lemma AggregateStep(totals: Totals, executions: seq<Execution>, e: Execution)
    requires IsAggregate(totals, executions)
    ensures IsAggregate(Totals(Max(totals.filled, e.filled), Min(totals.remaining, e.remaining)), executions + [e])
  {
    var all := executions + [e];
    var f :| f in executions && f.filled == totals.filled;
    var r :| r in executions && r.remaining == totals.remaining;
    assert f in all && r in all && e in all;
  }

  /** The totals keep the bound every single row keeps. */
  lemma TotalsKeepTheBound(quantity: int, executions: seq<Execution>, totals: Totals)
    requires AllUnambiguous(quantity, executions) && IsAggregate(totals, executions)
    ensures 0 <= totals.filled && 0 <= totals.remaining && totals.filled + totals.remaining <= quantity
  {
    var e :| e in executions && e.filled == totals.filled;
    assert totals.remaining <= e.remaining;
    var r :| r in executions && r.remaining == totals.remaining;
  }

  /** The totals do not depend on the order, or the repetition, of the rows. */
  lemma TotalsIgnoreOrder(executions: seq<Execution>, others: seq<Execution>, totals: Totals, totals': Totals)
    requires forall e :: e in executions <==> e in others
    requires IsAggregate(totals, executions) && IsAggregate(totals', others)
    ensures totals == totals'
  {
    var f :| f in executions && f.filled == totals.filled;
    var r :| r in executions && r.remaining == totals.remaining;
    var f' :| f' in others && f'.filled == totals'.filled;
    var r' :| r' in others && r'.remaining == totals'.remaining;
    assert f in others && r in others && f' in executions && r' in executions;
  }

  /** A validated KIS row of the record's quantity always passes the quantity checks of the aggregation. */
  lemma KisRowsAreUnambiguous(market: Market, history: HistoryRow, e: Execution)
    requires HasColumns(market, history)
    requires e.ordered == ToOrder(market, history).orderQuantity && e.filled == ToOrder(market, history).filledQuantity
    requires e.remaining == ToOrder(market, history).remainingQuantity
    ensures IsUnambiguous(e.ordered, e)
       <==> && e.rejection == NotRejected && !e.flag
            && !(market == Overseas && history.remaining.Whole? && history.remaining.n < 0)
  {
    hide ToOrder, HasColumns;
    QuantitiesAddUp(market, history);
  }

  // ---------------------------------------------------------------------------
  // The decision
  // ---------------------------------------------------------------------------

  predicate HasStoredIdentity(row: Row) {
    && Trimmed(row.orderNo) != "" && row.environment.Some? && Trimmed(row.accountHash) != ""
    && row.orderDate.Some? && PrintsBack(row.orderDate.value)
  }

  predicate InContext(row: Row, context: Context) {
    row.environment == Some(context.environment) && row.accountHash == Some(context.accountHash)
  }

  datatype Verdict = StillOpen | CannotTell | Closable(executed: int)

  /** What the broker's complete state proves about the order, if it proves anything. */
  ghost predicate IsVerdict(
    verdict: Verdict, instrument: Instrument, row: Row, executions: seq<Execution>, unfilled: seq<OpenOrder>)
  {
    var rows := MatchingExecutions(instrument, row, executions);
    var open := exists o :: o in unfilled && IsOpenOrder(instrument, row, o);
    match verdict
    case StillOpen => open && AllUnambiguous(row.quantity, rows)
    case Closable(executed) =>
      && !open && rows != [] && AllUnambiguous(row.quantity, rows)
      && row.Executed() <= executed
      && (exists e :: e in rows && e.filled == executed)
      && (forall e :: e in rows ==> e.filled <= executed)
    case CannotTell =>
      || !AllUnambiguous(row.quantity, rows)
      || (!open && rows == [])
      || (!open && forall e :: e in rows ==> e.filled < row.Executed())
  }

  method FindOpenOrder(instrument: Instrument, row: Row, unfilled: seq<OpenOrder>) returns (found: bool)
    ensures found <==> exists o :: o in unfilled && IsOpenOrder(instrument, row, o)
  {
    for i := 0 to |unfilled|
      invariant forall o :: o in unfilled[..i] ==> !IsOpenOrder(instrument, row, o)
    {
      if IsOpenOrder(instrument, row, unfilled[i]) {
        return true;
      }
    }
    return false;
  }

  method Judge(instrument: Instrument, row: Row, executions: seq<Execution>, unfilled: seq<OpenOrder>)
    returns (verdict: Verdict)
    ensures IsVerdict(verdict, instrument, row, executions, unfilled)
  {
    hide MatchingExecutions, IsOpenOrder, IsUnambiguous;
    var rows := MatchingExecutions(instrument, row, executions);
    var totals: Option<Totals> := None;
    if rows != [] {
      totals := AggregateExecutions(row.quantity, rows);
      if totals.None? { return CannotTell; }
      TotalsKeepTheBound(row.quantity, rows, totals.value);
    }
    var open := FindOpenOrder(instrument, row, unfilled);
    if open { return StillOpen; }
    if rows == [] { return CannotTell; }
    var executed := Min(row.quantity, totals.value.filled);
    if executed < row.Executed() { return CannotTell; }
    return Closable(executed);
  }

  /** The broker state proves one thing at most. */
  lemma VerdictIsUnique(
    v: Verdict, w: Verdict, instrument: Instrument, row: Row, executions: seq<Execution>, unfilled: seq<OpenOrder>)
    requires IsVerdict(v, instrument, row, executions, unfilled) && IsVerdict(w, instrument, row, executions, unfilled)
    ensures v == w
  {
    hide MatchingExecutions, IsOpenOrder, IsUnambiguous;
    var rows := MatchingExecutions(instrument, row, executions);
    if v.Closable? && w.Closable? {
      var e :| e in rows && e.filled == v.executed;
      var f :| f in rows && f.filled == w.executed;
    }
  }

  // ---------------------------------------------------------------------------
  // Whose rows decide
  // ---------------------------------------------------------------------------

  /** `exchange` is that of the record: at home every code is, abroad the same code, whatever its case. */
  predicate OnItsExchange(instrument: Instrument, exchange: Option<string>) {
    instrument.market == Domestic
    || Upper(Trim(instrument.exchangeCode)) == (if exchange.Some? then Upper(Trim(exchange.value)) else "")
  }

  /** An execution of the record's own order: its number, date, exchange, stock, side and quantity. */
  predicate IsOfRecord(instrument: Instrument, row: Row, e: Execution) {
    && row.orderNo.Some? && Trim(e.orderNo) == Trim(row.orderNo.value)
    && row.orderDate.Some? && e.orderDate.Some? && Trim(e.orderDate.value) == row.orderDate.value
    && OnItsExchange(instrument, e.exchangeCode)
    && Upper(Trim(e.stockCode)) == Upper(Trim(instrument.stockCode))
    && e.side == instrument.side && e.ordered == row.quantity
  }

  /** An open order that is the record's own: its number, exchange, stock and side, and no more than was ordered. */
  predicate IsRestOfRecord(instrument: Instrument, row: Row, o: OpenOrder) {
    && row.orderNo.Some? && Trim(o.orderNo) == Trim(row.orderNo.value)
    && OnItsExchange(instrument, o.exchangeCode)
    && Upper(Trim(o.stockCode)) == Upper(Trim(instrument.stockCode))
    && o.side == instrument.side && 0 < o.quantity <= row.quantity
  }

  lemma OnlyTheRecordsRowsMatch(instrument: Instrument, row: Row)
    ensures forall e :: MatchesExecution(instrument, row, e) <==> IsOfRecord(instrument, row, e)
    ensures forall o :: IsOpenOrder(instrument, row, o) <==> IsRestOfRecord(instrument, row, o)
  {
    hide Trim;
    assert Trim("") == "" && Upper("") == "" by { BlankStaysBlank(); }
  }

  lemma BlankStaysBlank()
    ensures Trim("") == "" && Upper("") == ""
  {
  }

  lemma {:induction false} MatchingAreOfRecord(instrument: Instrument, row: Row, executions: seq<Execution>)
    ensures forall e :: e in MatchingExecutions(instrument, row, executions) <==> e in executions && IsOfRecord(instrument, row, e)
  {
    OnlyTheRecordsRowsMatch(instrument, row);
    if executions != [] {
      hide MatchesExecution, IsOfRecord;
      MatchingAreOfRecord(instrument, row, executions[1..]);
    }
  }

  /** A row that can be relied on: not rejected, and quantities that fit the order. */
  predicate IsClear(quantity: int, e: Execution) {
    && e.rejection == NotRejected && !e.flag
    && 0 <= e.filled && 0 <= e.remaining && e.filled + e.remaining <= quantity
  }

  ghost predicate OwnRowsAreClear(instrument: Instrument, row: Row, executions: seq<Execution>) {
    forall e :: e in executions && IsOfRecord(instrument, row, e) ==> IsClear(row.quantity, e)
  }

  ghost predicate ListsTheRest(instrument: Instrument, row: Row, unfilled: seq<OpenOrder>) {
    exists o :: o in unfilled && IsRestOfRecord(instrument, row, o)
  }

  /** `executed` is the most fills any execution of the record's own order shows. */
  ghost predicate IsMostExecuted(executed: int, instrument: Instrument, row: Row, executions: seq<Execution>) {
    && (exists e :: e in executions && IsOfRecord(instrument, row, e) && e.filled == executed)
    && (forall e :: e in executions && IsOfRecord(instrument, row, e) ==> e.filled <= executed)
  }

  /**
   The two verdicts in full, from the record's own rows alone. Its order is still open exactly when it is
   among the open ones; it closes with `n` exactly when it is not, `n` is the most fills its executions
   show, and no fewer than are stored. Either way all of those executions have to be clear.
   */
  lemma VerdictsRestOnTheRecordsOrder(
    executed: int, instrument: Instrument, row: Row, executions: seq<Execution>, unfilled: seq<OpenOrder>)
    ensures IsVerdict(StillOpen, instrument, row, executions, unfilled)
       <==> OwnRowsAreClear(instrument, row, executions) && ListsTheRest(instrument, row, unfilled)
    ensures IsVerdict(Closable(executed), instrument, row, executions, unfilled)
       <==> && OwnRowsAreClear(instrument, row, executions) && !ListsTheRest(instrument, row, unfilled)
            && IsMostExecuted(executed, instrument, row, executions) && row.Executed() <= executed
  {
    hide MatchingExecutions, IsOpenOrder, IsOfRecord, IsRestOfRecord, IsUnambiguous, IsClear;
    OnlyTheRecordsRowsMatch(instrument, row);
    MatchingAreOfRecord(instrument, row, executions);
    var rows := MatchingExecutions(instrument, row, executions);
    assert AllUnambiguous(row.quantity, rows) <==> OwnRowsAreClear(instrument, row, executions) by {
      ClearExactlyWhen(row.quantity);
      assert AllUnambiguous(row.quantity, rows) <==> forall e :: e in rows ==> IsUnambiguous(row.quantity, e);
    }
    assert ListsTheRest(instrument, row, unfilled) <==> exists o :: o in unfilled && IsOpenOrder(instrument, row, o);
    if e :| e in executions && IsOfRecord(instrument, row, e) && e.filled == executed {
      assert e in rows;
    }
  }

  lemma ClearExactlyWhen(quantity: int)
    ensures forall e :: IsUnambiguous(quantity, e) <==> IsClear(quantity, e)
  {
  }

  /** Rows of other orders change nothing: what a read proves depends on the record's own rows alone. */
  lemma OtherOrdersDoNotCount(
    verdict: Verdict, instrument: Instrument, row: Row, executions: seq<Execution>, executions': seq<Execution>,
    unfilled: seq<OpenOrder>, unfilled': seq<OpenOrder>)
    requires forall e :: IsOfRecord(instrument, row, e) ==> (e in executions <==> e in executions')
    requires forall o :: IsRestOfRecord(instrument, row, o) ==> (o in unfilled <==> o in unfilled')
    requires IsVerdict(verdict, instrument, row, executions, unfilled)
    ensures IsVerdict(verdict, instrument, row, executions', unfilled')
  {
    hide MatchingExecutions, IsOpenOrder, IsOfRecord, IsRestOfRecord, IsUnambiguous;
    OnlyTheRecordsRowsMatch(instrument, row);
    MatchingAreOfRecord(instrument, row, executions);
    MatchingAreOfRecord(instrument, row, executions');
    var rows, rows' := MatchingExecutions(instrument, row, executions), MatchingExecutions(instrument, row, executions');
    assert forall e :: e in rows <==> e in rows';
    SameRowsSameClarity(row.quantity, rows, rows');
    assert rows == [] <==> rows' == [] by {
      if rows != [] { assert rows[0] in rows'; }
      if rows' != [] { assert rows'[0] in rows; }
    }
    assert (exists o :: o in unfilled && IsOpenOrder(instrument, row, o)) <==> (exists o :: o in unfilled' && IsOpenOrder(instrument, row, o));
  }

  lemma SameRowsSameClarity(quantity: int, rows: seq<Execution>, rows': seq<Execution>)
    requires forall e :: e in rows <==> e in rows'
    ensures AllUnambiguous(quantity, rows) <==> AllUnambiguous(quantity, rows')
  {
    hide IsUnambiguous;
    assert AllUnambiguous(quantity, rows) <==> forall e :: e in rows ==> IsUnambiguous(quantity, e);
    assert AllUnambiguous(quantity, rows') <==> forall e :: e in rows' ==> IsUnambiguous(quantity, e);
  }

  /** A closure never lowers the executed quantity it was computed from and never exceeds the order. */
  lemma ClosureIsBounded(
    executed: int, instrument: Instrument, row: Row, executions: seq<Execution>, unfilled: seq<OpenOrder>)
    requires IsVerdict(Closable(executed), instrument, row, executions, unfilled)
    ensures 0 <= executed && row.Executed() <= executed <= row.quantity
    ensures var closed := Closed(row, row.quantity, executed);
            && closed.Executed() == executed
            && (closed.status == Filled <==> executed == row.quantity)
            && (closed.status == Cancelled <==> executed == 0 && executed < row.quantity)
            && (closed.status == Partial <==> 0 < executed < row.quantity)
            && closed.Terminal()
  {
    hide MatchingExecutions, IsOpenOrder;
    var rows := MatchingExecutions(instrument, row, executions);
    var e :| e in rows && e.filled == executed;
    var i :| 0 <= i < |rows| && rows[i] == e;
    assert IsUnambiguous(row.quantity, rows[i]);
  }

  /** Whatever an inspection decides is one of the steps the lifecycle allows an operator. */
  lemma InspectionsAreDeeds(
    phase: Phase, seen: set<Row>, executed: int,
    instrument: Instrument, row: Row, executions: seq<Execution>, unfilled: seq<OpenOrder>)
    requires row in seen && IsUnknownCancellation(row)
    requires IsVerdict(Closable(executed), instrument, row, executions, unfilled)
    ensures CanDo(phase, seen, OperatorClose(row, executed))
  {
    hide IsVerdict, Closed;
    ClosureIsBounded(executed, instrument, row, executions, unfilled);
  }

  // ---------------------------------------------------------------------------
  // The two operations
  // ---------------------------------------------------------------------------

  datatype BrokerState = BrokerState(executions: seq<Execution>, unfilled: seq<OpenOrder>)

  predicate MayInspect(loaded: Row, current: Context, later: Context) {
    IsUnknownCancellation(loaded) && HasStoredIdentity(loaded) && InContext(loaded, current) && InContext(loaded, later)
  }

  /** A record to inspect: open at the broker of the account in use, with its number and a real date, its cancellation unknown. */
  predicate IsInspectable(loaded: Row, current: Context, later: Context) {
    && (loaded.status == Pending || loaded.status == Partial) && loaded.cancellation == Some(CancelUnknown)
    && loaded.orderNo.Some? && !IsBlank(loaded.orderNo.value)
    && loaded.orderDate.Some? && IsCalendarDate(loaded.orderDate.value)
    && loaded.environment == Some(current.environment) && loaded.accountHash == Some(current.accountHash)
    && !IsBlank(current.accountHash) && later == current
  }

  lemma InspectableExactlyWhen(loaded: Row, current: Context, later: Context)
    ensures MayInspect(loaded, current, later) <==> IsInspectable(loaded, current, later)
  {
    hide IsBlank, Trim, PrintsBack, IsCalendarDate;
    BlankExactlyWhen(current.accountHash);
    if loaded.orderNo.Some? {
      BlankExactlyWhen(loaded.orderNo.value);
    }
    if loaded.orderDate.Some? {
      DatesThatPrintBack(loaded.orderDate.value);
    }
  }

  datatype Inspection = LeftOpen | Reconciled | Failure

  /**
   `loaded` is the row read first, `broker` the complete state read after it (`None` when a read
   failed), `later` the broker context after the reads, and the table is the one the transaction finds.
   */
  method InspectCancellation(
    table: Table, id: RecordId, loaded: Row, instrument: Instrument, current: Context, later: Context,
    broker: Option<BrokerState>)
    returns (outcome: Inspection, ghost verdict: Verdict)
    modifies table
    ensures broker.Some? ==> IsVerdict(verdict, instrument, loaded, broker.value.executions, broker.value.unfilled)
    ensures outcome == Reconciled
       <==> && IsInspectable(loaded, current, later) && broker.Some? && verdict.Closable?
            && id in old(table.rows) && CancellationCas(old(table.rows)[id], loaded)
    ensures outcome == LeftOpen
       <==> IsInspectable(loaded, current, later) && broker.Some? && verdict.StillOpen?
    ensures table.View() == if outcome == Reconciled then
                              old(table.View()).UpdateMany(id, row => CloseCancellation(id, row, loaded, verdict.executed))
                            else old(table.View())
  {
    hide IsVerdict, HasStoredIdentity, InContext, IsInspectable, MayInspect;
    InspectableExactlyWhen(loaded, current, later);
    verdict := CannotTell;
    var judged := CannotTell;
    if broker.Some? {
      judged := Judge(instrument, loaded, broker.value.executions, broker.value.unfilled);
      verdict := judged;
    }
    if !MayInspect(loaded, current, later) || broker.None? || judged.CannotTell? { return Failure, verdict; }
    if judged.StillOpen? { return LeftOpen, verdict; }
    if id !in table.rows { return Failure, verdict; }
    var count := table.Apply(id, CloseCancellation(id, table.rows[id], loaded, judged.executed));
    outcome := if count == 1 then Reconciled else Failure;
  }

  /** The same reads, but only an order that is still open lets the cancellation be marked not accepted. */
  method ConfirmNotAccepted(
    table: Table, id: RecordId, loaded: Row, instrument: Instrument, current: Context, later: Context,
    broker: Option<BrokerState>)
    returns (confirmed: bool)
    modifies table
    ensures confirmed
       <==> && IsInspectable(loaded, current, later) && broker.Some?
            && IsVerdict(StillOpen, instrument, loaded, broker.value.executions, broker.value.unfilled)
            && id in old(table.rows) && CancellationCas(old(table.rows)[id], loaded)
    ensures table.View() == if confirmed then
                              old(table.View()).UpdateMany(id, row => ConfirmCancellationNotAccepted(id, row, loaded))
                            else old(table.View())
  {
    hide IsVerdict, HasStoredIdentity, InContext, IsInspectable, MayInspect;
    InspectableExactlyWhen(loaded, current, later);
    if !MayInspect(loaded, current, later) || broker.None? { return false; }
    var verdict := Judge(instrument, loaded, broker.value.executions, broker.value.unfilled);
    if !verdict.StillOpen? {
      NotStillOpen(verdict, instrument, loaded, broker.value);
      return false;
    }
    if id !in table.rows { return false; }
    var count := table.Apply(id, ConfirmCancellationNotAccepted(id, table.rows[id], loaded));
    confirmed := count == 1;
  }

  lemma NotStillOpen(verdict: Verdict, instrument: Instrument, row: Row, broker: BrokerState)
    requires IsVerdict(verdict, instrument, row, broker.executions, broker.unfilled) && !verdict.StillOpen?
    ensures !IsVerdict(StillOpen, instrument, row, broker.executions, broker.unfilled)
  {
    hide IsVerdict;
    if IsVerdict(StillOpen, instrument, row, broker.executions, broker.unfilled) {
      VerdictIsUnique(verdict, StillOpen, instrument, row, broker.executions, broker.unfilled);
    }
  }
}
