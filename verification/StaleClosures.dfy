/**
 Closing a cancellation from reads that are not of one moment: what the broker's order does between
 the two reads, and what other writers do between the load and the commit.
 */
module StaleClosures {
  import opened Prelude
  import opened Text
  import opened TradeRecords
  import opened OrderHistory
  import opened OrderMatcher
  import opened OrderProtocol
  import opened OrderSafety
  import opened OrderTheorems
  import opened CancellationRecovery

  // ---------------------------------------------------------------------------
  // Between the two reads
  // ---------------------------------------------------------------------------

  /** One order at the broker, at one moment. */
  datatype Moment = Moment(filled: int, open: bool)

  /** The order's life in time order: fills only grow, and an order that is over stays as it is. */
  ghost predicate IsLife(life: seq<Moment>, quantity: int) {
    && life != []
    && (forall i :: 0 <= i < |life| ==> 0 <= life[i].filled <= quantity)
    && (forall i, j :: 0 <= i <= j < |life| ==> life[i].filled <= life[j].filled && (!life[i].open ==> life[j] == life[i]))
  }

  /** The executions list the order, with what was filled at that moment. */
  ghost predicate ShowsExecutions(instrument: Instrument, row: Row, executions: seq<Execution>, moment: Moment) {
    var rows := MatchingExecutions(instrument, row, executions);
    rows != [] && forall e :: e in rows ==> e.filled == moment.filled
  }

  /** The open orders list the order exactly if it was open at that moment. */
  ghost predicate ShowsOpen(instrument: Instrument, row: Row, unfilled: seq<OpenOrder>, moment: Moment) {
    (exists o :: o in unfilled && IsOpenOrder(instrument, row, o)) <==> moment.open
  }

  /**
   How true a closure is: executions read at moment `e`, open orders at moment `u`. The closure never
   counts too much; it counts everything if and only if nothing was filled between the reads, which is
   certain when the open orders are read first. The service reads the executions first.
   */
  lemma ClosureIsTrueExactlyWhen(
    life: seq<Moment>, e: nat, u: nat, executed: int,
    instrument: Instrument, row: Row, executions: seq<Execution>, unfilled: seq<OpenOrder>)
    requires IsLife(life, row.quantity) && e < |life| && u < |life|
    requires ShowsExecutions(instrument, row, executions, life[e]) && ShowsOpen(instrument, row, unfilled, life[u])
    requires IsVerdict(Closable(executed), instrument, row, executions, unfilled)
    ensures executed == life[e].filled <= life[|life| - 1].filled == life[u].filled
    ensures executed == life[|life| - 1].filled <==> life[e].filled == life[u].filled
    ensures u <= e ==> executed == life[|life| - 1].filled
  {
    hide MatchingExecutions, IsOpenOrder, IsUnambiguous;
    var rows := MatchingExecutions(instrument, row, executions);
    var x :| x in rows && x.filled == executed;
  }

  /** The broker's rows of the record's order. */
  function ExecutionOf(instrument: Instrument, row: Row, filled: int): Execution
    requires row.orderNo.Some? && row.orderDate.Some?
  {
    Execution(row.orderNo.value, Some(instrument.exchangeCode), instrument.stockCode, instrument.side, row.orderDate,
              row.quantity, filled, row.quantity - filled, NotRejected, false)
  }

  function OpenOrderOf(instrument: Instrument, row: Row, rest: int): OpenOrder
    requires row.orderNo.Some?
  {
    OpenOrder(row.orderNo.value, Some(instrument.exchangeCode), instrument.stockCode, instrument.side, rest)
  }

  predicate HasTrimmedDate(row: Row) {
    row.orderNo.Some? && row.orderDate.Some? && Trim(row.orderDate.value) == row.orderDate.value
  }

  /** What such rows prove: still open while the order is listed, closable at their figure once it is not. */
  lemma RowsProve(instrument: Instrument, row: Row, filled: int)
    requires HasTrimmedDate(row) && 0 <= row.Executed() <= filled < row.quantity
    ensures var executions, listed := [ExecutionOf(instrument, row, filled)], [OpenOrderOf(instrument, row, row.quantity - filled)];
            && ShowsExecutions(instrument, row, executions, Moment(filled, true))
            && ShowsOpen(instrument, row, listed, Moment(filled, true))
            && IsVerdict(StillOpen, instrument, row, executions, listed)
            && IsVerdict(Closable(filled), instrument, row, executions, [])
            && forall more :: ShowsOpen(instrument, row, [], Moment(more, false))
  {
    hide NormalizeExchange, Trim, Upper;
    var execution, open := ExecutionOf(instrument, row, filled), OpenOrderOf(instrument, row, row.quantity - filled);
    assert MatchesExecution(instrument, row, execution);
    assert [execution][1..] == [] && MatchingExecutions(instrument, row, [execution]) == [execution];
    assert open in [open] && IsOpenOrder(instrument, row, open);
    assert execution in [execution];
  }

  /**
   A fill between the two reads is lost for good, whatever it is: the executions still show `filled`, the
   order then fills to `final` and is over, the open orders no longer list it, and the closure stores
   `filled` in a row nobody writes again.
   */
  lemma AFillBetweenTheReadsIsLost(instrument: Instrument, row: Row, filled: int, final: int)
    requires HasTrimmedDate(row) && 0 <= row.Executed() <= filled < final <= row.quantity
    ensures var life, executions := [Moment(filled, true), Moment(final, false)], [ExecutionOf(instrument, row, filled)];
            && IsLife(life, row.quantity)
            && ShowsExecutions(instrument, row, executions, life[0]) && ShowsOpen(instrument, row, [], life[1])
            && IsVerdict(Closable(filled), instrument, row, executions, [])
    ensures var closed := Closed(row, row.quantity, filled);
            closed.Terminal() && closed.Executed() == filled < final
  {
    hide IsVerdict, ShowsExecutions, ShowsOpen;
    RowsProve(instrument, row, filled);
  }

  // ---------------------------------------------------------------------------
  // Between the load and the commit
  // ---------------------------------------------------------------------------

  /** The part of a state the interleaving needs: one row, one handler, and what `first` the row has been. */
  ghost predicate At(s: State, id: RecordId, row: Row, h: HandlerId, handler: Option<Handler>, first: Row) {
    && s.phase == Serving
    && Known(s, id)
    && s.db.rows[id] == row
    && row in s.journals[id].seen && first in s.journals[id].seen
    && (if handler.Some? then h in s.handlers && s.handlers[h] == handler.value && handler.value.id == id
        else h !in s.handlers)
  }

  lemma DeedStep(s: State, id: RecordId, row: Row, h: HandlerId, handler: Option<Handler>, first: Row, deed: Deed)
    requires At(s, id, row, h, handler, first) && CanDo(Serving, s.journals[id].seen, deed)
    requires OutsideEffect(id, row, s.journals[id], deed).change.Commit?
    ensures Enabled(s, Outside(id, deed))
    ensures At(Next(s, Outside(id, deed)), id, OutsideEffect(id, row, s.journals[id], deed).change.row, h, handler, first)
  {
    hide OutsideEffect;
    var effect := OutsideEffect(id, row, s.journals[id], deed);
    assert effect.journal.seen == s.journals[id].seen by { DeedKeepsSeen(id, row, s.journals[id], deed); }
  }

  lemma DeedKeepsSeen(id: RecordId, row: Row, j: Journal, deed: Deed)
    ensures OutsideEffect(id, row, j, deed).journal.seen == j.seen
  {
  }

  lemma MoveKeepsSeen(h: HandlerId, handler: Handler, row: Row, j: Journal, move: Move)
    requires CanMake(handler, row, move)
    ensures HandlerEffect(h, handler, row, j, move).journal.seen == j.seen
  {
  }

  lemma MoveStep(s: State, id: RecordId, row: Row, h: HandlerId, handler: Handler, first: Row, move: Move)
    requires At(s, id, row, h, Some(handler), first) && CanMake(handler, row, move)
    ensures Enabled(s, ByHandler(h, move))
    ensures var effect := HandlerEffect(h, handler, row, s.journals[id], move);
            effect.handler.Some? ==> effect.handler.value.id == id ==>
              At(Next(s, ByHandler(h, move)), id, After(row, effect.change), h, effect.handler, first)
    ensures var effect := HandlerEffect(h, handler, row, s.journals[id], move);
            effect.handler.None? ==> At(Next(s, ByHandler(h, move)), id, After(row, effect.change), h, None, first)
  {
    hide HandlerEffect;
    MoveKeepsSeen(h, handler, row, s.journals[id], move);
  }

  /** The operator's decisions in a step are what some complete reads of the broker prove. */
  ghost predicate IsBacked(instrument: Instrument, step: Step) {
    step.Outside? ==>
      match step.deed
      case OperatorNotAccepted(loaded) =>
        exists executions, unfilled :: IsVerdict(StillOpen, instrument, loaded, executions, unfilled)
      case OperatorClose(loaded, executed) =>
        exists executions, unfilled :: IsVerdict(Closable(executed), instrument, loaded, executions, unfilled)
      case _ => true
  }

  ghost predicate AllBacked(instrument: Instrument, steps: seq<Step>) {
    forall step :: step in steps ==> IsBacked(instrument, step)
  }

  /** Some schedule from an empty table, with every operator's decision backed by reads, ends here. */
  ghost predicate IsReached(instrument: Instrument, s: State) {
    exists steps :: AllBacked(instrument, steps) && Reached(steps) == s
  }

  lemma ReachedOn(instrument: Instrument, s: State, step: Step)
    requires IsReached(instrument, s) && Enabled(s, step) && IsBacked(instrument, step)
    ensures IsReached(instrument, Next(s, step))
  {
    hide IsBacked, Next, Enabled;
    var steps :| AllBacked(instrument, steps) && Reached(steps) == s;
    assert (steps + [step])[..|steps|] == steps;
    assert AllBacked(instrument, steps + [step]) && Reached(steps + [step]) == Next(s, step);
  }

  lemma ReachedAtFirst(instrument: Instrument)
    ensures IsReached(instrument, Init())
  {
    assert AllBacked(instrument, []) && Reached([]) == Init();
  }

  /** A handler claims, verifies and sends a cancellation whose outcome stays unclear. */
  lemma UnclearCancellation(instrument: Instrument, t: State, id: RecordId, row: Row, h: HandlerId, first: Row) returns (u: State)
    requires IsReached(instrument, t) && At(t, id, row, h, None, first) && Cancellable(row) && !row.CancelInFlight()
    ensures IsReached(instrument, u) && At(u, id, row.(cancellation := Some(CancelUnknown)), h, None, first)
  {
    hide Next, Enabled, IsReached, At;
    var claimed := row.(cancellation := Some(CancelSubmitting));
    var t0 := Next(t, StartCancel(h, id)) by { LoadStep(t, id, row, h, first); }
    assert IsReached(instrument, t0) && At(t0, id, row, h, Some(CancelLoaded(id, row)), first) by {
      LoadStep(t, id, row, h, first);
      ReachedOn(instrument, t, StartCancel(h, id));
    }
    var t1 := MoveOn(instrument, t0, id, row, h, CancelLoaded(id, row), first, CancelClaim);
    var t2 := MoveOn(instrument, t1, id, claimed, h, CancelClaimed(id, row), first, CancelReload);
    var t3 := MoveOn(instrument, t2, id, claimed, h, CancelVerified(id, claimed), first, CancelPost);
    var t4 := MoveOn(instrument, t3, id, claimed, h, CancelPosted(id, claimed), first, CancelAnswer(CancelUnclear));
    u := MoveOn(instrument, t4, id, claimed, h, CancelAnswered(id, CancelUnclear), first, CancelRecord);
  }

  function NextHandler(handler: Handler, row: Row, move: Move): Option<Handler>
    requires CanMake(handler, row, move)
  {
    HandlerEffect(0, handler, row, NewJournal(row), move).handler
  }

  function NextRow(handler: Handler, row: Row, move: Move): Row
    requires CanMake(handler, row, move)
  {
    After(row, HandlerEffect(0, handler, row, NewJournal(row), move).change)
  }

  lemma EffectIgnoresJournal(h: HandlerId, handler: Handler, row: Row, j: Journal, move: Move)
    requires CanMake(handler, row, move)
    ensures HandlerEffect(h, handler, row, j, move).handler == NextHandler(handler, row, move)
    ensures HandlerEffect(h, handler, row, j, move).change == HandlerEffect(0, handler, row, NewJournal(row), move).change
    ensures NextHandler(handler, row, move).Some? ==> NextHandler(handler, row, move).value.id == handler.id
  {
  }

  lemma MoveOn(instrument: Instrument, t: State, id: RecordId, row: Row, h: HandlerId, handler: Handler, first: Row, move: Move)
    returns (u: State)
    requires IsReached(instrument, t) && At(t, id, row, h, Some(handler), first) && CanMake(handler, row, move)
    ensures IsReached(instrument, u) && At(u, id, NextRow(handler, row, move), h, NextHandler(handler, row, move), first)
  {
    hide HandlerEffect;
    MoveStep(t, id, row, h, handler, first, move);
    EffectIgnoresJournal(h, handler, row, t.journals[id], move);
    ReachedOn(instrument, t, ByHandler(h, move));
    u := Next(t, ByHandler(h, move));
  }

  lemma LoadStep(s: State, id: RecordId, row: Row, h: HandlerId, first: Row)
    requires At(s, id, row, h, None, first) && Cancellable(row)
    ensures Enabled(s, StartCancel(h, id))
    ensures At(Next(s, StartCancel(h, id)), id, row, h, Some(CancelLoaded(id, row)), first)
  {
  }

  lemma DeedOn(instrument: Instrument, t: State, id: RecordId, row: Row, h: HandlerId, first: Row, deed: Deed) returns (u: State)
    requires IsReached(instrument, t) && At(t, id, row, h, None, first) && CanDo(Serving, {row, first}, deed)
    requires OutsideEffect(id, row, NewJournal(row), deed).change.Commit? && IsBacked(instrument, Outside(id, deed))
    ensures Enabled(t, Outside(id, deed)) && u == Next(t, Outside(id, deed))
    ensures IsReached(instrument, u) && At(u, id, OutsideEffect(id, row, NewJournal(row), deed).change.row, h, None, first)
  {
    DeedIgnoresJournal(id, row, t.journals[id], deed);
    SeenMoreAllowsMore({row, first}, t.journals[id].seen, deed);
    hide OutsideEffect, CanDo, IsBacked;
    DeedStep(t, id, row, h, None, first, deed);
    ReachedOn(instrument, t, Outside(id, deed));
    u := Next(t, Outside(id, deed));
  }

  lemma DeedIgnoresJournal(id: RecordId, row: Row, j: Journal, deed: Deed)
    ensures OutsideEffect(id, row, j, deed).change == OutsideEffect(id, row, NewJournal(row), deed).change
  {
  }

  lemma SeenMoreAllowsMore(seen: set<Row>, more: set<Row>, deed: Deed)
    requires CanDo(Serving, seen, deed) && seen <= more
    ensures CanDo(Serving, more, deed)
  {
  }

  lemma AtMeansStored(s: State, id: RecordId, row: Row, h: HandlerId, first: Row)
    requires At(s, id, row, h, None, first)
    ensures Known(s, id) && s.db.rows[id] == row
  {
  }

  /** An accepted order, from an empty table. */
  lemma AcceptedOrder(instrument: Instrument, id: RecordId, h: HandlerId, admitted: Row, answer: Answer) returns (u: State)
    requires IsAdmission(admitted) && admitted.status == Submitting && answer.AnsweredAccepted?
    ensures IsReached(instrument, u) && At(u, id, AcceptedRow(admitted, answer), h, None, admitted)
  {
    hide IsReached, IsAdmission;
    ReachedAtFirst(instrument);
    ReachedOn(instrument, Init(), Admit(id, admitted));
    var t0 := Next(Init(), Admit(id, admitted));
    ReachedOn(instrument, t0, Serve);
    var t1 := Next(t0, Serve);
    ReachedOn(instrument, t1, StartSell(h, id));
    var t2 := Next(t1, StartSell(h, id));
    u := SellThrough(instrument, t2, id, h, admitted, answer) by { AdmittedIsPositive(admitted); }
  }

  function AcceptedRow(admitted: Row, answer: Answer): Row
    requires answer.AnsweredAccepted?
  {
    admitted.(submissionStartedAt := Some(0), status := Pending, orderNo := Some(answer.orderNo),
              orderDate := Some(answer.date), orderTime := Some(answer.time))
  }

  lemma AdmittedIsPositive(admitted: Row)
    requires IsAdmission(admitted)
    ensures admitted.quantity > 0 && admitted.submissionStartedAt.None?
  {
  }

  lemma SellThrough(instrument: Instrument, t: State, id: RecordId, h: HandlerId, admitted: Row, answer: Answer)
    returns (u: State)
    requires IsReached(instrument, t) && At(t, id, admitted, h, Some(SellAdmitted(id, admitted.quantity)), admitted)
    requires admitted.quantity > 0 && admitted.submissionStartedAt.None? && admitted.status == Submitting && answer.AnsweredAccepted?
    ensures IsReached(instrument, u) && At(u, id, AcceptedRow(admitted, answer), h, None, admitted)
  {
    hide Next, Enabled, IsReached, At;
    var q := admitted.quantity;
    var claimed := admitted.(submissionStartedAt := Some(0));
    var t1 := MoveOn(instrument, t, id, admitted, h, SellAdmitted(id, q), admitted, SellClaim(q, 0));
    var t2 := MoveOn(instrument, t1, id, claimed, h, SellClaimed(id, q, 0), admitted, SellPost);
    var t3 := MoveOn(instrument, t2, id, claimed, h, SellPosted(id, q), admitted, SellAnswer(answer));
    u := MoveOn(instrument, t3, id, claimed, h, SellAnswered(id, q, answer), admitted, SellRecord);
  }

  lemma SeenNow(s: State, id: RecordId, row: Row, h: HandlerId, first: Row)
    requires At(s, id, row, h, None, first)
    ensures At(s, id, row, h, None, row)
  {
  }

  /** The value an operator loads: filled in part, its cancellation unknown. */
  function LoadedRow(admitted: Row, answer: Answer, filled: int): Row
    requires answer.AnsweredAccepted?
  {
    AcceptedRow(admitted, answer).(status := Partial, executedQty := Some(filled), cancellation := Some(CancelUnknown))
  }

  /** A partly filled order whose cancellation is unknown, from an empty table. */
  lemma UnknownPartial(instrument: Instrument, id: RecordId, h: HandlerId, admitted: Row, answer: Answer, filled: int)
    returns (u: State)
    requires IsAdmission(admitted) && admitted.status == Submitting && answer.AnsweredAccepted?
    requires 0 < filled < admitted.quantity
    ensures IsReached(instrument, u)
    ensures At(u, id, LoadedRow(admitted, answer, filled), h, None, LoadedRow(admitted, answer, filled))
  {
    hide Next, Enabled, IsReached, At;
    var accepted := AcceptedRow(admitted, answer);
    var t0 := AcceptedOrder(instrument, id, h, admitted, answer);
    SeenNow(t0, id, accepted, h, admitted);
    var t1 := DeedOn(instrument, t0, id, accepted, h, accepted,
                     Reconcile(accepted, filled, admitted.quantity - filled, false, false));
    var partial := accepted.(status := Partial, executedQty := Some(filled));
    u := UnclearCancellation(instrument, t1, id, partial, h, accepted);
    SeenNow(u, id, LoadedRow(admitted, answer, filled), h, accepted);
  }

  /**
   A recorded fill can be lost, from an empty table and with every operator's decision backed by what he
   read: an order is accepted, filled in part, and its cancellation unclear. One operator loads the row
   and reads the executions. Another proves the order still open; it fills by one more, which is
   recorded; its next cancellation is unclear too, but takes. Now the first operator no longer finds the
   order open, and his closure stores the fills he read before.
   */
  lemma AStaleClosureLosesAFill(
    instrument: Instrument, id: RecordId, h: HandlerId, admitted: Row, answer: Answer, filled: int)
    requires IsAdmission(admitted) && admitted.status == Submitting
    requires answer.AnsweredAccepted? && Trim(answer.date) == answer.date
    requires 0 < filled && filled + 1 < admitted.quantity
    ensures var loaded := LoadedRow(admitted, answer, filled);
            var executions := [ExecutionOf(instrument, loaded, filled)];
            var closure := Outside(id, OperatorClose(loaded, filled));
            && ShowsExecutions(instrument, loaded, executions, Moment(filled, true))
            && ShowsOpen(instrument, loaded, [], Moment(filled + 1, false))
            && IsVerdict(Closable(filled), instrument, loaded, executions, [])
            && exists before ::
                 && IsReached(instrument, before) && Known(before, id) && Enabled(before, closure)
                 && before.db.rows[id].Executed() == filled + 1
                 && id in Next(before, closure).db.rows
                 && Next(before, closure).db.rows[id].Executed() == filled
  {
    hide Next, Enabled, At, IsReached, IsVerdict, ShowsExecutions, ShowsOpen, IsAdmission;
    var loaded := LoadedRow(admitted, answer, filled);
    var s0 := UnknownPartial(instrument, id, h, admitted, answer, filled);
    RowsProve(instrument, loaded, filled);
    var rejected := loaded.(cancellation := Some(CancelRejected));
    var more := rejected.(executedQty := Some(filled + 1));
    var unknown := more.(cancellation := Some(CancelUnknown));
    var s1 := DeedOn(instrument, s0, id, loaded, h, loaded, OperatorNotAccepted(loaded));
    var s2 := DeedOn(instrument, s1, id, rejected, h, loaded,
                     Reconcile(rejected, filled + 1, admitted.quantity - filled - 1, false, false));
    var before := UnclearCancellation(instrument, s2, id, more, h, loaded);
    var end := DeedOn(instrument, before, id, unknown, h, loaded, OperatorClose(loaded, filled));
    AtMeansStored(before, id, unknown, h, loaded);
    AtMeansStored(end, id, Closed(unknown, loaded.quantity, filled), h, loaded);
  }
}
