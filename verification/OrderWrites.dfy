/**
 What every write does to a record, column by column: when its guard lets it through, and the row and
 the audit entry it leaves. And over every schedule: a live handler's write is never lost.
 */
module OrderWrites {
  import opened Prelude
  import opened TradeRecords
  import opened OrderProtocol
  import opened OrderSafety
  import opened OrderTheorems

  // ---------------------------------------------------------------------------
  // Stages of a submission
  // ---------------------------------------------------------------------------

  /** Where a record stands: waiting for a person, admitted, sent at some time, lost sight of, at the broker, or over. */
  datatype Stage = Waiting | Admitted | Sent(startedAt: int) | Lost | AtBroker | Over

  function StageOf(row: Row): Stage {
    match row.status
    case AwaitingApproval => Waiting
    case Submitting => if row.submissionStartedAt.None? then Admitted else Sent(row.submissionStartedAt.value)
    case SubmissionUnknown => Lost
    case Pending => AtBroker
    case Partial => AtBroker
    case _ => Over
  }

  /** A write goes through exactly when `guard` holds, and then leaves `row` and these audit entries. */
  predicate Writes(change: Change, guard: bool, row: Row, entries: seq<AuditEntry>) {
    if guard then change == Commit(row, entries) else change.NoChange?
  }

  /** Each submission write takes the record from one stage to another, and is refused at every other stage. */
  lemma SubmissionWritesMoveTheStage(id: RecordId, row: Row, quantity: int, at: int, orderNo: string, date: string, time: string)
    ensures Writes(AnswerApproval(row, true), StageOf(row) == Waiting, row.(status := Submitting), [])
    ensures Writes(AnswerApproval(row, false), StageOf(row) == Waiting, row.(status := Cancelled), [])
    ensures Writes(ClaimSubmission(row, quantity, at), StageOf(row) == Admitted,
                   row.(quantity := quantity, submissionStartedAt := Some(at)), [])
    ensures Writes(CancelPreSubmit(row), StageOf(row) == Admitted, row.(status := Cancelled), [])
    ensures Writes(CancelUnclaimed(id, row), StageOf(row) == Admitted, row.(status := Cancelled),
                   [AuditEntry(id, NotSubmittedConfirmed, System, Some(Submitting), Some(Cancelled))])
    ensures Writes(CancelClaimedSubmission(row, at), StageOf(row) == Sent(at),
                   row.(status := Cancelled, submissionStartedAt := None), [])
    ensures Writes(PersistAccepted(row, orderNo, date, time), StageOf(row).Sent?,
                   row.(status := Pending, orderNo := Some(orderNo), orderDate := Some(date), orderTime := Some(time)), [])
    ensures Writes(PersistRejected(row), StageOf(row).Sent?, row.(status := Failed), [])
    ensures Writes(MarkSubmissionUnknown(id, row), StageOf(row).Sent?, row.(status := SubmissionUnknown),
                   [AuditEntry(id, UnknownDetected, System, Some(Submitting), Some(SubmissionUnknown))])
  {
  }

  // ---------------------------------------------------------------------------
  // Cancellation claims
  // ---------------------------------------------------------------------------

  /** An order at the broker with its number and no cancellation under way. */
  predicate MayCancel(row: Row) {
    && StageOf(row) == AtBroker && row.orderNo.Some?
    && (row.cancellation.None? || row.cancellation.value == CancelRejected || row.cancellation.value == CancelResolved)
  }

  lemma UnderWayOrNot(row: Row)
    ensures row.CancelInFlight()
       <==> row.cancellation.Some? && row.cancellation.value != CancelRejected && row.cancellation.value != CancelResolved
  {
    if row.cancellation.Some? {
      match row.cancellation.value {
        case CancelSubmitting =>
        case CancelAccepted =>
        case CancelRejected =>
        case CancelUnknown =>
        case CancelResolved =>
      }
    }
  }

  /** A claim needs an order at the broker, its number, and no cancellation under way; every other write needs that claim. */
  lemma CancellationWritesFollowTheClaim(id: RecordId, row: Row, broker: Broker)
    ensures Writes(ClaimCancellation(row, broker),
                   row.broker == broker && MayCancel(row),
                   row.(cancellation := Some(CancelSubmitting)), [])
    ensures var claimed := row.broker == broker && row.cancellation == Some(CancelSubmitting);
            && Writes(RejectCancellation(row, broker), claimed, row.(cancellation := Some(CancelRejected)), [])
            && Writes(AcceptCancellation(row, broker), claimed, row.(cancellation := Some(CancelAccepted)), [])
            && Writes(MarkCancellationUnknown(id, row, broker), claimed, row.(cancellation := Some(CancelUnknown)),
                      [AuditEntry(id, CancellationUnknown, System, None, None)])
  {
    UnderWayOrNot(row);
  }

  // ---------------------------------------------------------------------------
  // Writes of people and of reconciliation, against the row they loaded
  // ---------------------------------------------------------------------------

  datatype Column = BrokerOf | QuantityOf | ExecutedOf | StatusOf | NumberOf | DateOf | AccountOf | CancellationOf

  /** The stored row and the loaded one have these columns in common. */
  predicate Agrees(row: Row, loaded: Row, columns: set<Column>) {
    && (BrokerOf in columns ==> row.broker == loaded.broker)
    && (QuantityOf in columns ==> row.quantity == loaded.quantity)
    && (ExecutedOf in columns ==> row.executedQty == loaded.executedQty)
    && (StatusOf in columns ==> row.status == loaded.status)
    && (NumberOf in columns ==> row.orderNo == loaded.orderNo)
    && (DateOf in columns ==> row.orderDate == loaded.orderDate)
    && (AccountOf in columns ==> row.environment == loaded.environment && row.accountHash == loaded.accountHash)
    && (CancellationOf in columns ==> row.cancellation == loaded.cancellation)
  }

  /** An operator's word on a lost submission needs it still lost, at the same broker and account. */
  lemma RecoveryWritesCompareTheRow(
    id: RecordId, row: Row, loaded: Row, broker: Broker, environment: Environment, hash: string,
    orderNo: string, date: string, time: string)
    ensures var same := StageOf(row) == Lost && Agrees(row, loaded, {BrokerOf, AccountOf});
            && Writes(LinkCandidate(id, row, loaded, orderNo, date, time), same,
                      row.(status := Pending, orderNo := Some(orderNo), orderDate := Some(date), orderTime := Some(time),
                           resolution := Some(LinkedBrokerOrder)),
                      [AuditEntry(id, BrokerOrderLinked, Operator, Some(SubmissionUnknown), Some(Pending))])
            && Writes(ResolveSubmissionAsFailed(id, row, loaded, true), same,
                      row.(status := Failed, resolution := Some(ConfirmedNotSubmitted)),
                      [AuditEntry(id, NotSubmittedConfirmed, Operator, Some(SubmissionUnknown), Some(Failed))])
            && Writes(ResolveSubmissionAsFailed(id, row, loaded, false), same,
                      row.(status := Failed, resolution := Some(MatchedExistingTradeRecord)),
                      [AuditEntry(id, ExistingRecordMatched, Operator, Some(SubmissionUnknown), Some(Failed))])
    ensures Writes(AssignContext(id, row, broker, environment, hash),
                   row.broker == broker && row.environment.None? && row.accountHash.None?
                   && (StageOf(row) == Lost || row.cancellation == Some(CancelUnknown)),
                   row.(environment := Some(environment), accountHash := Some(hash)),
                   [AuditEntry(id, LegacyContextAssigned, Operator, Some(row.status), Some(row.status))])
  {
  }

  /** The row of an order of `quantity` shares that is over after `executed` of them. */
  predicate IsOver(row: Row, before: Row, quantity: int, executed: int) {
    && row == before.(status := row.status, orderNo := row.orderNo, executedQty := Some(executed), cancellation := Some(CancelResolved))
    && (row.status == Filled <==> executed >= quantity)
    && (row.status == Partial <==> 0 < executed < quantity)
    && (row.status == Cancelled <==> executed < quantity && executed <= 0)
    && row.orderNo == (if 0 < executed < quantity then None else before.orderNo)
  }

  /** A closure needs the unknown cancellation as it was loaded; how many shares were executed is not compared. */
  lemma ClosuresCompareTheRow(id: RecordId, row: Row, loaded: Row, executed: int)
    ensures var same := row.cancellation == Some(CancelUnknown) && Agrees(row, loaded, {BrokerOf, StatusOf, NumberOf, DateOf, AccountOf});
            var closing := CloseCancellation(id, row, loaded, executed);
            && (closing.Commit? <==> same)
            && (same ==> IsOver(closing.row, row, loaded.quantity, executed)
                         && closing.entries == [AuditEntry(id, CancellationReconciled, Operator, Some(row.status), Some(closing.row.status))])
            && Writes(ConfirmCancellationNotAccepted(id, row, loaded), same, row.(cancellation := Some(CancelRejected)),
                      [AuditEntry(id, CancellationNotAccepted, Operator, Some(row.status), Some(row.status))])
  {
  }

  /** Reconciliation starts from an order at the broker with a number. */
  predicate IsListed(loaded: Row) {
    StageOf(loaded) == AtBroker && loaded.orderNo.Some?
  }

  predicate IsCancelling(loaded: Row) {
    loaded.cancellation.Some? && loaded.cancellation.value in {CancelSubmitting, CancelAccepted, CancelUnknown}
  }

  /** Fills seen at the broker count up to the order's quantity, and are never forgotten again. */
  predicate IsTotal(executed: int, loaded: Row, filled: int) {
    && executed >= loaded.Executed() && (filled <= loaded.quantity ==> executed >= filled)
    && (executed == loaded.Executed() || executed == filled || executed == loaded.quantity)
    && (executed > loaded.Executed() ==> executed <= filled && executed <= loaded.quantity)
    && (filled > loaded.quantity ==> executed >= loaded.quantity)
  }

  /**
   The periodic update of an open order: it needs the row as it was loaded, executed shares included, and
   news: more fills, another status, another price, or a partly filled order with nothing left.
   */
  lemma ReconciliationComparesTheRow(row: Row, loaded: Row, filled: int, remaining: int, rejected: bool, repriced: bool)
    ensures var executed := TotalExecuted(loaded, filled);
            var change := ReconcileOpen(row, loaded, filled, remaining, rejected, repriced);
            var status := if rejected then Failed else if executed <= 0 then Pending
                          else if executed < loaded.quantity then Partial else Filled;
            var partDone := status == Partial && remaining <= 0;
            && IsTotal(executed, loaded, filled)
            && Writes(change,
                      && IsListed(loaded) && !IsCancelling(loaded)
                      && Agrees(row, loaded, {StatusOf, NumberOf, CancellationOf, ExecutedOf})
                      && (executed != loaded.Executed() || status != loaded.status || repriced || partDone),
                      row.(status := status, orderNo := if partDone then None else row.orderNo, executedQty := Some(executed)), [])
  {
  }

  /** An order the broker no longer lists is over: a partly filled one gives its number up, any other is cancelled. */
  lemma UnlistedOrdersAreOver(row: Row, loaded: Row)
    ensures Writes(CloseUnlisted(row, loaded),
                   IsListed(loaded) && !IsCancelling(loaded) && Agrees(row, loaded, {StatusOf, NumberOf, CancellationOf}),
                   if row.status == Partial then row.(orderNo := None) else row.(status := Cancelled), [])
  {
  }

  /** An accepted cancellation ends the order with the fills seen so far. */
  lemma AcceptedCancellationsAreOver(id: RecordId, row: Row, loaded: Row, filled: int)
    ensures var executed := TotalExecuted(loaded, filled);
            var change := ReconcileAccepted(id, row, loaded, filled);
            var same := IsListed(loaded) && loaded.cancellation == Some(CancelAccepted)
                        && Agrees(row, loaded, {StatusOf, NumberOf, CancellationOf});
            && IsTotal(executed, loaded, filled)
            && (change.Commit? <==> same)
            && (same ==> IsOver(change.row, row, loaded.quantity, executed)
                         && change.entries ==
                              [AuditEntry(id, CancellationReconciled, SystemReconciliation, Some(row.status), Some(change.row.status))])
  {
  }

  // ---------------------------------------------------------------------------
  // A live handler's write is never lost
  // ---------------------------------------------------------------------------

  /** What a handler's move leaves of the row it acts on. */
  predicate Leaves(handler: Handler, row: Row, move: Move, after: Row)
    requires CanMake(handler, row, move)
  {
    match move
    case SellGiveUp => after == if StageOf(row) == Admitted then row.(status := Cancelled) else row
    case SellClaim(quantity, now) =>
      after == if StageOf(row) == Admitted then row.(quantity := quantity, submissionStartedAt := Some(now)) else row
    case SellCancelClaimed => after == row.(status := Cancelled, submissionStartedAt := None)
    case SellRecord =>
      (match handler.answer
       case AnsweredAccepted(orderNo, date, time) =>
         after == row.(status := Pending, orderNo := Some(orderNo), orderDate := Some(date), orderTime := Some(time))
       case AnsweredRejected => after == row.(status := Failed)
       case _ => after == row.(status := SubmissionUnknown))
    case CancelClaim =>
      after == if row.broker == handler.initial.broker && MayCancel(row) then row.(cancellation := Some(CancelSubmitting)) else row
    case CancelRelease => after == row.(cancellation := Some(CancelRejected))
    case CancelRecord =>
      after == row.(cancellation := Some(match handler.outcome
                                         case CancelTaken => CancelAccepted
                                         case CancelRefused => CancelRejected
                                         case CancelUnclear => CancelUnknown))
    case _ => after == row
  }

  lemma MovesLeave(h: HandlerId, handler: Handler, row: Row, j: Journal, move: Move)
    requires HandlerOk(h, handler, row, j) && CanMake(handler, row, move)
    ensures Leaves(handler, row, move, After(row, HandlerEffect(h, handler, row, j, move).change))
  {
    UnderWayOrNot(row);
  }

  /**
   Over every schedule of everybody else: when a handler comes to write what the broker answered, or to
   take its own claim back, the row is still the one it claimed, so its guard holds and the write is made.
   */
  lemma LiveWritesAreNeverLost(steps: seq<Step>, h: HandlerId, move: Move)
    requires Enabled(Reached(steps), ByHandler(h, move))
    ensures var s, t := Reached(steps), Next(Reached(steps), ByHandler(h, move));
            var handler := s.handlers[h];
            handler.id in t.db.rows && Leaves(handler, s.db.rows[handler.id], move, t.db.rows[handler.id])
  {
    hide RecordsOk, NoStrayAudit, Run, HandlerOk, Leaves, HandlerEffect, CanMake;
    ReachedIsSafe(steps);
    var s := Reached(steps);
    var handler := s.handlers[h];
    var row, j := s.db.rows[handler.id], s.journals[handler.id];
    assert HandlerOk(h, handler, row, j);
    MovesLeave(h, handler, row, j, move);
  }

  /** A cancel is sent only for the order as it was first loaded: nothing but the claim itself has changed. */
  lemma ReloadComparesTheRow(handler: Handler, row: Row)
    ensures CanMake(handler, row, CancelReload)
       <==> handler.CancelClaimed? && row.cancellation == Some(CancelSubmitting)
            && Agrees(row, handler.initial, {BrokerOf, QuantityOf, ExecutedOf, StatusOf, NumberOf, DateOf, AccountOf})
  {
  }

  // ---------------------------------------------------------------------------
  // Terminal rows are exactly the rows nobody can change
  // ---------------------------------------------------------------------------

  /** Whatever is not terminal can still be changed by somebody; with `TerminalRowUntouched`, exactly that. */
  lemma OnlyTerminalRowsAreStuck(id: RecordId, row: Row, j: Journal)
    requires !row.Terminal() && row in j.seen && (row.IsOpen() ==> row.orderNo.Some?)
    ensures exists phase, deed :: CanDo(phase, j.seen, deed) && After(row, OutsideEffect(id, row, j, deed).change) != row
  {
    var (phase, deed) :=
      if row.status == Submitting then (Recovering, TakeOverSubmitting)
      else if row.cancellation == Some(CancelSubmitting) then (Recovering, TakeOverCancelling)
      else if row.status == AwaitingApproval then (Serving, DecideApproval(true))
      else if row.status == SubmissionUnknown then (Serving, OperatorFail(row, true))
      else if row.cancellation == Some(CancelUnknown) then (Serving, OperatorNotAccepted(row))
      else if row.cancellation == Some(CancelAccepted) then (Serving, ReconcileCancelled(row, 0))
      else (Serving, Reconcile(row, 0, 0, true, true));
    assert CanDo(phase, j.seen, deed) && After(row, OutsideEffect(id, row, j, deed).change) != row;
  }

  // ---------------------------------------------------------------------------
  // What a handler may do, and what its record remembers
  // ---------------------------------------------------------------------------

  /** The moves of each position; an exception may end a handler anywhere. */
  lemma MovesByPosition(handler: Handler, row: Row, move: Move)
    ensures CanMake(handler, row, move) <==>
              move.Abort? ||
              match handler
              case SellAdmitted(_, requested) => move.SellGiveUp? || (move.SellClaim? && 0 < move.quantity <= requested)
              case SellClaimed(_, _, _) => move.SellCancelClaimed? || move.SellPost?
              case SellPosted(_, _) => move.SellAnswer?
              case SellAnswered(_, _, _) => move.SellRecord?
              case CancelLoaded(_, _) => move.CancelClaim?
              case CancelClaimed(_, initial) =>
                move.CancelRelease?
                || (move.CancelReload? && row.cancellation == Some(CancelSubmitting)
                    && Agrees(row, initial, {BrokerOf, QuantityOf, ExecutedOf, StatusOf, NumberOf, DateOf, AccountOf}))
              case CancelVerified(_, _) => move.CancelRelease? || move.CancelPost?
              case CancelPosted(_, _) => move.CancelAnswer?
              case CancelAnswered(_, _) => move.CancelRecord?
  {
  }

  /** A new record's journal knows of nothing but its row, and whether a person has to agree first. */
  lemma JournalsStartEmpty(row: Row)
    ensures var j := NewJournal(row);
            && j.posts == [] && j.cancelPosts == [] && j.openCancels == 0 && j.answer.None?
            && !j.persisted && !j.operatorResolved && !j.refusedLater && !j.closed
            && j.submitOwner.None? && j.cancelOwner.None?
            && j.admitted == row.quantity && j.seen == {row}
            && (j.approval == Awaited <==> row.status == AwaitingApproval) && j.approval != Given
  {
  }

  /** What the record remembers of a move: requests and answers when they happen, storage when it happens, and nothing else. */
  predicate Remembers(handler: Handler, move: Move, j: Journal, after: Journal) {
    && after.posts == (if move.SellPost? && handler.SellClaimed? then j.posts + [handler.quantity] else j.posts)
    && after.answer == (if move.SellAnswer? then Some(move.answer) else j.answer)
    && (after.persisted <==> j.persisted || (move.SellRecord? && handler.SellAnswered?
                                             && (handler.answer.AnsweredAccepted? || handler.answer.AnsweredRejected?)))
    && |after.cancelPosts| == |j.cancelPosts| + (if move.CancelPost? then 1 else 0)
    && after.openCancels == j.openCancels + (if move.CancelPost? then 1
                                             else if move.CancelRecord? && handler == CancelAnswered(handler.id, CancelRefused) then -1
                                             else 0)
    && after == j.(posts := after.posts, answer := after.answer, persisted := after.persisted, cancelPosts := after.cancelPosts,
                   openCancels := after.openCancels, submitOwner := after.submitOwner, cancelOwner := after.cancelOwner)
  }

  lemma MovesAreRemembered(h: HandlerId, handler: Handler, row: Row, j: Journal, move: Move)
    requires HandlerOk(h, handler, row, j) && CanMake(handler, row, move)
    ensures Remembers(handler, move, j, HandlerEffect(h, handler, row, j, move).journal)
  {
    hide HandlerOk, CanMake, Remembers, SellEffect, CancelEffect;
    SellMovesAreRemembered(h, handler, row, j, move);
    CancelMovesAreRemembered(h, handler, row, j, move);
  }

  predicate IsCancelMove(move: Move) {
    move.CancelClaim? || move.CancelRelease? || move.CancelReload? || move.CancelPost? || move.CancelAnswer? || move.CancelRecord?
  }

  lemma SellMovesAreRemembered(h: HandlerId, handler: Handler, row: Row, j: Journal, move: Move)
    requires HandlerOk(h, handler, row, j) && CanMake(handler, row, move)
    ensures !IsCancelMove(move) ==> Remembers(handler, move, j, SellEffect(h, handler, row, j, move).journal)
  {
  }

  lemma CancelMovesAreRemembered(h: HandlerId, handler: Handler, row: Row, j: Journal, move: Move)
    requires HandlerOk(h, handler, row, j) && CanMake(handler, row, move)
    ensures IsCancelMove(move) ==> Remembers(handler, move, j, CancelEffect(h, handler, row, j, move).journal)
  {
    UnderWayOrNot(row);
  }

  /** And of a deed: who decided, that the broker refused, that the cancellation is over, and nothing else. */
  lemma DeedsAreRemembered(id: RecordId, row: Row, j: Journal, deed: Deed)
    ensures var after := OutsideEffect(id, row, j, deed).journal;
            && (after.operatorResolved <==> j.operatorResolved || deed.OperatorLink? || deed.OperatorFail?)
            && (after.refusedLater <==> j.refusedLater || (deed.Reconcile? && deed.rejected))
            && (after.closed <==> j.closed || deed.OperatorClose? || deed.ReconcileCancelled?)
            && after.openCancels == (if deed.OperatorClose? || deed.OperatorNotAccepted? || deed.ReconcileCancelled? then 0 else j.openCancels)
            && after.approval == (if deed == DecideApproval(true) then Given else j.approval)
            && after == j.(operatorResolved := after.operatorResolved, refusedLater := after.refusedLater, closed := after.closed,
                           openCancels := after.openCancels, approval := after.approval)
  {
  }
}
