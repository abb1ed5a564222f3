/**
 The `TradeRecord` table: its rows, the guarded `updateMany` writes every service makes to it,
 the audit log, and the cold-start takeover.

 A guarded write is given twice. As a function of the row it produces a `Change`: either the
 guard fails and nothing is written, or the row and its audit entry are committed together.
 As a method of `TradeRecordTable` it updates the table in place.
 */
module TradeRecords {
  import opened Prelude

  type RecordId = string

  datatype Environment = Paper | Prod

  datatype OrderStatus =
    | AwaitingApproval
    | Submitting
    | SubmissionUnknown
    | Pending
    | Partial
    | Filled
    | Cancelled
    | Failed

  datatype CancelStatus =
    | CancelSubmitting
    | CancelAccepted
    | CancelRejected
    | CancelUnknown
    | CancelResolved

  datatype Resolution = LinkedBrokerOrder | ConfirmedNotSubmitted | MatchedExistingTradeRecord

  datatype Row = Row(
    broker: Broker,
    quantity: int,
    executedQty: Option<int>,
    status: OrderStatus,
    orderNo: Option<string>,
    orderDate: Option<string>,
    orderTime: Option<string>,
    submissionStartedAt: Option<int>,
    environment: Option<Environment>,
    accountHash: Option<string>,
    resolution: Option<Resolution>,
    cancellation: Option<CancelStatus>)
  {
    /** `executedQty ?? 0`. */
    function Executed(): int {
      if executedQty.Some? then executedQty.value else 0
    }

    predicate IsOpen() {
      status == Pending || status == Partial
    }

    /** No service may ever write to such a row again. */
    predicate Terminal() {
      || status == Filled
      || status == Cancelled
      || status == Failed
      || (status == Partial && orderNo.None?)
    }

    /** A cancellation attempt that has been claimed and not finished. */
    predicate CancelInFlight() {
      cancellation in {Some(CancelSubmitting), Some(CancelAccepted), Some(CancelUnknown)}
    }

    /** The `OR` of `listRecoveryItems`. */
    predicate NeedsRecovery() {
      status == SubmissionUnknown || cancellation == Some(CancelUnknown)
    }
  }

  datatype Action =
    | UnknownDetected
    | LegacyContextAssigned
    | BrokerOrderLinked
    | NotSubmittedConfirmed
    | ExistingRecordMatched
    | CancellationUnknown
    | CancellationReconciled
    | CancellationNotAccepted

  datatype Actor = System | SystemReconciliation | Operator

  datatype AuditEntry = AuditEntry(
    id: RecordId,
    action: Action,
    actor: Actor,
    before: Option<OrderStatus>,
    after: Option<OrderStatus>)

  /** The effect of one `updateMany`, or of one transaction around it. */
  datatype Change = NoChange | Commit(row: Row, entries: seq<AuditEntry>)

  datatype Db = Db(rows: map<RecordId, Row>, audit: seq<AuditEntry>) {
    /** Commits a change to one row atomically. */
    function Write(id: RecordId, change: Change): Db {
      match change
      case NoChange => this
      case Commit(row, entries) => Db(rows[id := row], audit + entries)
    }

    /** A guarded write by id: an id without a row matches nothing. */
    function UpdateMany(id: RecordId, write: Row -> Change): Db {
      if id in rows then Write(id, write(rows[id])) else this
    }
  }

  // ---------------------------------------------------------------------------
  // Submission writes
  // ---------------------------------------------------------------------------

  function ClaimSubmission(row: Row, quantity: int, startedAt: int): Change {
    if row.status == Submitting && row.submissionStartedAt.None? then
      Commit(row.(quantity := quantity, submissionStartedAt := Some(startedAt)), [])
    else
      NoChange
  }

  function CancelPreSubmit(row: Row): Change {
    if row.status == Submitting && row.submissionStartedAt.None? then
      Commit(row.(status := Cancelled), [])
    else
      NoChange
  }

  function CancelClaimedSubmission(row: Row, startedAt: int): Change {
    if row.status == Submitting && row.submissionStartedAt == Some(startedAt) then
      Commit(row.(status := Cancelled, submissionStartedAt := None), [])
    else
      NoChange
  }

  function PersistAccepted(row: Row, orderNo: string, date: string, time: string): Change {
    if row.status == Submitting && row.submissionStartedAt.Some? then
      Commit(row.(status := Pending, orderNo := Some(orderNo), orderDate := Some(date), orderTime := Some(time)), [])
    else
      NoChange
  }

  function PersistRejected(row: Row): Change {
    if row.status == Submitting && row.submissionStartedAt.Some? then
      Commit(row.(status := Failed), [])
    else
      NoChange
  }

  function MarkSubmissionUnknown(id: RecordId, row: Row): Change {
    if row.status == Submitting && row.submissionStartedAt.Some? then
      Commit(row.(status := SubmissionUnknown),
             [AuditEntry(id, UnknownDetected, System, Some(Submitting), Some(SubmissionUnknown))])
    else
      NoChange
  }

  /** The answer to a sell that waits for a person: `decideApproval` on the trade's side of the pair. */
  function AnswerApproval(row: Row, approved: bool): Change {
    if row.status == AwaitingApproval then
      Commit(row.(status := if approved then Submitting else Cancelled), [])
    else
      NoChange
  }

  /** The takeover transaction for an attempt that was admitted and never claimed. */
  function CancelUnclaimed(id: RecordId, row: Row): Change {
    if row.status == Submitting && row.submissionStartedAt.None? then
      Commit(row.(status := Cancelled),
             [AuditEntry(id, NotSubmittedConfirmed, System, Some(Submitting), Some(Cancelled))])
    else
      NoChange
  }

  // ---------------------------------------------------------------------------
  // Cancellation writes
  // ---------------------------------------------------------------------------

  function ClaimCancellation(row: Row, broker: Broker): Change {
    if && row.broker == broker
       && row.IsOpen()
       && row.orderNo.Some?
       && !row.CancelInFlight()
    then
      Commit(row.(cancellation := Some(CancelSubmitting)), [])
    else
      NoChange
  }

  /** `releaseCancellationClaim` and `markCancellationRejected` are the same write. */
  function RejectCancellation(row: Row, broker: Broker): Change {
    if row.broker == broker && row.cancellation == Some(CancelSubmitting) then
      Commit(row.(cancellation := Some(CancelRejected)), [])
    else
      NoChange
  }

  function AcceptCancellation(row: Row, broker: Broker): Change {
    if row.broker == broker && row.cancellation == Some(CancelSubmitting) then
      Commit(row.(cancellation := Some(CancelAccepted)), [])
    else
      NoChange
  }

  function MarkCancellationUnknown(id: RecordId, row: Row, broker: Broker): Change {
    if row.broker == broker && row.cancellation == Some(CancelSubmitting) then
      Commit(row.(cancellation := Some(CancelUnknown)),
             [AuditEntry(id, CancellationUnknown, System, None, None)])
    else
      NoChange
  }

  // ---------------------------------------------------------------------------
  // Operator recovery. `loaded` is the row the operator's request read before it
  // asked the broker; by the time of the commit the stored row may differ.
  // ---------------------------------------------------------------------------

  predicate SameContext(row: Row, loaded: Row) {
    row.environment == loaded.environment && row.accountHash == loaded.accountHash
  }

  function AssignContext(id: RecordId, row: Row, broker: Broker, environment: Environment, hash: string): Change {
    if && row.broker == broker
       && row.environment.None?
       && row.accountHash.None?
       && row.NeedsRecovery()
    then
      Commit(row.(environment := Some(environment), accountHash := Some(hash)),
             [AuditEntry(id, LegacyContextAssigned, Operator, Some(row.status), Some(row.status))])
    else
      NoChange
  }

  function LinkCandidate(id: RecordId, row: Row, loaded: Row, orderNo: string, date: string, time: string): Change {
    if row.broker == loaded.broker && row.status == SubmissionUnknown && SameContext(row, loaded) then
      Commit(row.(status := Pending, orderNo := Some(orderNo), orderDate := Some(date), orderTime := Some(time),
                  resolution := Some(LinkedBrokerOrder)),
             [AuditEntry(id, BrokerOrderLinked, Operator, Some(SubmissionUnknown), Some(Pending))])
    else
      NoChange
  }

  function ResolveSubmissionAsFailed(id: RecordId, row: Row, loaded: Row, notSubmitted: bool): Change {
    if row.broker == loaded.broker && row.status == SubmissionUnknown && SameContext(row, loaded) then
      Commit(row.(status := Failed,
                  resolution := Some(if notSubmitted then ConfirmedNotSubmitted else MatchedExistingTradeRecord)),
             [AuditEntry(id, if notSubmitted then NotSubmittedConfirmed else ExistingRecordMatched,
                         Operator, Some(SubmissionUnknown), Some(Failed))])
    else
      NoChange
  }

  /** `loadUnknownCancellation`. */
  predicate IsUnknownCancellation(row: Row) {
    row.IsOpen() && row.orderNo.Some? && row.cancellation == Some(CancelUnknown)
  }

  /** `cancellationCasWhere`: the guard of both cancellation resolutions. It omits `executedQty`. */
  predicate CancellationCas(row: Row, loaded: Row) {
    && row.broker == loaded.broker
    && row.status == loaded.status
    && row.orderNo == loaded.orderNo
    && row.cancellation == Some(CancelUnknown)
    && SameContext(row, loaded)
    && row.orderDate == loaded.orderDate
  }

  /** The status an order of `quantity` closes with after `executed` fills. */
  function ClosedStatus(quantity: int, executed: int): OrderStatus {
    if executed >= quantity then Filled else if executed > 0 then Partial else Cancelled
  }

  function Closed(row: Row, quantity: int, executed: int): Row {
    var next := ClosedStatus(quantity, executed);
    row.(status := next,
         orderNo := if next == Partial then None else row.orderNo,
         executedQty := Some(executed),
         cancellation := Some(CancelResolved))
  }

  /** The transaction of `inspectCancellation`, for a total of `executed` fills. */
  function CloseCancellation(id: RecordId, row: Row, loaded: Row, executed: int): Change {
    if CancellationCas(row, loaded) then
      Commit(Closed(row, loaded.quantity, executed),
             [AuditEntry(id, CancellationReconciled, Operator, Some(loaded.status),
                         Some(ClosedStatus(loaded.quantity, executed)))])
    else
      NoChange
  }

  function ConfirmCancellationNotAccepted(id: RecordId, row: Row, loaded: Row): Change {
    if CancellationCas(row, loaded) then
      Commit(row.(cancellation := Some(CancelRejected)),
             [AuditEntry(id, CancellationNotAccepted, Operator, Some(loaded.status), Some(loaded.status))])
    else
      NoChange
  }

  // ---------------------------------------------------------------------------
  // Periodic reconciliation against the broker's order list
  // ---------------------------------------------------------------------------

  /** Executed quantity after seeing `filled` at the broker: clamped to the order, never lowered. */
  function TotalExecuted(loaded: Row, filled: int): int {
    Max(loaded.Executed(), Min(loaded.quantity, filled))
  }

  function ReconciledStatus(quantity: int, executed: int, rejected: bool): OrderStatus {
    if rejected then Failed
    else if executed <= 0 then Pending
    else if executed >= quantity then Filled
    else Partial
  }

  /** A change worth writing; `repriced` says the average fill price differs from the stored one. */
  predicate WorthReconciling(loaded: Row, executed: int, next: OrderStatus, remaining: int, repriced: bool) {
    || executed > loaded.Executed()
    || (next == Partial && remaining <= 0)
    || next != loaded.status
    || repriced
  }

  /** `reconcileOpenOrders` leaves rows with a cancellation in flight alone. */
  function ReconcileOpen(row: Row, loaded: Row, filled: int, remaining: int, rejected: bool, repriced: bool): Change {
    if && loaded.IsOpen() && loaded.orderNo.Some? && !loaded.CancelInFlight()
       && WorthReconciling(loaded, TotalExecuted(loaded, filled),
                           ReconciledStatus(loaded.quantity, TotalExecuted(loaded, filled), rejected),
                           remaining, repriced)
       && row.status == loaded.status
       && row.orderNo == loaded.orderNo
       && row.cancellation == loaded.cancellation
       && row.executedQty == loaded.executedQty
    then
      var executed := TotalExecuted(loaded, filled);
      var next := ReconciledStatus(loaded.quantity, executed, rejected);
      Commit(row.(status := next,
                  orderNo := if next == Partial && remaining <= 0 then None else row.orderNo,
                  executedQty := Some(executed)), [])
    else
      NoChange
  }

  /** An open row the broker no longer lists: the remainder is closed. */
  function CloseUnlisted(row: Row, loaded: Row): Change {
    if && loaded.IsOpen() && loaded.orderNo.Some? && !loaded.CancelInFlight()
       && row.status == loaded.status
       && row.orderNo == loaded.orderNo
       && row.cancellation == loaded.cancellation
    then
      Commit(if loaded.status == Partial then row.(orderNo := None) else row.(status := Cancelled), [])
    else
      NoChange
  }

  function ReconcileAccepted(id: RecordId, row: Row, loaded: Row, filled: int): Change {
    if && loaded.IsOpen() && loaded.orderNo.Some? && loaded.cancellation == Some(CancelAccepted)
       && row.status == loaded.status
       && row.cancellation == Some(CancelAccepted)
       && row.orderNo == loaded.orderNo
    then
      var executed := TotalExecuted(loaded, filled);
      Commit(Closed(row, loaded.quantity, executed),
             [AuditEntry(id, CancellationReconciled, SystemReconciliation, Some(loaded.status),
                         Some(ClosedStatus(loaded.quantity, executed)))])
    else
      NoChange
  }

  // ---------------------------------------------------------------------------
  // Cold-start takeover
  // ---------------------------------------------------------------------------

  /** What the submission takeover does to one row. */
  function TakeOverSubmission(id: RecordId, row: Row): Change {
    if row.submissionStartedAt.Some? then MarkSubmissionUnknown(id, row) else CancelUnclaimed(id, row)
  }

  function TakeOverCancellation(id: RecordId, row: Row): Change {
    MarkCancellationUnknown(id, row, row.broker)
  }

  function After(row: Row, change: Change): Row {
    if change.Commit? then change.row else row
  }

  /** Both takeover loops, row by row. */
  function TakenOver(id: RecordId, row: Row): Row {
    var submitted := After(row, TakeOverSubmission(id, row));
    After(submitted, TakeOverCancellation(id, submitted))
  }

  function TakeOverAll(rows: map<RecordId, Row>): map<RecordId, Row> {
    map id | id in rows :: TakenOver(id, rows[id])
  }

  function RecoveryItems(rows: map<RecordId, Row>): set<RecordId> {
    set id | id in rows && rows[id].NeedsRecovery()
  }

  /**
   What a completed takeover leaves behind, whatever the previous process left: no attempt is still
   `SUBMITTING`, every attempt that had started is listed for recovery, one that had not is cancelled,
   an unfinished cancellation is listed, and every other row is untouched.
   */
  lemma TakeoverSettlesEveryRow(id: RecordId, row: Row)
    ensures var after := TakenOver(id, row);
            && after.status != Submitting
            && after.cancellation != Some(CancelSubmitting)
            && (row.status == Submitting ==>
                  after.status == if row.submissionStartedAt.Some? then SubmissionUnknown else Cancelled)
            && (row.cancellation == Some(CancelSubmitting) ==> after.cancellation == Some(CancelUnknown))
            && (row.status == Submitting && row.submissionStartedAt.Some? ==> after.NeedsRecovery())
            && (row.cancellation == Some(CancelSubmitting) ==> after.NeedsRecovery())
            && (row.NeedsRecovery() ==> after.NeedsRecovery())
            && after == row.(status := after.status, cancellation := after.cancellation)
            && (row.status != Submitting && row.cancellation != Some(CancelSubmitting) ==> after == row)
  {
  }

  lemma SettledRowsStay(id: RecordId, row: Row)
    requires row.status != Submitting && row.cancellation != Some(CancelSubmitting)
    ensures TakenOver(id, row) == row
  {
    TakeoverSettlesEveryRow(id, row);
  }

  /** A second takeover, after a crash during or after the first, changes no row. */
  lemma TakeoverIsIdempotent(rows: map<RecordId, Row>)
    ensures TakeOverAll(TakeOverAll(rows)) == TakeOverAll(rows)
  {
    var once := TakeOverAll(rows);
    var twice := TakeOverAll(once);
    assert twice.Keys == once.Keys;
    forall id | id in once
      ensures twice[id] == once[id]
    {
      TakeoverSettlesEveryRow(id, rows[id]);
      SettledRowsStay(id, once[id]);
    }
  }
}
