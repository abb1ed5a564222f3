/**
 Safety of the order lifecycle over every run: the inductive invariant, its preservation by each
 step, and the theorems read off it.
 */
module OrderSafety {
  import opened Prelude
  import opened TradeRecords
  import opened OrderProtocol

  // ---------------------------------------------------------------------------
  // Audit balances
  // ---------------------------------------------------------------------------

  /** +1 when an entry opens an unknown submission of `id`, -1 when it closes one. */
  function SubmissionWeight(entry: AuditEntry, id: RecordId): int {
    if entry.id != id then 0
    else if entry.action == UnknownDetected then 1
    else if entry.action in {BrokerOrderLinked, NotSubmittedConfirmed, ExistingRecordMatched}
         && entry.before == Some(SubmissionUnknown) then -1
    else 0
  }

  /** Likewise for unknown cancellations; periodic reconciliation closes accepted ones, not unknown ones. */
  function CancellationWeight(entry: AuditEntry, id: RecordId): int {
    if entry.id != id then 0
    else if entry.action == CancellationUnknown then 1
    else if entry.action == CancellationNotAccepted then -1
    else if entry.action == CancellationReconciled && entry.actor != SystemReconciliation then -1
    else 0
  }

  function SubmissionBalance(audit: seq<AuditEntry>, id: RecordId): int {
    if audit == [] then 0
    else SubmissionBalance(audit[..|audit| - 1], id) + SubmissionWeight(audit[|audit| - 1], id)
  }

  function CancellationBalance(audit: seq<AuditEntry>, id: RecordId): int {
    if audit == [] then 0
    else CancellationBalance(audit[..|audit| - 1], id) + CancellationWeight(audit[|audit| - 1], id)
  }

  lemma BalancesAfter(audit: seq<AuditEntry>, entries: seq<AuditEntry>, id: RecordId)
    requires |entries| <= 1
    ensures SubmissionBalance(audit + entries, id)
         == SubmissionBalance(audit, id) + if entries == [] then 0 else SubmissionWeight(entries[0], id)
    ensures CancellationBalance(audit + entries, id)
         == CancellationBalance(audit, id) + if entries == [] then 0 else CancellationWeight(entries[0], id)
  {
    if entries == [] {
      assert audit + entries == audit;
    } else {
      assert (audit + entries)[..|audit + entries| - 1] == audit;
    }
  }

  // ---------------------------------------------------------------------------
  // The invariant
  // ---------------------------------------------------------------------------

  ghost predicate SubmissionOk(row: Row, j: Journal) {
    && row.quantity <= j.admitted
    && |j.posts| <= 1
    && (j.posts != [] ==> row.submissionStartedAt.Some? && j.posts[0] == row.quantity && 0 < row.quantity)
    && (j.posts != [] && !j.persisted && !j.operatorResolved ==>
          row.status == Submitting || row.status == SubmissionUnknown)
    && (row.status in {AwaitingApproval, Submitting, SubmissionUnknown} ==> !j.persisted && !j.operatorResolved)
    && (row.status == Failed ==> j.operatorResolved || j.refusedLater || (j.persisted && j.answer == Some(AnsweredRejected)))
    && (row.status == SubmissionUnknown ==> row.submissionStartedAt.Some?)
    && (row.submissionStartedAt.None? ==> row.status in {AwaitingApproval, Submitting, Cancelled})
    && (j.persisted && j.answer.Some? && j.answer.value.AnsweredAccepted? ==>
          && row.orderDate == Some(j.answer.value.date) && row.orderTime == Some(j.answer.value.time)
          && (row.orderNo == Some(j.answer.value.orderNo) || (row.orderNo.None? && row.status == Partial)))
    && (row.status == AwaitingApproval ==> j.approval == Awaited)
    && (j.approval == Awaited ==> row.submissionStartedAt.None? && row.status in {AwaitingApproval, Cancelled})
  }

  ghost predicate CancellationOk(row: Row, j: Journal) {
    && 0 <= j.openCancels <= 1
    && (j.openCancels == 1 ==> row.CancelInFlight())
    && (row.CancelInFlight() ==> row.IsOpen() && row.orderNo.Some?)
    && (j.closed ==> row.Terminal())
  }

  /**
   What every earlier value of a row has in common with the present one. An accepted cancellation is
   closed before anything else touches its row, and a started row keeps its quantity.
   */
  ghost predicate SeenOk(row: Row, seen: set<Row>) {
    && row in seen
    && (forall r | r in seen && r.cancellation == Some(CancelAccepted) :: r == row || row.Terminal())
    && (forall r | r in seen && r.submissionStartedAt.Some? :: r.quantity == row.quantity)
    && (forall r | r in seen && r.IsOpen() :: r.submissionStartedAt.Some?)
    && (forall r | r in seen :: 0 <= r.Executed() <= r.quantity)
    && (row.status in {AwaitingApproval, Submitting} && row.submissionStartedAt.None? ==>
          forall r | r in seen :: r.submissionStartedAt.None?)
  }

  ghost predicate ExecutedOk(row: Row) {
    && 0 <= row.Executed() <= row.quantity
    && (row.status == Filled ==> row.Executed() == row.quantity)
    && (row.status in {AwaitingApproval, Submitting, SubmissionUnknown} ==> row.Executed() == 0)
  }

  ghost predicate BalanceOk(row: Row, submission: int, cancellation: int) {
    && submission == (if row.status == SubmissionUnknown then 1 else 0)
    && cancellation == (if row.cancellation == Some(CancelUnknown) then 1 else 0)
  }

  ghost predicate HandlerOk(h: HandlerId, handler: Handler, row: Row, j: Journal) {
    match handler
    case SellAdmitted(_, requested) => requested <= j.admitted
    case SellClaimed(_, quantity, startedAt) =>
      && j.submitOwner == Some(h) && row.status == Submitting && row.submissionStartedAt == Some(startedAt)
      && row.quantity == quantity && 0 < quantity <= j.admitted && j.posts == []
    case SellPosted(_, quantity) =>
      && j.submitOwner == Some(h) && row.status == Submitting && row.submissionStartedAt.Some?
      && j.posts == [quantity]
    case SellAnswered(_, quantity, answer) =>
      && j.submitOwner == Some(h) && row.status == Submitting && row.submissionStartedAt.Some?
      && j.posts == [quantity] && j.answer == Some(answer)
    case CancelLoaded(_, initial) => Cancellable(initial)
    case CancelClaimed(_, initial) =>
      && j.cancelOwner == Some(h) && row.cancellation == Some(CancelSubmitting) && j.openCancels == 0
      && Cancellable(initial)
    case CancelVerified(_, claimed) =>
      && j.cancelOwner == Some(h) && row.cancellation == Some(CancelSubmitting) && j.openCancels == 0
      && claimed == row && Cancellable(claimed)
    case CancelPosted(_, claimed) =>
      && j.cancelOwner == Some(h) && row.cancellation == Some(CancelSubmitting) && j.openCancels == 1
      && claimed == row
    case CancelAnswered(_, _) =>
      && j.cancelOwner == Some(h) && row.cancellation == Some(CancelSubmitting) && j.openCancels == 1
  }

  /** The invariant of one record, given its two audit balances. */
  ghost predicate CellOk(row: Row, j: Journal, submission: int, cancellation: int) {
    && SubmissionOk(row, j)
    && CancellationOk(row, j)
    && BalanceOk(row, submission, cancellation)
  }

  ghost predicate PastOk(row: Row, j: Journal) {
    SeenOk(row, j.seen) && ExecutedOk(row)
  }

  ghost predicate RecordOk(row: Row, j: Journal, audit: seq<AuditEntry>, id: RecordId) {
    && CellOk(row, j, SubmissionBalance(audit, id), CancellationBalance(audit, id))
    && PastOk(row, j)
  }

  ghost predicate HandlersOk(s: State) {
    forall h | h in s.handlers ::
      Known(s, s.handlers[h].id)
      && HandlerOk(h, s.handlers[h], s.db.rows[s.handlers[h].id], s.journals[s.handlers[h].id])
  }

  ghost predicate RecordsOk(s: State) {
    forall id | id in s.db.rows :: id in s.journals && RecordOk(s.db.rows[id], s.journals[id], s.db.audit, id)
  }

  /** An id without a row has left no trace in the audit log. */
  ghost predicate NoStrayAudit(audit: seq<AuditEntry>, rows: map<RecordId, Row>) {
    forall e | e in audit :: e.id in rows
  }

  ghost predicate Inv(s: State) {
    && s.journals.Keys == s.db.rows.Keys
    && RecordsOk(s)
    && HandlersOk(s)
    && NoStrayAudit(s.db.audit, s.db.rows)
    && (s.phase == Recovering ==> s.handlers == map[])
  }

  lemma NoEntriesNoBalance(audit: seq<AuditEntry>, id: RecordId)
    requires forall e | e in audit :: e.id != id
    ensures SubmissionBalance(audit, id) == 0 && CancellationBalance(audit, id) == 0
  {
    if audit != [] {
      NoEntriesNoBalance(audit[..|audit| - 1], id);
      assert audit[|audit| - 1] in audit;
    }
  }

  // ---------------------------------------------------------------------------
  // One record at a time
  // ---------------------------------------------------------------------------

  function NewSubmissionWeight(change: Change, id: RecordId): int {
    if change.Commit? && change.entries != [] then SubmissionWeight(change.entries[0], id) else 0
  }

  function NewCancellationWeight(change: Change, id: RecordId): int {
    if change.Commit? && change.entries != [] then CancellationWeight(change.entries[0], id) else 0
  }

  /** Handlers other than `h` on this record are not disturbed. */
  ghost predicate OthersKept(h: HandlerId, row: Row, j: Journal, row': Row, j': Journal) {
    forall other, handler: Handler | other != h && HandlerOk(other, handler, row, j) :: HandlerOk(other, handler, row', j')
  }

  /** A change to the record `id` that is good for the record itself, whatever its balances were. */
  ghost predicate GoodChange(id: RecordId, row: Row, j: Journal, change: Change, j': Journal) {
    && (change.Commit? ==> |change.entries| <= 1 && forall e | e in change.entries :: e.id == id)
    && forall sub, can | CellOk(row, j, sub, can) ::
         CellOk(After(row, change), j', sub + NewSubmissionWeight(change, id), can + NewCancellationWeight(change, id))
  }

  lemma RememberKeepsCell(row: Row, j: Journal, sub: int, can: int, r: Row)
    requires CellOk(row, j, sub, can)
    ensures CellOk(row, Remember(j, r), sub, can)
  {
  }

  lemma TouchedSelfOk(s: State, id: RecordId, change: Change, j: Journal)
    requires Known(s, id) && GoodChange(id, s.db.rows[id], s.journals[id], change, j)
    requires PastOk(After(s.db.rows[id], change), j)
    requires RecordOk(s.db.rows[id], s.journals[id], s.db.audit, id)
    ensures var t := Touch(s, id, change, j, map[]);
            Known(t, id) && RecordOk(t.db.rows[id], t.journals[id], t.db.audit, id)
  {
    hide CellOk, PastOk, SubmissionWeight, CancellationWeight, SubmissionBalance, CancellationBalance;
    var entries := if change.Commit? then change.entries else [];
    BalancesAfter(s.db.audit, entries, id);
    assert Touch(s, id, change, j, map[]).db.audit == s.db.audit + entries;
  }

  lemma TouchedOtherOk(s: State, id: RecordId, change: Change, j: Journal, other: RecordId)
    requires Known(s, id) && other != id
    requires change.Commit? ==> |change.entries| <= 1 && forall e | e in change.entries :: e.id == id
    requires Known(s, other) && RecordOk(s.db.rows[other], s.journals[other], s.db.audit, other)
    ensures var t := Touch(s, id, change, j, map[]);
            Known(t, other) && RecordOk(t.db.rows[other], t.journals[other], t.db.audit, other)
  {
    hide CellOk, PastOk, SubmissionBalance, CancellationBalance;
    var entries := if change.Commit? then change.entries else [];
    BalancesAfter(s.db.audit, entries, other);
    assert Touch(s, id, change, j, map[]).db.audit == s.db.audit + entries;
    if entries != [] {
      assert entries[0] in entries;
    }
  }

  lemma TouchedRecordsOk(s: State, id: RecordId, change: Change, j: Journal, handlers: map<HandlerId, Handler>)
    requires RecordsOk(s) && Known(s, id) && GoodChange(id, s.db.rows[id], s.journals[id], change, j)
    requires PastOk(After(s.db.rows[id], change), j)
    ensures RecordsOk(Touch(s, id, change, j, handlers))
  {
    hide RecordOk;
    var t := Touch(s, id, change, j, handlers);
    forall other | other in t.db.rows
      ensures other in t.journals && RecordOk(t.db.rows[other], t.journals[other], t.db.audit, other)
    {
      if other == id {
        TouchedSelfOk(s, id, change, j);
      } else {
        TouchedOtherOk(s, id, change, j, other);
      }
    }
  }

  /** Dropping the handler that acted, or moving it on, keeps every handler right. */
  lemma TouchedHandlersOk(s: State, h: HandlerId, id: RecordId, change: Change, j: Journal, handlers: map<HandlerId, Handler>)
    requires HandlersOk(s) && Known(s, id)
    requires OthersKept(h, s.db.rows[id], s.journals[id], After(s.db.rows[id], change), j)
    requires forall other | other in handlers && other != h :: other in s.handlers && handlers[other] == s.handlers[other]
    requires h in handlers ==> handlers[h].id == id && HandlerOk(h, handlers[h], After(s.db.rows[id], change), j)
    ensures HandlersOk(Touch(s, id, change, j, handlers))
  {
    var t := Touch(s, id, change, j, handlers);
    assert t.db.rows == s.db.rows[id := After(s.db.rows[id], change)];
  }

  lemma TouchKeepsInv(s: State, h: HandlerId, id: RecordId, change: Change, j: Journal, handlers: map<HandlerId, Handler>)
    requires Inv(s) && Known(s, id)
    requires GoodChange(id, s.db.rows[id], s.journals[id], change, j) && PastOk(After(s.db.rows[id], change), j)
    requires OthersKept(h, s.db.rows[id], s.journals[id], After(s.db.rows[id], change), j)
    requires forall other | other in handlers && other != h :: other in s.handlers && handlers[other] == s.handlers[other]
    requires h in handlers ==> handlers[h].id == id && HandlerOk(h, handlers[h], After(s.db.rows[id], change), j)
    requires s.phase == Recovering ==> handlers == map[]
    ensures Inv(Touch(s, id, change, j, handlers))
  {
    hide RecordsOk, HandlersOk, HandlerOk, PastOk, OthersKept, CellOk;
    TouchedRecordsOk(s, id, change, j, handlers);
    TouchedHandlersOk(s, h, id, change, j, handlers);
  }

  // ---------------------------------------------------------------------------
  // Every step keeps the invariant
  // ---------------------------------------------------------------------------

  lemma RememberKeepsGoodChange(id: RecordId, row: Row, j: Journal, change: Change, j': Journal, r: Row)
    requires GoodChange(id, row, j, change, j')
    ensures GoodChange(id, row, j, change, Remember(j', r))
  {
    forall sub, can | CellOk(row, j, sub, can)
      ensures CellOk(After(row, change), Remember(j', r),
                     sub + NewSubmissionWeight(change, id), can + NewCancellationWeight(change, id))
    {
      RememberKeepsCell(After(row, change), j', sub + NewSubmissionWeight(change, id), can + NewCancellationWeight(change, id), r);
    }
  }

  lemma RememberKeepsHandler(h: HandlerId, handler: Handler, row: Row, j: Journal, r: Row)
    ensures HandlerOk(h, handler, row, Remember(j, r)) <==> HandlerOk(h, handler, row, j)
  {
  }

  lemma RememberKeepsOthers(h: HandlerId, row: Row, j: Journal, row': Row, j': Journal, r: Row)
    requires OthersKept(h, row, j, row', j')
    ensures OthersKept(h, row, j, row', Remember(j', r))
  {
    forall other, handler: Handler | other != h && HandlerOk(other, handler, row, j)
      ensures HandlerOk(other, handler, row', Remember(j', r))
    {
      RememberKeepsHandler(other, handler, row', j', r);
    }
  }

  /** What a handler step must establish about the record it acts on. */
  ghost predicate GoodEffect(h: HandlerId, id: RecordId, row: Row, j: Journal, effect: Effect) {
    && GoodChange(id, row, j, effect.change, effect.journal)
    && OthersKept(h, row, j, After(row, effect.change), effect.journal)
    && (effect.handler.Some? ==>
          effect.handler.value.id == id && HandlerOk(h, effect.handler.value, After(row, effect.change), effect.journal))
  }

  lemma SellStartIsGood(h: HandlerId, handler: Handler, row: Row, j: Journal, move: Move, sub: int, can: int)
    requires CellOk(row, j, sub, can) && HandlerOk(h, handler, row, j) && CanMake(handler, row, move)
    requires move.SellGiveUp? || move.SellClaim? || move.SellCancelClaimed?
    ensures GoodEffect(h, handler.id, row, j, SellEffect(h, handler, row, j, move))
  {
    match move {
      case SellGiveUp =>
      case SellClaim(_, _) =>
      case SellCancelClaimed =>
      case _ =>
    }
  }

  lemma SellMoveIsGood(h: HandlerId, handler: Handler, row: Row, j: Journal, move: Move, sub: int, can: int)
    requires CellOk(row, j, sub, can) && HandlerOk(h, handler, row, j) && CanMake(handler, row, move)
    ensures GoodEffect(h, handler.id, row, j, SellEffect(h, handler, row, j, move))
  {
    if move.SellGiveUp? || move.SellClaim? || move.SellCancelClaimed? {
      SellStartIsGood(h, handler, row, j, move, sub, can);
    }
  }

  lemma CancelClaimIsGood(h: HandlerId, handler: Handler, row: Row, j: Journal, move: Move, sub: int, can: int)
    requires CellOk(row, j, sub, can) && HandlerOk(h, handler, row, j) && CanMake(handler, row, move)
    requires move.CancelClaim? || move.CancelRelease? || move.CancelReload? || move.CancelPost?
    ensures GoodEffect(h, handler.id, row, j, CancelEffect(h, handler, row, j, move))
  {
    match move {
      case CancelClaim =>
      case CancelRelease =>
      case CancelReload =>
      case CancelPost =>
      case _ =>
    }
  }

  lemma CancelMoveIsGood(h: HandlerId, handler: Handler, row: Row, j: Journal, move: Move, sub: int, can: int)
    requires CellOk(row, j, sub, can) && HandlerOk(h, handler, row, j) && CanMake(handler, row, move)
    ensures GoodEffect(h, handler.id, row, j, CancelEffect(h, handler, row, j, move))
  {
    if move.CancelClaim? || move.CancelRelease? || move.CancelReload? || move.CancelPost? {
      CancelClaimIsGood(h, handler, row, j, move, sub, can);
    }
  }

  lemma UnchangedKeepsPast(row: Row, j: Journal, j': Journal)
    requires PastOk(row, j) && j'.seen == j.seen
    ensures PastOk(row, Remember(j', row))
  {
    assert j.seen + {row} == j.seen;
  }

  lemma SellMoveKeepsPast(h: HandlerId, handler: Handler, row: Row, j: Journal, move: Move, sub: int, can: int)
    requires CellOk(row, j, sub, can) && PastOk(row, j) && HandlerOk(h, handler, row, j) && CanMake(handler, row, move)
    ensures var effect := SellEffect(h, handler, row, j, move);
            PastOk(After(row, effect.change), Remember(effect.journal, After(row, effect.change)))
  {
    var effect := SellEffect(h, handler, row, j, move);
    if effect.change.NoChange? {
      UnchangedKeepsPast(row, j, effect.journal);
    } else {
      assert row.status == Submitting;
    }
  }

  lemma CancelMoveKeepsPast(h: HandlerId, handler: Handler, row: Row, j: Journal, move: Move, sub: int, can: int)
    requires CellOk(row, j, sub, can) && PastOk(row, j) && HandlerOk(h, handler, row, j) && CanMake(handler, row, move)
    ensures var effect := CancelEffect(h, handler, row, j, move);
            PastOk(After(row, effect.change), Remember(effect.journal, After(row, effect.change)))
  {
    var effect := CancelEffect(h, handler, row, j, move);
    if effect.change.NoChange? {
      UnchangedKeepsPast(row, j, effect.journal);
    } else {
      assert effect.change.row == row.(cancellation := effect.change.row.cancellation);
      assert row.IsOpen();
    }
  }

  lemma HandlerStepKeepsInv(s: State, h: HandlerId, move: Move)
    requires Inv(s) && HandlerRuns(s, h, move)
    ensures Inv(HandlerNext(s, h, move))
  {
    hide CellOk, PastOk, HandlerOk, CanMake, GoodChange, SellEffect, CancelEffect, OthersKept;
    var id, handler := s.handlers[h].id, s.handlers[h];
    var row, j := s.db.rows[id], s.journals[id];
    var effect := HandlerEffect(h, handler, row, j, move);
    var row' := After(row, effect.change);
    var sub, can := SubmissionBalance(s.db.audit, id), CancellationBalance(s.db.audit, id);
    assert RecordOk(row, j, s.db.audit, id) && HandlerOk(h, handler, row, j);
    assert GoodEffect(h, id, row, j, effect) by {
      SellMoveIsGood(h, handler, row, j, move, sub, can);
      CancelMoveIsGood(h, handler, row, j, move, sub, can);
    }
    SellMoveKeepsPast(h, handler, row, j, move, sub, can);
    CancelMoveKeepsPast(h, handler, row, j, move, sub, can);
    RememberKeepsGoodChange(id, row, j, effect.change, effect.journal, row');
    RememberKeepsOthers(h, row, j, row', effect.journal, row');
    if effect.handler.Some? {
      RememberKeepsHandler(h, effect.handler.value, row', effect.journal, row');
    }
    TouchKeepsInv(s, h, id, effect.change, Remember(effect.journal, row'),
                  if effect.handler.Some? then s.handlers[h := effect.handler.value] else s.handlers - {h});
  }

  ghost predicate AllKept(row: Row, j: Journal, row': Row, j': Journal) {
    forall h: HandlerId, handler: Handler | HandlerOk(h, handler, row, j) :: HandlerOk(h, handler, row', j')
  }

  predicate IsTakeover(deed: Deed) {
    deed.TakeOverSubmitting? || deed.TakeOverCancelling?
  }

  lemma TakeoverIsGood(id: RecordId, row: Row, j: Journal, deed: Deed, sub: int, can: int)
    requires CellOk(row, j, sub, can) && IsTakeover(deed)
    ensures var effect := OutsideEffect(id, row, j, deed);
            effect.change.Commit? ==> GoodChange(id, row, j, effect.change, effect.journal)
  {
  }

  /** No live handler holds a claim on such a record. */
  predicate Unclaimed(row: Row) {
    row.status != Submitting && row.cancellation != Some(CancelSubmitting)
  }

  lemma UnclaimedKeepsHandlers(row: Row, j: Journal, row': Row, j': Journal)
    requires Unclaimed(row) && j'.admitted == j.admitted
    ensures AllKept(row, j, row', j')
  {
  }

  /**
   However stale the row an operator or the reconciler loaded, his commit only ever hits a record
   that no live handler holds.
   */
  lemma OutsidersHitUnclaimedRecords(id: RecordId, row: Row, j: Journal, deed: Deed, sub: int, can: int)
    requires CellOk(row, j, sub, can) && !IsTakeover(deed) && CanDo(Serving, j.seen, deed)
    requires OutsideEffect(id, row, j, deed).change.Commit?
    ensures Unclaimed(row) && OutsideEffect(id, row, j, deed).journal.admitted == j.admitted
  {
  }

  predicate IsReconciliation(deed: Deed) {
    deed.Reconcile? || deed.ReconcileUnlisted? || deed.ReconcileCancelled?
  }

  lemma ReconciliationIsGood(id: RecordId, row: Row, j: Journal, deed: Deed, sub: int, can: int)
    requires CellOk(row, j, sub, can) && IsReconciliation(deed)
    ensures var effect := OutsideEffect(id, row, j, deed);
            effect.change.Commit? ==> GoodChange(id, row, j, effect.change, effect.journal)
  {
  }

  predicate IsDecision(deed: Deed) {
    deed.DecideApproval? || deed.OperatorAssignContext? || deed.OperatorLink? || deed.OperatorFail?
  }

  lemma DecisionIsGood(id: RecordId, row: Row, j: Journal, deed: Deed, sub: int, can: int)
    requires CellOk(row, j, sub, can) && IsDecision(deed)
    ensures var effect := OutsideEffect(id, row, j, deed);
            effect.change.Commit? ==> GoodChange(id, row, j, effect.change, effect.journal)
  {
    match deed {
      case DecideApproval(_) =>
      case OperatorAssignContext(_, _, _) =>
      case OperatorLink(_, _, _, _) =>
      case OperatorFail(_, _) =>
      case _ =>
    }
  }

  lemma CancellationDecisionIsGood(id: RecordId, row: Row, j: Journal, deed: Deed, sub: int, can: int)
    requires CellOk(row, j, sub, can) && (deed.OperatorClose? || deed.OperatorNotAccepted?)
    requires CanDo(Serving, j.seen, deed)
    ensures var effect := OutsideEffect(id, row, j, deed);
            effect.change.Commit? ==> GoodChange(id, row, j, effect.change, effect.journal)
  {
  }

  lemma OutsideDeedIsGood(id: RecordId, row: Row, j: Journal, deed: Deed, phase: Phase, sub: int, can: int)
    requires CellOk(row, j, sub, can) && CanDo(phase, j.seen, deed)
    requires OutsideEffect(id, row, j, deed).change.Commit?
    ensures var effect := OutsideEffect(id, row, j, deed);
            && GoodChange(id, row, j, effect.change, effect.journal)
            && (phase == Serving ==> AllKept(row, j, effect.change.row, effect.journal))
  {
    hide CellOk, GoodChange, OutsideEffect, AllKept;
    if IsTakeover(deed) {
      TakeoverIsGood(id, row, j, deed, sub, can);
    } else {
      if IsReconciliation(deed) {
        ReconciliationIsGood(id, row, j, deed, sub, can);
      } else if IsDecision(deed) {
        DecisionIsGood(id, row, j, deed, sub, can);
      } else {
        CancellationDecisionIsGood(id, row, j, deed, sub, can);
      }
      OutsidersHitUnclaimedRecords(id, row, j, deed, sub, can);
      var effect := OutsideEffect(id, row, j, deed);
      UnclaimedKeepsHandlers(row, j, effect.change.row, effect.journal);
    }
  }

  /** Takeover and submission decisions never touch a row that is open. */
  lemma EarlyDeedKeepsPast(id: RecordId, row: Row, j: Journal, deed: Deed, sub: int, can: int)
    requires CellOk(row, j, sub, can) && PastOk(row, j) && (IsTakeover(deed) || IsDecision(deed))
    requires OutsideEffect(id, row, j, deed).change.Commit?
    ensures var effect := OutsideEffect(id, row, j, deed);
            PastOk(effect.change.row, Remember(effect.journal, effect.change.row))
  {
  }

  lemma ReconciliationKeepsPast(id: RecordId, row: Row, j: Journal, deed: Deed, sub: int, can: int)
    requires CellOk(row, j, sub, can) && PastOk(row, j) && IsReconciliation(deed) && CanDo(Serving, j.seen, deed)
    requires OutsideEffect(id, row, j, deed).change.Commit?
    ensures var effect := OutsideEffect(id, row, j, deed);
            PastOk(effect.change.row, Remember(effect.journal, effect.change.row))
  {
  }

  lemma CancellationDecisionKeepsPast(id: RecordId, row: Row, j: Journal, deed: Deed, sub: int, can: int)
    requires CellOk(row, j, sub, can) && PastOk(row, j) && (deed.OperatorClose? || deed.OperatorNotAccepted?)
    requires CanDo(Serving, j.seen, deed) && OutsideEffect(id, row, j, deed).change.Commit?
    ensures var effect := OutsideEffect(id, row, j, deed);
            PastOk(effect.change.row, Remember(effect.journal, effect.change.row))
  {
  }

  lemma DeedKeepsPast(id: RecordId, row: Row, j: Journal, deed: Deed, phase: Phase, sub: int, can: int)
    requires CellOk(row, j, sub, can) && PastOk(row, j) && CanDo(phase, j.seen, deed)
    requires OutsideEffect(id, row, j, deed).change.Commit?
    ensures var effect := OutsideEffect(id, row, j, deed);
            PastOk(effect.change.row, Remember(effect.journal, effect.change.row))
  {
    hide CellOk, PastOk, OutsideEffect;
    if IsTakeover(deed) || IsDecision(deed) {
      EarlyDeedKeepsPast(id, row, j, deed, sub, can);
    } else if IsReconciliation(deed) {
      ReconciliationKeepsPast(id, row, j, deed, sub, can);
    } else {
      CancellationDecisionKeepsPast(id, row, j, deed, sub, can);
    }
  }

  lemma OutsideKeepsHandlers(s: State, id: RecordId, change: Change, j': Journal)
    requires HandlersOk(s) && Known(s, id)
    requires s.handlers == map[] || AllKept(s.db.rows[id], s.journals[id], After(s.db.rows[id], change), j')
    ensures HandlersOk(Touch(s, id, change, Remember(j', After(s.db.rows[id], change)), s.handlers))
  {
    hide HandlerOk;
    var row' := After(s.db.rows[id], change);
    var t := Touch(s, id, change, Remember(j', row'), s.handlers);
    forall h | h in t.handlers
      ensures Known(t, t.handlers[h].id)
      ensures HandlerOk(h, t.handlers[h], t.db.rows[t.handlers[h].id], t.journals[t.handlers[h].id])
    {
      assert HandlerOk(h, s.handlers[h], s.db.rows[s.handlers[h].id], s.journals[s.handlers[h].id]);
      if s.handlers[h].id == id {
        RememberKeepsHandler(h, s.handlers[h], row', j', row');
      }
    }
  }

  lemma OutsideStepKeepsInv(s: State, id: RecordId, deed: Deed)
    requires Inv(s) && Known(s, id) && CanDo(s.phase, s.journals[id].seen, deed)
    ensures Inv(OutsideNext(s, id, deed))
  {
    hide CellOk, PastOk, HandlerOk, CanDo, GoodChange, OutsideEffect;
    var row, j := s.db.rows[id], s.journals[id];
    var effect := OutsideEffect(id, row, j, deed);
    var sub, can := SubmissionBalance(s.db.audit, id), CancellationBalance(s.db.audit, id);
    assert RecordOk(row, j, s.db.audit, id);
    if effect.change.Commit? {
      var row' := effect.change.row;
      OutsideDeedIsGood(id, row, j, deed, s.phase, sub, can);
      DeedKeepsPast(id, row, j, deed, s.phase, sub, can);
      RememberKeepsGoodChange(id, row, j, effect.change, effect.journal, row');
      TouchedRecordsOk(s, id, effect.change, Remember(effect.journal, row'), s.handlers);
      OutsideKeepsHandlers(s, id, effect.change, effect.journal);
    }
  }

  lemma AdmittedCellOk(row: Row)
    requires IsAdmission(row)
    ensures CellOk(row, NewJournal(row), 0, 0) && PastOk(row, NewJournal(row))
  {
  }

  lemma AdmitKeepsInv(s: State, id: RecordId, row: Row)
    requires Inv(s) && Enabled(s, Admit(id, row))
    ensures Inv(Next(s, Admit(id, row)))
  {
    hide CellOk, PastOk, HandlerOk;
    NoEntriesNoBalance(s.db.audit, id);
    AdmittedCellOk(row);
    var t := Next(s, Admit(id, row));
    assert t.db.audit == s.db.audit;
    forall other | other in t.db.rows
      ensures other in t.journals && RecordOk(t.db.rows[other], t.journals[other], t.db.audit, other)
    {
      assert other == id || RecordOk(s.db.rows[other], s.journals[other], s.db.audit, other);
    }
  }

  lemma StartedWithinBound(s: State, id: RecordId)
    requires Inv(s) && id in s.db.rows
    ensures s.db.rows[id].quantity <= s.journals[id].admitted
  {
    assert RecordOk(s.db.rows[id], s.journals[id], s.db.audit, id);
  }

  lemma StepKeepsInv(s: State, step: Step)
    requires Inv(s) && Enabled(s, step)
    ensures Inv(Next(s, step))
  {
    hide CellOk, PastOk, CanDo, CanMake, HandlerNext, OutsideNext;
    match step {
      case Admit(id, row) => AdmitKeepsInv(s, id, row);
      case StartSell(_, id) => StartedWithinBound(s, id);
      case StartCancel(_, _) =>
      case ByHandler(h, move) => HandlerStepKeepsInv(s, h, move);
      case Outside(id, deed) => OutsideStepKeepsInv(s, id, deed);
      case Crash =>
      case Serve =>
    }
  }

  lemma {:induction false} RunKeepsInv(s: State, steps: seq<Step>)
    requires Inv(s)
    ensures Inv(Run(s, steps))
  {
    if steps != [] {
      RunKeepsInv(s, steps[..|steps| - 1]);
      var before, step := Run(s, steps[..|steps| - 1]), steps[|steps| - 1];
      if Enabled(before, step) {
        StepKeepsInv(before, step);
      }
    }
  }
}
