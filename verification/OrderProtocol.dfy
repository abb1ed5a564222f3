/**
 The order lifecycle as a state machine over every interleaving of its actors: sell handlers,
 manual and automatic cancel handlers, periodic reconciliation, operator recovery, crashes and the
 cold-start takeover. One step is one `updateMany`, one transaction, one broker request or one
 broker answer; a crash or an exception may fall between any two steps.

 Each record has a journal of what really happened to it. Steps read nothing from a journal but
 `seen`, the values the row has had: a row that somebody loaded earlier is one of them.
 */
module OrderProtocol {
  import opened Prelude
  import opened Text
  import opened TradeRecords

  type HandlerId = nat

  /** What the broker port reported for a submitted order; a thrown error is `AnsweredUnknown`. */
  datatype Answer =
    | AnsweredAccepted(orderNo: string, date: string, time: string)
    | AnsweredIncomplete
    | AnsweredRejected
    | AnsweredUnknown

  datatype CancelAnswer = CancelTaken | CancelRefused | CancelUnclear

  /** The position of a live request handler. */
  datatype Handler =
    | SellAdmitted(id: RecordId, requested: int)
    | SellClaimed(id: RecordId, quantity: int, startedAt: int)
    | SellPosted(id: RecordId, quantity: int)
    | SellAnswered(id: RecordId, quantity: int, answer: Answer)
    | CancelLoaded(id: RecordId, initial: Row)
    | CancelClaimed(id: RecordId, initial: Row)
    | CancelVerified(id: RecordId, claimed: Row)
    | CancelPosted(id: RecordId, claimed: Row)
    | CancelAnswered(id: RecordId, outcome: CancelAnswer)

  datatype CancelRequest = CancelRequest(orderNo: string, quantity: int)

  /** Whether a person has to agree before the order may be sent, and has. */
  datatype Approval = NotNeeded | Awaited | Given

  /**
   History of one record: whether a person agreed to it, the quantities POSTed for it, the broker's
   answer, whether that answer reached the database, whether an operator decided it, whether reconciliation saw the broker reject
   it later, the cancel POSTs with the number still outstanding, whether a cancellation closure was
   committed, which handler owns the submission and the cancellation claim, and every value the row has had.
   */
  datatype Journal = Journal(
    admitted: int,
    approval: Approval,
    posts: seq<int>,
    answer: Option<Answer>,
    persisted: bool,
    operatorResolved: bool,
    refusedLater: bool,
    cancelPosts: seq<CancelRequest>,
    openCancels: int,
    closed: bool,
    submitOwner: Option<HandlerId>,
    cancelOwner: Option<HandlerId>,
    seen: set<Row>)

  datatype Phase = Recovering | Serving

  datatype State = State(
    db: Db,
    journals: map<RecordId, Journal>,
    handlers: map<HandlerId, Handler>,
    phase: Phase)

  /** What a live handler may do next. */
  datatype Move =
    | SellGiveUp
    | SellClaim(quantity: int, now: int)
    | SellCancelClaimed
    | SellPost
    | SellAnswer(answer: Answer)
    | SellRecord
    | CancelClaim
    | CancelRelease
    | CancelReload
    | CancelPost
    | CancelAnswer(outcome: CancelAnswer)
    | CancelRecord
    | Abort

  /** What happens to a record outside any handler. */
  datatype Deed =
    | TakeOverSubmitting
    | TakeOverCancelling
    | DecideApproval(approved: bool)
    | OperatorAssignContext(broker: Broker, environment: Environment, hash: string)
    | OperatorLink(loaded: Row, orderNo: string, date: string, time: string)
    | OperatorFail(loaded: Row, notSubmitted: bool)
    | OperatorClose(loaded: Row, executed: int)
    | OperatorNotAccepted(loaded: Row)
    | Reconcile(loaded: Row, filled: int, remaining: int, rejected: bool, repriced: bool)
    | ReconcileUnlisted(loaded: Row)
    | ReconcileCancelled(loaded: Row, filled: int)

  datatype Step =
    | Admit(id: RecordId, row: Row)
    | StartSell(h: HandlerId, id: RecordId)
    | StartCancel(h: HandlerId, id: RecordId)
    | ByHandler(h: HandlerId, move: Move)
    | Outside(id: RecordId, deed: Deed)
    | Crash
    | Serve

  function NewJournal(row: Row): Journal {
    var approval := if row.status == AwaitingApproval then Awaited else NotNeeded;
    Journal(row.quantity, approval, [], None, false, false, false, [], 0, false, None, None, {row})
  }

  function Init(): State {
    State(Db(map[], []), map[], map[], Recovering)
  }

  /** Admission creates an unclaimed row for a positive quantity, or one that first waits for approval. */
  predicate IsAdmission(row: Row) {
    && (row.status == Submitting || row.status == AwaitingApproval)
    && row.submissionStartedAt.None?
    && row.quantity > 0
    && row.executedQty.None?
    && row.orderNo.None?
    && row.resolution.None?
    && row.cancellation.None?
  }

  /** `isSameClaimedCancellationTarget`, on the fields this model keeps. */
  predicate SameTarget(initial: Row, claimed: Row) {
    && claimed.broker == initial.broker
    && claimed.cancellation == Some(CancelSubmitting)
    && claimed.status == initial.status
    && claimed.quantity == initial.quantity
    && claimed.executedQty == initial.executedQty
    && claimed.orderNo == initial.orderNo
    && claimed.orderDate == initial.orderDate
    && SameContext(claimed, initial)
  }

  /** What both cancel paths check on the row they load before claiming it. */
  predicate Cancellable(row: Row) {
    row.IsOpen() && row.orderNo.Some? && row.quantity - row.Executed() > 0
  }

  /** A handler that may make `move` from where it is, given the row it acts on. */
  predicate CanMake(handler: Handler, row: Row, move: Move) {
    match move
    case SellGiveUp => handler.SellAdmitted?
    case SellClaim(quantity, _) => handler.SellAdmitted? && 0 < quantity <= handler.requested
    case SellCancelClaimed => handler.SellClaimed?
    case SellPost => handler.SellClaimed?
    case SellAnswer(_) => handler.SellPosted?
    case SellRecord => handler.SellAnswered?
    case CancelClaim => handler.CancelLoaded?
    case CancelRelease => handler.CancelClaimed? || handler.CancelVerified?
    case CancelReload => handler.CancelClaimed? && SameTarget(handler.initial, row)
    case CancelPost => handler.CancelVerified?
    case CancelAnswer(_) => handler.CancelPosted?
    case CancelRecord => handler.CancelAnswered?
    case Abort => true
  }

  predicate Known(s: State, id: RecordId) {
    id in s.db.rows && id in s.journals
  }

  predicate HandlerRuns(s: State, h: HandlerId, move: Move) {
    && h in s.handlers
    && Known(s, s.handlers[h].id)
    && CanMake(s.handlers[h], s.db.rows[s.handlers[h].id], move)
  }

  /** Takeover runs before the process serves; anybody else acts on some row he loaded earlier. */
  predicate CanDo(phase: Phase, seen: set<Row>, deed: Deed) {
    match deed
    case TakeOverSubmitting => phase == Recovering
    case TakeOverCancelling => phase == Recovering
    case DecideApproval(_) => true
    case OperatorAssignContext(_, _, _) => true
    case OperatorLink(loaded, _, _, _) => loaded in seen && loaded.status == SubmissionUnknown
    case OperatorFail(loaded, _) => loaded in seen && loaded.status == SubmissionUnknown
    case OperatorClose(loaded, executed) =>
      loaded in seen && IsUnknownCancellation(loaded) && 0 <= executed && loaded.Executed() <= executed <= loaded.quantity
    case OperatorNotAccepted(loaded) => loaded in seen && IsUnknownCancellation(loaded)
    case Reconcile(loaded, _, _, _, _) => loaded in seen
    case ReconcileUnlisted(loaded) => loaded in seen
    case ReconcileCancelled(loaded, _) => loaded in seen
  }

  predicate Enabled(s: State, step: Step) {
    match step
    case Admit(id, row) => id !in s.db.rows && IsAdmission(row)
    case StartSell(h, id) => s.phase == Serving && h !in s.handlers && Known(s, id)
    case StartCancel(h, id) => s.phase == Serving && h !in s.handlers && Known(s, id) && Cancellable(s.db.rows[id])
    case ByHandler(h, move) => HandlerRuns(s, h, move)
    case Outside(id, deed) => Known(s, id) && CanDo(s.phase, s.journals[id].seen, deed)
    case Crash => true
    case Serve => true
  }

  /** What a step does to the record it acts on and, for a move, where the handler goes next. */
  datatype Effect = Effect(change: Change, journal: Journal, handler: Option<Handler>)

  /** The write a sell handler makes for the broker's answer. */
  function AnswerChange(id: RecordId, row: Row, answer: Answer): Change {
    match answer
    case AnsweredAccepted(orderNo, date, time) => PersistAccepted(row, orderNo, date, time)
    case AnsweredRejected => PersistRejected(row)
    case AnsweredIncomplete => MarkSubmissionUnknown(id, row)
    case AnsweredUnknown => MarkSubmissionUnknown(id, row)
  }

  function CancelAnswerChange(id: RecordId, row: Row, outcome: CancelAnswer): Change {
    match outcome
    case CancelTaken => AcceptCancellation(row, row.broker)
    case CancelRefused => RejectCancellation(row, row.broker)
    case CancelUnclear => MarkCancellationUnknown(id, row, row.broker)
  }

  function SellEffect(h: HandlerId, handler: Handler, row: Row, j: Journal, move: Move): Effect
    requires CanMake(handler, row, move)
  {
    var id := handler.id;
    match move
    case SellGiveUp => Effect(CancelPreSubmit(row), j, None)
    case SellClaim(quantity, now) =>
      var change := ClaimSubmission(row, quantity, now);
      if change.Commit? then Effect(change, j.(submitOwner := Some(h)), Some(SellClaimed(id, quantity, now)))
      else Effect(NoChange, j, None)
    case SellCancelClaimed => Effect(CancelClaimedSubmission(row, handler.startedAt), j.(submitOwner := None), None)
    case SellPost =>
      Effect(NoChange, j.(posts := j.posts + [handler.quantity]), Some(SellPosted(id, handler.quantity)))
    case SellAnswer(answer) =>
      Effect(NoChange, j.(answer := Some(answer)), Some(SellAnswered(id, handler.quantity, answer)))
    case SellRecord =>
      var change := AnswerChange(id, row, handler.answer);
      var answered := handler.answer.AnsweredAccepted? || handler.answer.AnsweredRejected?;
      Effect(change, j.(submitOwner := None, persisted := j.persisted || (answered && change.Commit?)), None)
    case _ => Effect(NoChange, j, None)
  }

  function CancelEffect(h: HandlerId, handler: Handler, row: Row, j: Journal, move: Move): Effect
    requires CanMake(handler, row, move)
  {
    var id := handler.id;
    match move
    case CancelClaim =>
      var change := ClaimCancellation(row, handler.initial.broker);
      if change.Commit? then Effect(change, j.(cancelOwner := Some(h)), Some(CancelClaimed(id, handler.initial)))
      else Effect(NoChange, j, None)
    case CancelRelease => Effect(RejectCancellation(row, row.broker), j.(cancelOwner := None), None)
    case CancelReload => Effect(NoChange, j, Some(CancelVerified(id, row)))
    case CancelPost =>
      var claimed := handler.claimed;
      var orderNo := if claimed.orderNo.Some? then Trim(claimed.orderNo.value) else "";
      var request := CancelRequest(orderNo, Max(0, claimed.quantity - claimed.Executed()));
      Effect(NoChange, j.(cancelPosts := j.cancelPosts + [request], openCancels := j.openCancels + 1),
             Some(CancelPosted(id, claimed)))
    case CancelAnswer(outcome) => Effect(NoChange, j, Some(CancelAnswered(id, outcome)))
    case CancelRecord =>
      var change := CancelAnswerChange(id, row, handler.outcome);
      var refused := handler.outcome.CancelRefused? && change.Commit?;
      Effect(change, j.(cancelOwner := None, openCancels := if refused then j.openCancels - 1 else j.openCancels), None)
    case _ => Effect(NoChange, j, None)
  }

  function HandlerEffect(h: HandlerId, handler: Handler, row: Row, j: Journal, move: Move): Effect
    requires CanMake(handler, row, move)
  {
    if move.CancelClaim? || move.CancelRelease? || move.CancelReload? || move.CancelPost? || move.CancelAnswer? || move.CancelRecord?
    then CancelEffect(h, handler, row, j, move)
    else SellEffect(h, handler, row, j, move)
  }

  function OutsideEffect(id: RecordId, row: Row, j: Journal, deed: Deed): Effect {
    match deed
    case TakeOverSubmitting => Effect(TakeOverSubmission(id, row), j, None)
    case TakeOverCancelling => Effect(TakeOverCancellation(id, row), j, None)
    case DecideApproval(approved) =>
      Effect(AnswerApproval(row, approved), if approved then j.(approval := Given) else j, None)
    case OperatorAssignContext(broker, environment, hash) =>
      Effect(AssignContext(id, row, broker, environment, hash), j, None)
    case OperatorLink(loaded, orderNo, date, time) =>
      Effect(LinkCandidate(id, row, loaded, orderNo, date, time), j.(operatorResolved := true), None)
    case OperatorFail(loaded, notSubmitted) =>
      Effect(ResolveSubmissionAsFailed(id, row, loaded, notSubmitted), j.(operatorResolved := true), None)
    case OperatorClose(loaded, executed) =>
      Effect(CloseCancellation(id, row, loaded, executed), j.(openCancels := 0, closed := true), None)
    case OperatorNotAccepted(loaded) =>
      Effect(ConfirmCancellationNotAccepted(id, row, loaded), j.(openCancels := 0), None)
    case Reconcile(loaded, filled, remaining, rejected, repriced) =>
      Effect(ReconcileOpen(row, loaded, filled, remaining, rejected, repriced),
             j.(refusedLater := j.refusedLater || rejected), None)
    case ReconcileUnlisted(loaded) => Effect(CloseUnlisted(row, loaded), j, None)
    case ReconcileCancelled(loaded, filled) =>
      Effect(ReconcileAccepted(id, row, loaded, filled), j.(openCancels := 0, closed := true), None)
  }

  /** The journal `j` once its record holds `row`. */
  function Remember(j: Journal, row: Row): Journal {
    j.(seen := j.seen + {row})
  }

  /** Commits `change` to a row together with the new journal and handlers. */
  function Touch(s: State, id: RecordId, change: Change, journal: Journal, handlers: map<HandlerId, Handler>): State {
    State(s.db.Write(id, change), s.journals[id := journal], handlers, s.phase)
  }

  function HandlerNext(s: State, h: HandlerId, move: Move): State
    requires HandlerRuns(s, h, move)
  {
    var id := s.handlers[h].id;
    var effect := HandlerEffect(h, s.handlers[h], s.db.rows[id], s.journals[id], move);
    Touch(s, id, effect.change, Remember(effect.journal, After(s.db.rows[id], effect.change)),
          if effect.handler.Some? then s.handlers[h := effect.handler.value] else s.handlers - {h})
  }

  /** Outside a handler, a guard that fails leaves everything as it was. */
  function OutsideNext(s: State, id: RecordId, deed: Deed): State
    requires Known(s, id)
  {
    var effect := OutsideEffect(id, s.db.rows[id], s.journals[id], deed);
    if effect.change.NoChange? then s
    else Touch(s, id, effect.change, Remember(effect.journal, effect.change.row), s.handlers)
  }

  function Next(s: State, step: Step): State
    requires Enabled(s, step)
  {
    match step
    case Admit(id, row) =>
      s.(db := Db(s.db.rows[id := row], s.db.audit),
         journals := s.journals[id := NewJournal(row)])
    case StartSell(h, id) => s.(handlers := s.handlers[h := SellAdmitted(id, s.db.rows[id].quantity)])
    case StartCancel(h, id) => s.(handlers := s.handlers[h := CancelLoaded(id, s.db.rows[id])])
    case ByHandler(h, move) => HandlerNext(s, h, move)
    case Outside(id, deed) => OutsideNext(s, id, deed)
    case Crash => s.(handlers := map[], phase := Recovering)
    case Serve => s.(phase := Serving)
  }

  /** Runs a schedule; a step that is not enabled is skipped. */
  function Run(s: State, steps: seq<Step>): State {
    if steps == [] then s
    else
      var before := Run(s, steps[..|steps| - 1]);
      var step := steps[|steps| - 1];
      if Enabled(before, step) then Next(before, step) else before
  }
}
