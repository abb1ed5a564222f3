/** What the order lifecycle promises, for every schedule of steps from an empty table. */
module OrderTheorems {
  import opened Prelude
  import opened Text
  import opened TradeRecords
  import opened OrderProtocol
  import opened OrderSafety
  import K = KisMutation

  function Reached(steps: seq<Step>): State {
    Run(Init(), steps)
  }

  lemma ReachedIsSafe(steps: seq<Step>)
    ensures Inv(Reached(steps))
  {
    RunKeepsInv(Init(), steps);
  }

  // ---------------------------------------------------------------------------
  // Submission
  // ---------------------------------------------------------------------------

  /**
   At most one order is ever POSTed for a record, whatever handlers race on it and wherever the
   process crashes; the POSTed quantity is the stored one and no more than was admitted; a record
   that was never claimed, or is cancelled without a start time, was never POSTed.
   */
  lemma AtMostOneOrderPerRecord(steps: seq<Step>, id: RecordId)
    requires id in Reached(steps).db.rows
    ensures var s := Reached(steps);
            && id in s.journals
            && var row, posts := s.db.rows[id], s.journals[id].posts;
            && |posts| <= 1
            && (posts != [] ==> posts == [row.quantity] && 0 < row.quantity <= s.journals[id].admitted)
            && (row.submissionStartedAt.None? ==> posts == [])
            && (posts != [] && row.status == Cancelled ==> row.submissionStartedAt.Some?)
  {
    ReachedIsSafe(steps);
    assert SubmissionOk(Reached(steps).db.rows[id], Reached(steps).journals[id]);
  }

  /**
   No order without consent: a record that was created to wait for a person's approval is POSTed only
   after the approval was committed; until then, and after a refusal or an expiry, nothing was sent.
   And nothing is sent for a record while it still waits.
   */
  lemma NothingIsSentBeforeApproval(steps: seq<Step>, id: RecordId)
    requires id in Reached(steps).db.rows
    ensures var s := Reached(steps);
            && id in s.journals
            && var row, j := s.db.rows[id], s.journals[id];
            && (row.status == AwaitingApproval ==> j.approval == Awaited)
            && (j.approval == Awaited ==> j.posts == [] && row.status in {AwaitingApproval, Cancelled})
  {
    ReachedIsSafe(steps);
    assert SubmissionOk(Reached(steps).db.rows[id], Reached(steps).journals[id]);
  }

  predicate HistoryExtends(before: State, after: State, id: RecordId)
    requires id in before.journals
  {
    && id in after.journals
    && before.journals[id].posts <= after.journals[id].posts
    && before.journals[id].cancelPosts <= after.journals[id].cancelPosts
  }

  /** The journal is a history: a request once sent is never forgotten. */
  lemma {:induction false} HistoryOnlyGrows(s: State, steps: seq<Step>, id: RecordId)
    requires s.journals.Keys == s.db.rows.Keys && id in s.journals
    ensures Run(s, steps).journals.Keys == Run(s, steps).db.rows.Keys
    ensures HistoryExtends(s, Run(s, steps), id)
  {
    if steps != [] {
      HistoryOnlyGrows(s, steps[..|steps| - 1], id);
      var before, step := Run(s, steps[..|steps| - 1]), steps[|steps| - 1];
      if Enabled(before, step) {
        assert HistoryExtends(before, Next(before, step), id);
      }
    }
  }

  /**
   No order is lost: once POSTed, and until the broker's answer is stored or an operator decides, the
   record is `SUBMITTING` with a start time or `SUBMISSION_UNKNOWN`.
   */
  lemma NoOrderIsLost(steps: seq<Step>, id: RecordId)
    requires id in Reached(steps).db.rows
    ensures var s := Reached(steps);
            && id in s.journals
            && var row, j := s.db.rows[id], s.journals[id];
            j.posts != [] && !j.persisted && !j.operatorResolved ==>
              && row.submissionStartedAt.Some?
              && (row.status == Submitting || row.status == SubmissionUnknown)
  {
    ReachedIsSafe(steps);
    assert SubmissionOk(Reached(steps).db.rows[id], Reached(steps).journals[id]);
  }

  lemma {:induction false} RunConcat(s: State, a: seq<Step>, b: seq<Step>)
    ensures Run(s, a + b) == Run(Run(s, a), b)
  {
    if b == [] {
      assert a + b == a;
    } else {
      hide Enabled, Next;
      RunConcat(s, a, b[..|b| - 1]);
      assert (a + b)[..|a + b| - 1] == a + b[..|b| - 1];
    }
  }

  /** One takeover loop over the ids it listed. */
  function Sweep(ids: seq<RecordId>, deed: Deed): seq<Step> {
    seq(|ids|, i requires 0 <= i < |ids| => Outside(ids[i], deed))
  }

  /** A crash, the two loops of the takeover, and the start of serving. */
  function TakeoverSteps(submissions: seq<RecordId>, cancellations: seq<RecordId>): seq<Step> {
    [Crash] + Sweep(submissions, TakeOverSubmitting) + Sweep(cancellations, TakeOverCancelling) + [Serve]
  }

  /** The loop listed every attempt that was still `SUBMITTING`, and only records that exist. */
  ghost predicate ListsStale(rows: map<RecordId, Row>, submissions: seq<RecordId>, cancellations: seq<RecordId>) {
    && (forall id :: id in submissions || id in cancellations ==> id in rows)
    && (forall id :: id in rows && rows[id].status == Submitting ==> id in submissions)
    && (forall id :: id in rows && rows[id].cancellation == Some(CancelSubmitting) ==> id in cancellations)
  }

  function Taken(id: RecordId, row: Row, deed: Deed): Row {
    match deed
    case TakeOverSubmitting => After(row, TakeOverSubmission(id, row))
    case TakeOverCancelling => After(row, TakeOverCancellation(id, row))
    case _ => row
  }

  /** Same history, apart from the values the row has had. */
  predicate SameStory(j: Journal, k: Journal) {
    j == k.(seen := j.seen)
  }

  /** What one loop leaves: the listed rows taken over, everything else and every history as it was. */
  ghost predicate IsSwept(s: State, t: State, ids: seq<RecordId>, deed: Deed) {
    && t.phase == s.phase && t.handlers == s.handlers
    && t.db.rows.Keys == s.db.rows.Keys == t.journals.Keys == s.journals.Keys
    && (forall id :: id in s.db.rows ==> t.db.rows[id] == if id in ids then Taken(id, s.db.rows[id], deed) else s.db.rows[id])
    && (forall id :: id in s.journals ==> SameStory(t.journals[id], s.journals[id]))
  }

  lemma SweptOne(s: State, id: RecordId, deed: Deed)
    requires s.phase == Recovering && (deed == TakeOverSubmitting || deed == TakeOverCancelling)
    requires s.db.rows.Keys == s.journals.Keys && id in s.db.rows
    ensures Enabled(s, Outside(id, deed)) && IsSwept(s, Next(s, Outside(id, deed)), [id], deed)
  {
  }

  lemma TakenTwice(id: RecordId, row: Row, deed: Deed)
    ensures Taken(id, Taken(id, row, deed), deed) == Taken(id, row, deed)
  {
  }

  lemma {:induction false} Swept(s: State, ids: seq<RecordId>, deed: Deed)
    requires s.phase == Recovering && (deed == TakeOverSubmitting || deed == TakeOverCancelling)
    requires s.db.rows.Keys == s.journals.Keys && forall id :: id in ids ==> id in s.db.rows
    ensures IsSwept(s, Run(s, Sweep(ids, deed)), ids, deed)
  {
    hide IsSwept, Next, Enabled, Taken;
    if ids == [] {
      SweptNone(s, deed);
    } else {
      var before, last := ids[..|ids| - 1], ids[|ids| - 1];
      Swept(s, before, deed);
      var t := Run(s, Sweep(before, deed));
      assert Sweep(ids, deed)[..|ids| - 1] == Sweep(before, deed);
      SweptKeeps(s, t, before, deed);
      SweptOne(t, last, deed);
      SweptMore(s, t, Next(t, Outside(last, deed)), before, last, deed);
      assert ids == before + [last];
    }
  }

  lemma SweptNone(s: State, deed: Deed)
    requires s.db.rows.Keys == s.journals.Keys
    ensures IsSwept(s, s, [], deed)
  {
  }

  lemma SweptKeeps(s: State, t: State, ids: seq<RecordId>, deed: Deed)
    requires IsSwept(s, t, ids, deed)
    ensures t.phase == s.phase && t.handlers == s.handlers && t.db.rows.Keys == s.db.rows.Keys == t.journals.Keys == s.journals.Keys
  {
  }

  lemma SweptMore(s: State, t: State, u: State, before: seq<RecordId>, last: RecordId, deed: Deed)
    requires IsSwept(s, t, before, deed) && IsSwept(t, u, [last], deed) && last in s.db.rows
    ensures IsSwept(s, u, before + [last], deed)
  {
    hide Taken, SameStory;
    TakenTwice(last, s.db.rows[last], deed);
    forall id | id in s.journals
      ensures SameStory(u.journals[id], s.journals[id])
    {
      StoryGoesOn(s.journals[id], t.journals[id], u.journals[id]);
    }
  }

  lemma StoryGoesOn(j: Journal, k: Journal, l: Journal)
    requires SameStory(k, j) && SameStory(l, k)
    ensures SameStory(l, j)
  {
  }

  /** The schedule of a takeover takes every row over and changes no history. */
  lemma TakeoverRuns(s: State, submissions: seq<RecordId>, cancellations: seq<RecordId>)
    requires s.db.rows.Keys == s.journals.Keys && ListsStale(s.db.rows, submissions, cancellations)
    ensures var t := Run(s, TakeoverSteps(submissions, cancellations));
            && t.phase == Serving && t.handlers == map[] && t.db.rows == TakeOverAll(s.db.rows)
            && t.journals.Keys == s.journals.Keys
            && forall id :: id in s.journals ==> SameStory(t.journals[id], s.journals[id])
  {
    hide Run, IsSwept, Taken;
    var crashed := Next(s, Crash);
    var first := Run(crashed, Sweep(submissions, TakeOverSubmitting));
    var second := Run(first, Sweep(cancellations, TakeOverCancelling));
    Swept(crashed, submissions, TakeOverSubmitting);
    SweptKeeps(crashed, first, submissions, TakeOverSubmitting);
    Swept(first, cancellations, TakeOverCancelling);
    SweptKeeps(first, second, cancellations, TakeOverCancelling);
    RunOne(s, Crash);
    RunConcat(s, [Crash], Sweep(submissions, TakeOverSubmitting));
    RunConcat(s, [Crash] + Sweep(submissions, TakeOverSubmitting), Sweep(cancellations, TakeOverCancelling));
    RunConcat(s, [Crash] + Sweep(submissions, TakeOverSubmitting) + Sweep(cancellations, TakeOverCancelling), [Serve]);
    RunOne(second, Serve);
    BothSwept(crashed, first, second, submissions, cancellations);
  }

  lemma BothSwept(s: State, first: State, second: State, submissions: seq<RecordId>, cancellations: seq<RecordId>)
    requires IsSwept(s, first, submissions, TakeOverSubmitting) && IsSwept(first, second, cancellations, TakeOverCancelling)
    requires ListsStale(s.db.rows, submissions, cancellations)
    ensures second.db.rows == TakeOverAll(s.db.rows)
    ensures forall id :: id in s.journals ==> SameStory(second.journals[id], s.journals[id])
  {
    hide Taken, TakenOver, SameStory;
    forall id | id in s.journals
      ensures SameStory(second.journals[id], s.journals[id])
    {
      StoryGoesOn(s.journals[id], first.journals[id], second.journals[id]);
    }
    forall id | id in s.db.rows
      ensures second.db.rows[id] == TakenOver(id, s.db.rows[id])
    {
      UnlistedIsSettled(id, s.db.rows[id], submissions, cancellations);
    }
  }

  lemma RunOne(s: State, step: Step)
    requires Enabled(s, step)
    ensures Run(s, [step]) == Next(s, step)
  {
    hide Enabled, Next;
    assert [step][..0] == [];
  }

  lemma UnlistedIsSettled(id: RecordId, row: Row, submissions: seq<RecordId>, cancellations: seq<RecordId>)
    requires row.status == Submitting ==> id in submissions
    requires row.cancellation == Some(CancelSubmitting) ==> id in cancellations
    ensures var first := if id in submissions then Taken(id, row, TakeOverSubmitting) else row;
            (if id in cancellations then Taken(id, first, TakeOverCancelling) else first) == TakenOver(id, row)
  {
  }

  /**
   After any schedule, a crash at any point and a complete takeover: the process serves with no handler
   left over, no record is `SUBMITTING`, every order POSTed before whose answer was not stored is on the
   recovery list, one that never started is cancelled and was never POSTed, and every cancel request
   still outstanding is on the list or accepted.
   */
  lemma TakeoverFindsEveryOpenOrder(
    steps: seq<Step>, submissions: seq<RecordId>, cancellations: seq<RecordId>, id: RecordId)
    requires id in Reached(steps).db.rows && ListsStale(Reached(steps).db.rows, submissions, cancellations)
    ensures var s, t := Reached(steps), Reached(steps + TakeoverSteps(submissions, cancellations));
            && t.phase == Serving && t.handlers == map[]
            && id in t.db.rows && id in t.journals && id in s.journals
            && SameStory(t.journals[id], s.journals[id])
            && var row, j := t.db.rows[id], t.journals[id];
            && row == TakenOver(id, s.db.rows[id]) && row.status != Submitting
            && (j.posts != [] && !j.persisted && !j.operatorResolved ==> id in RecoveryItems(t.db.rows))
            && (s.db.rows[id].status == Submitting && s.db.rows[id].submissionStartedAt.None? ==>
                  row.status == Cancelled && j.posts == [])
            && (j.openCancels > 0 ==> id in RecoveryItems(t.db.rows) || row.cancellation == Some(CancelAccepted))
  {
    hide Run, TakeoverSteps;
    var s, schedule := Reached(steps), steps + TakeoverSteps(submissions, cancellations);
    ReachedIsSafe(steps);
    ReachedIsSafe(schedule);
    RunConcat(Init(), steps, TakeoverSteps(submissions, cancellations));
    TakeoverRuns(s, submissions, cancellations);
    var t := Reached(schedule);
    assert CellOk(t.db.rows[id], t.journals[id], SubmissionBalance(t.db.audit, id), CancellationBalance(t.db.audit, id));
    TakeoverSettlesEveryRow(id, s.db.rows[id]);
  }

  /**
   `FAILED` is never a guess: the broker's rejection was stored, an operator decided, or
   reconciliation saw the broker reject an order it had accepted.
   */
  lemma FailedMeansRefused(steps: seq<Step>, id: RecordId)
    requires id in Reached(steps).db.rows && Reached(steps).db.rows[id].status == Failed
    ensures id in Reached(steps).journals
    ensures var j := Reached(steps).journals[id];
            j.operatorResolved || j.refusedLater || (j.persisted && j.answer == Some(AnsweredRejected))
  {
    ReachedIsSafe(steps);
    assert SubmissionOk(Reached(steps).db.rows[id], Reached(steps).journals[id]);
  }

  /** What a sell handler makes of an order request to KIS. */
  function AnswerOf(outcome: K.Outcome): Answer {
    match outcome
    case Accepted(orderNo, date, time) => AnsweredAccepted(orderNo, date, time)
    case Rejected => AnsweredRejected
    case Unknown => AnsweredUnknown
  }

  /**
   End to end on the KIS path, over every schedule: a record nobody decided and reconciliation did not
   fail is `FAILED` only if its request never left or the broker refused it in so many words; whatever
   else happens on the wire, a lost or unreadable answer in particular, never leads there.
   */
  lemma FailedMeansNotSentOrRefused(steps: seq<Step>, id: RecordId, wire: K.Wire, call: int)
    requires id in Reached(steps).db.rows && Reached(steps).db.rows[id].status == Failed
    requires id in Reached(steps).journals
    requires var j := Reached(steps).journals[id];
             !j.operatorResolved && !j.refusedLater && j.answer == Some(AnswerOf(K.Order(wire, call)))
    ensures wire.NeverSent? || K.Refused(wire)
  {
    hide K.Order, K.Refused, Run;
    FailedMeansRefused(steps, id);
    K.RejectedExactly(wire, call);
  }

  /**
   What is stored of an accepted order, over every schedule: the number, date and time the broker gave,
   and nothing ever replaces them; only closing a partly filled order takes the number away.
   */
  lemma AcceptedOrderIsStored(steps: seq<Step>, id: RecordId)
    requires id in Reached(steps).db.rows && id in Reached(steps).journals
    requires Reached(steps).journals[id].persisted
    requires Reached(steps).journals[id].answer.Some? && Reached(steps).journals[id].answer.value.AnsweredAccepted?
    ensures var row, answer := Reached(steps).db.rows[id], Reached(steps).journals[id].answer.value;
            && row.orderDate == Some(answer.date) && row.orderTime == Some(answer.time)
            && (row.orderNo == Some(answer.orderNo) || (row.orderNo.None? && row.status == Partial && row.Terminal()))
  {
    ReachedIsSafe(steps);
    assert SubmissionOk(Reached(steps).db.rows[id], Reached(steps).journals[id]);
  }

  /** End to end on the KIS path: the stored order number is the one in the broker's answer, trimmed. */
  lemma StoredNumberIsTheBrokers(steps: seq<Step>, id: RecordId, wire: K.Wire, call: int)
    requires id in Reached(steps).db.rows && id in Reached(steps).journals
    requires Reached(steps).journals[id].persisted && K.Order(wire, call).Accepted?
    requires Reached(steps).journals[id].answer == Some(AnswerOf(K.Order(wire, call)))
    requires Reached(steps).db.rows[id].orderNo.Some?
    ensures wire.SentAndReturned? && wire.body.Some? && wire.body.value.orderNo.Some?
    ensures Reached(steps).db.rows[id].orderNo == Some(Trim(wire.body.value.orderNo.value))
  {
    hide K.Order, Run;
    AcceptedOrderIsStored(steps, id);
    K.AcceptedExactly(wire, call);
  }

  // ---------------------------------------------------------------------------
  // Cancellation
  // ---------------------------------------------------------------------------

  /** With manual and automatic cancellers racing, at most one cancel request is outstanding. */
  lemma AtMostOneOutstandingCancel(steps: seq<Step>, id: RecordId)
    requires id in Reached(steps).db.rows
    ensures var s := Reached(steps);
            && id in s.journals
            && 0 <= s.journals[id].openCancels <= 1
            && (s.journals[id].openCancels == 1 ==> s.db.rows[id].CancelInFlight())
            && (s.db.rows[id].CancelInFlight() ==> s.db.rows[id].IsOpen() && s.db.rows[id].orderNo.Some?)
  {
    ReachedIsSafe(steps);
    assert CancellationOk(Reached(steps).db.rows[id], Reached(steps).journals[id]);
  }

  /** A cancel request always names the stored order and exactly its unfilled remainder. */
  lemma CancelRequestsAreExact(steps: seq<Step>, h: HandlerId)
    requires Enabled(Reached(steps), ByHandler(h, CancelPost))
    ensures var s := Reached(steps);
            var id := s.handlers[h].id;
            var row := s.db.rows[id];
            && row.orderNo.Some?
            && 0 < row.quantity - row.Executed()
            && Next(s, ByHandler(h, CancelPost)).journals[id].cancelPosts
                 == s.journals[id].cancelPosts + [CancelRequest(Trim(row.orderNo.value), row.quantity - row.Executed())]
            && Next(s, ByHandler(h, CancelPost)).journals[id].openCancels == 1
  {
    ReachedIsSafe(steps);
    var s := Reached(steps);
    hide RecordsOk, NoStrayAudit, Run;
    var id := s.handlers[h].id;
    assert HandlerOk(h, s.handlers[h], s.db.rows[id], s.journals[id]);
  }

  lemma MoveSparesTerminal(h: HandlerId, handler: Handler, row: Row, j: Journal, move: Move, sub: int, can: int)
    requires CellOk(row, j, sub, can) && HandlerOk(h, handler, row, j) && CanMake(handler, row, move) && row.Terminal()
    ensures HandlerEffect(h, handler, row, j, move).change == NoChange
  {
  }

  lemma DeedSparesTerminal(id: RecordId, row: Row, j: Journal, deed: Deed, sub: int, can: int)
    requires CellOk(row, j, sub, can) && row.Terminal()
    ensures OutsideEffect(id, row, j, deed).change == NoChange
  {
  }

  lemma TerminalRowUntouched(s: State, step: Step, id: RecordId)
    requires Inv(s) && Enabled(s, step) && id in s.db.rows && s.db.rows[id].Terminal()
    ensures id in Next(s, step).db.rows && Next(s, step).db.rows[id] == s.db.rows[id]
  {
    hide HandlerEffect, OutsideEffect, HandlerOk, CellOk, CanMake, CanDo, PastOk;
    var row, j := s.db.rows[id], s.journals[id];
    var sub, can := SubmissionBalance(s.db.audit, id), CancellationBalance(s.db.audit, id);
    assert RecordOk(row, j, s.db.audit, id);
    if step.ByHandler? && s.handlers[step.h].id == id {
      assert HandlerOk(step.h, s.handlers[step.h], row, j);
      MoveSparesTerminal(step.h, s.handlers[step.h], row, j, step.move, sub, can);
    } else if step.Outside? && step.id == id {
      DeedSparesTerminal(id, row, j, step.deed, sub, can);
    }
  }

  /** A filled, cancelled, failed or closed partial record is never written again, by anyone. */
  lemma {:induction false} TerminalIsForever(s: State, steps: seq<Step>, id: RecordId)
    requires Inv(s) && id in s.db.rows && s.db.rows[id].Terminal()
    ensures id in Run(s, steps).db.rows && Run(s, steps).db.rows[id] == s.db.rows[id]
  {
    if steps != [] {
      TerminalIsForever(s, steps[..|steps| - 1], id);
      RunKeepsInv(s, steps[..|steps| - 1]);
      var before, step := Run(s, steps[..|steps| - 1]), steps[|steps| - 1];
      if Enabled(before, step) {
        TerminalRowUntouched(before, step, id);
      }
    }
  }

  /** Once a cancellation closure is committed, no later cancellation claim succeeds on the record. */
  lemma ClosureIsFinal(steps: seq<Step>, later: seq<Step>, id: RecordId, broker: Broker)
    requires id in Reached(steps).journals && Reached(steps).journals[id].closed
    ensures var s := Run(Reached(steps), later);
            id in s.db.rows && s.db.rows[id].Terminal() && ClaimCancellation(s.db.rows[id], broker) == NoChange
  {
    ReachedIsSafe(steps);
    var s := Reached(steps);
    assert CancellationOk(s.db.rows[id], s.journals[id]);
    TerminalIsForever(s, later, id);
  }

  // ---------------------------------------------------------------------------
  // Order numbers
  // ---------------------------------------------------------------------------

  /** The writes that take the order number off an open row: the remainder of a partly filled order is over. */
  predicate ClearsNumber(row: Row, deed: Deed) {
    match deed
    case OperatorClose(loaded, executed) => CancellationCas(row, loaded) && 0 < executed < loaded.quantity
    case ReconcileCancelled(loaded, filled) =>
      && ReconcileAccepted("", row, loaded, filled).Commit?
      && 0 < TotalExecuted(loaded, filled) < loaded.quantity
    case Reconcile(loaded, filled, remaining, rejected, repriced) =>
      && ReconcileOpen(row, loaded, filled, remaining, rejected, repriced).Commit?
      && 0 < TotalExecuted(loaded, filled) < loaded.quantity && !rejected && remaining <= 0
    case ReconcileUnlisted(loaded) => CloseUnlisted(row, loaded).Commit? && loaded.status == Partial
    case _ => false
  }

  /** An order number is cleared by exactly these writes, and the row is then a closed partial for good. */
  lemma NumberIsClearedExactlyWhen(s: State, step: Step, id: RecordId)
    requires Inv(s) && Enabled(s, step) && id in s.db.rows && s.db.rows[id].orderNo.Some?
    ensures id in Next(s, step).db.rows
    ensures Next(s, step).db.rows[id].orderNo.None?
       <==> step.Outside? && step.id == id && ClearsNumber(s.db.rows[id], step.deed)
    ensures Next(s, step).db.rows[id].orderNo.None? ==>
              Next(s, step).db.rows[id].status == Partial && Next(s, step).db.rows[id].Terminal()
  {
    hide HandlerEffect, OutsideEffect, HandlerOk, CellOk, CanMake, CanDo, PastOk, ClearsNumber;
    var row, j := s.db.rows[id], s.journals[id];
    assert RecordOk(row, j, s.db.audit, id);
    if step.ByHandler? && s.handlers[step.h].id == id {
      MoveKeepsNumber(step.h, s.handlers[step.h], row, j, step.move);
    } else if step.Outside? && step.id == id {
      DeedOnNumber(id, row, j, step.deed, s.phase, SubmissionBalance(s.db.audit, id), CancellationBalance(s.db.audit, id));
    }
  }

  lemma MoveKeepsNumber(h: HandlerId, handler: Handler, row: Row, j: Journal, move: Move)
    requires CanMake(handler, row, move) && row.orderNo.Some?
    ensures After(row, HandlerEffect(h, handler, row, j, move).change).orderNo.Some?
  {
  }

  lemma DeedOnNumber(id: RecordId, row: Row, j: Journal, deed: Deed, phase: Phase, sub: int, can: int)
    requires CellOk(row, j, sub, can) && PastOk(row, j) && CanDo(phase, j.seen, deed) && row.orderNo.Some?
    ensures var after := After(row, OutsideEffect(id, row, j, deed).change);
            && (after.orderNo.None? <==> ClearsNumber(row, deed))
            && (after.orderNo.None? ==> after.status == Partial && after.Terminal())
  {
  }

  // ---------------------------------------------------------------------------
  // Audit log
  // ---------------------------------------------------------------------------

  /**
   The audit log balances: a record has exactly one more "unknown" entry than resolving entries while
   it is unknown, and as many otherwise; the same for cancellations, across repeated attempts.
   */
  lemma AuditBalances(steps: seq<Step>, id: RecordId)
    requires id in Reached(steps).db.rows
    ensures var s := Reached(steps);
            && SubmissionBalance(s.db.audit, id) == (if s.db.rows[id].status == SubmissionUnknown then 1 else 0)
            && CancellationBalance(s.db.audit, id) == (if s.db.rows[id].cancellation == Some(CancelUnknown) then 1 else 0)
  {
    ReachedIsSafe(steps);
    var s := Reached(steps);
    assert RecordOk(s.db.rows[id], s.journals[id], s.db.audit, id);
  }

  // ---------------------------------------------------------------------------
  // Executed quantity
  // ---------------------------------------------------------------------------

  /** No schedule makes a record execute more than its quantity, or fill without executing all of it. */
  lemma ExecutedStaysWithinOrder(steps: seq<Step>, id: RecordId)
    requires id in Reached(steps).db.rows
    ensures var row := Reached(steps).db.rows[id];
            && 0 <= row.Executed() <= row.quantity
            && (row.status == Filled ==> row.Executed() == row.quantity)
  {
    ReachedIsSafe(steps);
    var s := Reached(steps);
    assert RecordOk(s.db.rows[id], s.journals[id], s.db.audit, id);
  }

  /**
   The stored executed quantity goes down in exactly one way: a closure computed from a row that was
   loaded before another writer raised the quantity.
   */
  lemma ExecutedGoesDownOnlyOnStaleClosure(s: State, step: Step, id: RecordId)
    requires Inv(s) && Enabled(s, step) && id in s.db.rows
    ensures id in Next(s, step).db.rows
    ensures Next(s, step).db.rows[id].Executed() < s.db.rows[id].Executed()
        <==> && step.Outside? && step.id == id && step.deed.OperatorClose?
             && CancellationCas(s.db.rows[id], step.deed.loaded)
             && step.deed.executed < s.db.rows[id].Executed()
  {
    hide HandlerEffect, OutsideEffect, HandlerOk, CellOk, CanMake, CanDo, PastOk;
    var row, j := s.db.rows[id], s.journals[id];
    assert RecordOk(row, j, s.db.audit, id);
    if step.ByHandler? && s.handlers[step.h].id == id {
      MoveKeepsExecuted(step.h, s.handlers[step.h], row, j, step.move);
    } else if step.Outside? && step.id == id {
      DeedOnExecuted(id, row, j, step.deed, s.phase, SubmissionBalance(s.db.audit, id), CancellationBalance(s.db.audit, id));
    }
  }

  /**
   The check the guard omits: a closure that passes the guard can lower the executed quantity, with some
   figure its operator may have read, if and only if the loaded row had fewer fills than the stored one.
   */
  lemma ClosureLowersExactlyWhenStale(s: State, id: RecordId, loaded: Row)
    requires Inv(s) && Known(s, id) && loaded in s.journals[id].seen && IsUnknownCancellation(loaded)
    requires CancellationCas(s.db.rows[id], loaded)
    ensures (exists executed :: Enabled(s, Outside(id, OperatorClose(loaded, executed)))
               && id in Next(s, Outside(id, OperatorClose(loaded, executed))).db.rows
               && Next(s, Outside(id, OperatorClose(loaded, executed))).db.rows[id].Executed() < s.db.rows[id].Executed())
       <==> loaded.Executed() < s.db.rows[id].Executed()
  {
    hide Inv, CanDo, Next, CancellationCas;
    var lowest := Outside(id, OperatorClose(loaded, loaded.Executed()));
    assert Enabled(s, lowest) by { MayClose(s, id, loaded); }
    ExecutedGoesDownOnlyOnStaleClosure(s, lowest, id);
    if executed :| Enabled(s, Outside(id, OperatorClose(loaded, executed)))
                   && id in Next(s, Outside(id, OperatorClose(loaded, executed))).db.rows
                   && Next(s, Outside(id, OperatorClose(loaded, executed))).db.rows[id].Executed() < s.db.rows[id].Executed() {
      ExecutedGoesDownOnlyOnStaleClosure(s, Outside(id, OperatorClose(loaded, executed)), id);
      ClosesNoLess(s, id, loaded, executed);
    }
  }

  lemma MayClose(s: State, id: RecordId, loaded: Row)
    requires Inv(s) && Known(s, id) && loaded in s.journals[id].seen && IsUnknownCancellation(loaded)
    ensures Enabled(s, Outside(id, OperatorClose(loaded, loaded.Executed())))
  {
    assert RecordOk(s.db.rows[id], s.journals[id], s.db.audit, id);
  }

  lemma ClosesNoLess(s: State, id: RecordId, loaded: Row, executed: int)
    requires Enabled(s, Outside(id, OperatorClose(loaded, executed)))
    ensures loaded.Executed() <= executed
  {
  }

  lemma MoveKeepsExecuted(h: HandlerId, handler: Handler, row: Row, j: Journal, move: Move)
    requires CanMake(handler, row, move)
    ensures After(row, HandlerEffect(h, handler, row, j, move).change).executedQty == row.executedQty
  {
  }

  lemma DeedOnExecuted(id: RecordId, row: Row, j: Journal, deed: Deed, phase: Phase, sub: int, can: int)
    requires CellOk(row, j, sub, can) && PastOk(row, j) && CanDo(phase, j.seen, deed)
    ensures After(row, OutsideEffect(id, row, j, deed).change).Executed() < row.Executed()
       <==> deed.OperatorClose? && CancellationCas(row, deed.loaded) && deed.executed < row.Executed()
  {
    match deed {
      case TakeOverSubmitting =>
      case TakeOverCancelling =>
      case DecideApproval(_) =>
      case OperatorAssignContext(_, _, _) =>
      case OperatorLink(_, _, _, _) =>
      case OperatorFail(_, _) =>
      case OperatorClose(_, _) =>
      case OperatorNotAccepted(_) =>
      case Reconcile(_, _, _, _, _) =>
      case ReconcileUnlisted(_) =>
      case ReconcileCancelled(_, _) =>
    }
  }
}
