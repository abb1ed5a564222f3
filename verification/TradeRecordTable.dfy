/**
 The table as the services use it: an object whose rows and audit log are updated in place.
 Every method is tied to the guarded write of the same name in `TradeRecords`.
 */
module TradeRecordTable {
  import opened Prelude
  import opened TradeRecords

  /** How the database answered one attempt to write. */
  datatype Attempt = Succeeds | FailsBeforeCommit | FailsAfterCommit

  ghost predicate IsListingOf(order: seq<RecordId>, ids: set<RecordId>) {
    && (forall i, j :: 0 <= i < j < |order| ==> order[i] != order[j])
    && (forall id :: id in order <==> id in ids)
  }

  function StaleSubmissions(rows: map<RecordId, Row>): set<RecordId> {
    set id | id in rows && rows[id].status == Submitting
  }

  function StaleCancellations(rows: map<RecordId, Row>): set<RecordId> {
    set id | id in rows && rows[id].cancellation == Some(CancelSubmitting)
  }

  function SubmissionsTakenOver(rows: map<RecordId, Row>, done: set<RecordId>): map<RecordId, Row> {
    map id | id in rows :: if id in done then After(rows[id], TakeOverSubmission(id, rows[id])) else rows[id]
  }

  function CancellationsTakenOver(rows: map<RecordId, Row>, done: set<RecordId>): map<RecordId, Row> {
    map id | id in rows :: if id in done then After(rows[id], TakeOverCancellation(id, rows[id])) else rows[id]
  }

  /** The audit rows the submission takeover writes, in the order the attempts were listed. */
  function SubmissionTakeoverLog(rows: map<RecordId, Row>, order: seq<RecordId>): seq<AuditEntry>
    requires forall id | id in order :: id in rows
  {
    seq(|order|, i requires 0 <= i < |order| =>
      if rows[order[i]].submissionStartedAt.Some?
      then AuditEntry(order[i], UnknownDetected, System, Some(Submitting), Some(SubmissionUnknown))
      else AuditEntry(order[i], NotSubmittedConfirmed, System, Some(Submitting), Some(Cancelled)))
  }

  function CancellationTakeoverLog(order: seq<RecordId>): seq<AuditEntry> {
    seq(|order|, i requires 0 <= i < |order| => AuditEntry(order[i], CancellationUnknown, System, None, None))
  }

  lemma FullTakeover(rows: map<RecordId, Row>)
    ensures var submitted := SubmissionsTakenOver(rows, StaleSubmissions(rows));
            CancellationsTakenOver(submitted, StaleCancellations(submitted)) == TakeOverAll(rows)
  {
    var submitted := SubmissionsTakenOver(rows, StaleSubmissions(rows));
    var both := CancellationsTakenOver(submitted, StaleCancellations(submitted));
    forall id | id in rows
      ensures both[id] == TakenOver(id, rows[id])
    {
      assert submitted[id] == After(rows[id], TakeOverSubmission(id, rows[id]));
    }
  }

  function Started(rows: map<RecordId, Row>, ids: set<RecordId>): set<RecordId> {
    set id | id in ids && id in rows && rows[id].submissionStartedAt.Some?
  }

  lemma StartedStep(rows: map<RecordId, Row>, done: set<RecordId>, id: RecordId)
    requires id in rows && id !in done
    ensures |Started(rows, done + {id})| == |Started(rows, done)| + if rows[id].submissionStartedAt.Some? then 1 else 0
  {
    assert Started(rows, done + {id})
        == if rows[id].submissionStartedAt.Some? then Started(rows, done) + {id} else Started(rows, done);
  }

  lemma TakeOverOneSubmission(rows: map<RecordId, Row>, done: set<RecordId>, id: RecordId)
    requires id in rows && id !in done && rows[id].status == Submitting
    ensures var before := Db(SubmissionsTakenOver(rows, done), []);
            var change := TakeOverSubmission(id, rows[id]);
            && before.rows[id] == rows[id]
            && change.Commit? && |change.entries| == 1
            && before.Write(id, change).rows == SubmissionsTakenOver(rows, done + {id})
  {
  }

  lemma SubmissionLogStep(rows: map<RecordId, Row>, order: seq<RecordId>, i: nat)
    requires forall id | id in order :: id in rows && rows[id].status == Submitting
    requires i < |order|
    ensures SubmissionTakeoverLog(rows, order)[..i + 1]
         == SubmissionTakeoverLog(rows, order)[..i] + TakeOverSubmission(order[i], rows[order[i]]).entries
  {
  }

  class Table {
    var rows: map<RecordId, Row>
    var audit: seq<AuditEntry>

    function View(): Db
      reads this
    {
      Db(rows, audit)
    }

    constructor (rows: map<RecordId, Row>)
      ensures View() == Db(rows, [])
    {
      this.rows := rows;
      this.audit := [];
    }

    /** One guarded `updateMany`, with the audit insert of its transaction. */
    method Apply(id: RecordId, change: Change) returns (count: nat)
      requires id in rows
      modifies this
      ensures View() == old(View()).Write(id, change)
      ensures count == if change.Commit? then 1 else 0
    {
      match change {
        case NoChange => count := 0;
        case Commit(row, entries) =>
          rows := rows[id := row];
          audit := audit + entries;
          count := 1;
      }
    }

    method ClaimCancellation(id: RecordId, broker: Broker) returns (claimed: bool)
      modifies this
      ensures View() == old(View()).UpdateMany(id, row => TradeRecords.ClaimCancellation(row, broker))
      ensures claimed <==> id in old(rows) && TradeRecords.ClaimCancellation(old(rows)[id], broker).Commit?
    {
      if id !in rows { return false; }
      var count := Apply(id, TradeRecords.ClaimCancellation(rows[id], broker));
      claimed := count > 0;
    }

    method ReleaseCancellationClaim(id: RecordId, broker: Broker) returns (released: bool)
      modifies this
      ensures View() == old(View()).UpdateMany(id, row => RejectCancellation(row, broker))
      ensures released <==> id in old(rows) && RejectCancellation(old(rows)[id], broker).Commit?
    {
      if id !in rows { return false; }
      var count := Apply(id, RejectCancellation(rows[id], broker));
      released := count > 0;
    }

    method MarkCancellationAccepted(id: RecordId, broker: Broker) returns (persisted: bool)
      modifies this
      ensures View() == old(View()).UpdateMany(id, row => AcceptCancellation(row, broker))
      ensures persisted <==> id in old(rows) && AcceptCancellation(old(rows)[id], broker).Commit?
    {
      if id !in rows { return false; }
      var count := Apply(id, AcceptCancellation(rows[id], broker));
      persisted := count > 0;
    }

    method MarkCancellationUnknown(id: RecordId, broker: Broker) returns (changed: bool)
      modifies this
      ensures View() == old(View()).UpdateMany(id, row => TradeRecords.MarkCancellationUnknown(id, row, broker))
      ensures changed <==> id in old(rows) && TradeRecords.MarkCancellationUnknown(id, old(rows)[id], broker).Commit?
    {
      if id !in rows { return false; }
      var count := Apply(id, TradeRecords.MarkCancellationUnknown(id, rows[id], broker));
      changed := count > 0;
    }

    method MarkSubmissionUnknown(id: RecordId) returns (changed: bool)
      modifies this
      ensures View() == old(View()).UpdateMany(id, row => TradeRecords.MarkSubmissionUnknown(id, row))
      ensures changed <==> id in old(rows) && TradeRecords.MarkSubmissionUnknown(id, old(rows)[id]).Commit?
    {
      if id !in rows { return false; }
      var count := Apply(id, TradeRecords.MarkSubmissionUnknown(id, rows[id]));
      changed := count > 0;
    }

    /**
     The bounded retry around persisting an accepted order. The database may fail an attempt before
     or after it commits; `attempts[i]` says what it does to attempt `i`. However it behaves, the row
     ends either untouched or written exactly once, `true` is returned only when it was written, and
     three attempts that all fail before committing leave the table as it was.
     */
    method PersistAcceptedOrder(id: RecordId, orderNo: string, date: string, time: string, attempts: seq<Attempt>)
      returns (persisted: bool)
      requires |attempts| == 3
      modifies this
      ensures View() == old(View())
           || View() == old(View()).UpdateMany(id, row => PersistAccepted(row, orderNo, date, time))
      ensures persisted ==> id in old(rows) && PersistAccepted(old(rows)[id], orderNo, date, time).Commit?
      ensures persisted ==> View() == old(View()).UpdateMany(id, row => PersistAccepted(row, orderNo, date, time))
      ensures (forall i :: 0 <= i < 3 ==> attempts[i] == FailsBeforeCommit) ==> !persisted && View() == old(View())
      ensures (exists i :: 0 <= i < 3 && attempts[i] != FailsBeforeCommit) ==>
                View() == old(View()).UpdateMany(id, row => PersistAccepted(row, orderNo, date, time))
    {
      ghost var written := View().UpdateMany(id, row => PersistAccepted(row, orderNo, date, time));
      ghost var reached := false;
      for attempt := 0 to 3
        invariant reached <==> exists i :: 0 <= i < attempt && attempts[i] != FailsBeforeCommit
        invariant View() == if reached then written else old(View())
      {
        if attempts[attempt] == FailsBeforeCommit { continue; }
        reached := true;
        var count := 0;
        if id in rows {
          count := Apply(id, PersistAccepted(rows[id], orderNo, date, time));
        }
        if attempts[attempt] == Succeeds {
          return count > 0;
        }
      }
      return false;
    }

    method ListRecoveryItems() returns (items: set<RecordId>)
      ensures items == RecoveryItems(rows)
    {
      items := set id | id in rows && rows[id].NeedsRecovery();
    }

    method TakeOverSubmissionAttempt(id: RecordId) returns (changed: bool, started: bool)
      requires id in rows
      modifies this
      ensures View() == old(View()).Write(id, TakeOverSubmission(id, old(rows)[id]))
      ensures changed <==> TakeOverSubmission(id, old(rows)[id]).Commit?
      ensures started <==> old(rows)[id].submissionStartedAt.Some?
    {
      started := rows[id].submissionStartedAt.Some?;
      if started {
        changed := MarkSubmissionUnknown(id);
      } else {
        var count := Apply(id, CancelUnclaimed(id, rows[id]));
        changed := count > 0;
      }
    }

    method TakeOverSubmissionAttempts(order: seq<RecordId>) returns (unknown: nat, cancelled: nat)
      requires IsListingOf(order, StaleSubmissions(rows))
      modifies this
      ensures rows == SubmissionsTakenOver(old(rows), StaleSubmissions(old(rows)))
      ensures audit == old(audit) + SubmissionTakeoverLog(old(rows), order)
      ensures unknown + cancelled == |order|
      ensures unknown == |Started(old(rows), StaleSubmissions(old(rows)))|
    {
      unknown, cancelled := 0, 0;
      ghost var done: set<RecordId> := {};
      var i := 0;
      while i < |order|
        invariant 0 <= i <= |order|
        invariant done == set id | id in order[..i]
        invariant rows == SubmissionsTakenOver(old(rows), done)
        invariant audit == old(audit) + SubmissionTakeoverLog(old(rows), order)[..i]
        invariant unknown == |Started(old(rows), done)| && unknown + cancelled == i
      {
        var id := order[i];
        assert id in order && id in StaleSubmissions(old(rows));
        assert id !in order[..i];
        assert order[..i + 1] == order[..i] + [id];
        TakeOverOneSubmission(old(rows), done, id);
        StartedStep(old(rows), done, id);
        SubmissionLogStep(old(rows), order, i);
        var changed, started := TakeOverSubmissionAttempt(id);
        if changed && started {
          unknown := unknown + 1;
        } else if changed {
          cancelled := cancelled + 1;
        }
        done := done + {id};
        i := i + 1;
      }
      assert order[..i] == order;
      assert done == StaleSubmissions(old(rows));
    }

    method TakeOverCancellationAttempts(order: seq<RecordId>) returns (takenOver: nat)
      requires IsListingOf(order, StaleCancellations(rows))
      modifies this
      ensures rows == CancellationsTakenOver(old(rows), StaleCancellations(old(rows)))
      ensures audit == old(audit) + CancellationTakeoverLog(order)
      ensures takenOver == |order|
    {
      takenOver := 0;
      var i := 0;
      while i < |order|
        invariant 0 <= i <= |order|
        invariant rows == CancellationsTakenOver(old(rows), set id | id in order[..i])
        invariant audit == old(audit) + CancellationTakeoverLog(order)[..i]
        invariant takenOver == i
      {
        var id := order[i];
        assert id in order && id in StaleCancellations(old(rows));
        assert id !in order[..i];
        assert order[..i + 1] == order[..i] + [id];
        assert rows[id] == old(rows)[id];
        var changed := MarkCancellationUnknown(id, rows[id].broker);
        if changed { takenOver := takenOver + 1; }
        i := i + 1;
      }
      assert order[..i] == order;
      assert (set id | id in order) == StaleCancellations(old(rows));
    }

    /** Lists a set of ids in some order, as an unordered `findMany` does. */
    method Listing(ids: set<RecordId>) returns (order: seq<RecordId>)
      ensures IsListingOf(order, ids)
    {
      order := [];
      var left := ids;
      while left != {}
        invariant left <= ids
        invariant IsListingOf(order, ids - left)
        decreases left
      {
        var id :| id in left;
        order := order + [id];
        left := left - {id};
      }
    }

    /** The cold-start takeover: afterwards nothing is in an unfinished state. */
    method TakeOverStartupState() returns (unresolved: nat)
      modifies this
      ensures rows == TakeOverAll(old(rows))
      ensures unresolved == |RecoveryItems(rows)|
      ensures StaleSubmissions(rows) == {} && StaleCancellations(rows) == {}
      ensures RecoveryItems(old(rows)) <= RecoveryItems(rows)
    {
      var submissions := Listing(set id | id in rows && rows[id].status == Submitting);
      var unknown, cancelled := TakeOverSubmissionAttempts(submissions);
      var cancellations := Listing(set id | id in rows && rows[id].cancellation == Some(CancelSubmitting));
      var cancellationUnknown := TakeOverCancellationAttempts(cancellations);
      var items := ListRecoveryItems();
      unresolved := |items|;
      FullTakeover(old(rows));
      forall id | id in old(rows) {
        TakeoverSettlesEveryRow(id, old(rows)[id]);
      }
    }
  }
}
