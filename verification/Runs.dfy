/** Whole runs of the yard, from an empty system or from any recorded state. */
module Runs {
  import opened Types
  import opened SlotState
  import opened Calls
  import opened AutoAssign
  import opened Lifecycle
  import opened ManualCall
  import opened Trails
  import opened Archive
  import opened DailyClose
  import opened Yard

  ghost predicate IsRun(dbs: seq<Db>, ops: seq<Op>) {
    && |dbs| == |ops| + 1
    && forall i :: 0 <= i < |ops| ==> Step(dbs[i], ops[i], dbs[i + 1])
  }

  /** No deliveries yet; slots may be configured. */
  predicate Fresh(db: Db) {
    db.rows == map[] && db.history == map[] && db.log == []
  }

  lemma FreshIsRecorded(db: Db)
    requires Fresh(db)
    ensures Recorded(db)
  {
    forall id ensures RecordOk(db, id) {}
  }

  lemma {:induction false} RunKeepsRecords(dbs: seq<Db>, ops: seq<Op>, n: nat)
    requires IsRun(dbs, ops) && n <= |ops| && Recorded(dbs[0])
    ensures Recorded(dbs[n])
  {
    if n > 0 {
      RunKeepsRecords(dbs, ops, n - 1);
      StepKeepsRecords(dbs[n - 1], ops[n - 1], dbs[n]);
    }
  }

  /** Log replay.  After any run from a fresh system, for every delivery with a row: it has events with a toStatus, the
      last of them gives its status, which is neither EXPIRED nor INCOMPLETED; it has exactly one REGISTERED event, and
      one closing event if it is closed, else none. */
  lemma LogReplaysToLiveStatus(dbs: seq<Db>, ops: seq<Op>, n: nat, id: DeliveryId)
    requires IsRun(dbs, ops) && n <= |ops| && Fresh(dbs[0]) && id in dbs[n].rows
    ensures exists i :: IsLastStatus(dbs[n].log, id, i)
    ensures forall i :: IsLastStatus(dbs[n].log, id, i) ==> dbs[n].log[i].to == Some(dbs[n].rows[id].status)
    ensures dbs[n].rows[id].status != Expired && dbs[n].rows[id].status != Incompleted
    ensures |Positions(dbs[n].log, id, {RegisteredEvent})| == 1
    ensures |Positions(dbs[n].log, id, CLOSING_KINDS)| == if IsTerminal(dbs[n].rows[id].status) then 1 else 0
  {
    FreshIsRecorded(dbs[0]);
    RunKeepsRecords(dbs, ops, n);
    assert RecordOk(dbs[n], id);
    var last := LastStatusExists(dbs[n].log, id);
    forall i | IsLastStatus(dbs[n].log, id, i) ensures dbs[n].log[i].to == Some(dbs[n].rows[id].status) {
      ReplayedStatusIsLast(dbs[n].log, id, i);
    }
    CountersCount(dbs[n].log, id);
  }

  /** Every fromStatus in the log is the status the delivery's earlier events replay to. */
  lemma FromStatusIsReplayed(dbs: seq<Db>, ops: seq<Op>, n: nat, k: nat)
    requires IsRun(dbs, ops) && n <= |ops| && Fresh(dbs[0])
    requires k < |dbs[n].log| && dbs[n].log[k].from.Some?
    ensures dbs[n].log[k].from == TrailOf(dbs[n].log[..k], dbs[n].log[k].id).status
  {
    FreshIsRecorded(dbs[0]);
    RunKeepsRecords(dbs, ops, n);
    ReplaysEverywhere(dbs[n].log, k);
  }

  /** The same for a delivery in the history, however often it was archived. */
  lemma LogReplaysToFinalStatus(dbs: seq<Db>, ops: seq<Op>, n: nat, id: DeliveryId)
    requires IsRun(dbs, ops) && n <= |ops| && Fresh(dbs[0]) && id in dbs[n].history
    ensures TrailOf(dbs[n].log, id).status == Some(StatusOf(dbs[n].history[id].final))
    ensures |Positions(dbs[n].log, id, {RegisteredEvent})| == 1
    ensures |Positions(dbs[n].log, id, CLOSING_KINDS)| == 1
    ensures |Positions(dbs[n].log, id, CALL_KINDS)| == dbs[n].history[id].callCount
  {
    FreshIsRecorded(dbs[0]);
    RunKeepsRecords(dbs, ops, n);
    assert RecordOk(dbs[n], id);
    CountersCount(dbs[n].log, id);
  }

  /** A delivery that has both a row and a history row: the history tells what the row tells. */
  lemma HistoryTellsTheRow(dbs: seq<Db>, ops: seq<Op>, n: nat, id: DeliveryId)
    requires IsRun(dbs, ops) && n <= |ops| && Fresh(dbs[0]) && id in dbs[n].rows && id in dbs[n].history
    ensures
      var row, h := dbs[n].rows[id], dbs[n].history[id];
      && (|| (row.status == Completed && h.final == FinalCompleted && row.completed == h.completed)
          || (row.status == Cancelled && h.final == FinalCancelled && row.completed == h.completed))
      && h.plate == row.plate && h.requested == row.requested && h.registeredAt == row.createdAt && h.slot == row.slot
  {
    FreshIsRecorded(dbs[0]);
    RunKeepsRecords(dbs, ops, n);
    assert RecordOk(dbs[n], id);
  }

  /** What a row leaves behind when a step removes it: a history row with its plate, its times and its slot. */
  lemma RemovedAsItWas(db: Db, op: Op, after: Db, id: DeliveryId)
    requires Recorded(db) && Step(db, op, after) && id in db.rows && id !in after.rows
    ensures id in after.history
    ensures
      var row, h := db.rows[id], after.history[id];
      h.plate == row.plate && h.requested == row.requested && h.registeredAt == row.createdAt && h.slot == row.slot
      && h.completed == row.completed
  {
    StepFollows(db, op, after, id);
    assert RecordOk(db, id);
    if op.OpArchive? {
      ArchivedAsItWas(db, op.input, after, id);
    } else if op.OpClose? {
      ClosedAsItWas(db, op, after, id);
    } else {
      OthersRemoveNothing(db, op, after, id);
    }
  }

  predicate TellsOf(h: History, row: Delivery) {
    h.plate == row.plate && h.requested == row.requested && h.registeredAt == row.createdAt && h.slot == row.slot
    && h.completed == row.completed
  }

  lemma ArchivedAsItWas(db: Db, input: ArchiveInput, after: Db, id: DeliveryId)
    requires Archives(db, input, after) && id in db.rows && id !in after.rows
    requires id in db.history ==> SnapshotOf(db.history[id], db.rows[id])
    ensures id in after.history && TellsOf(after.history[id], db.rows[id])
  {
    if ArchiveVerdict(db, input).Archived? {
      ArchiveEffect(db, input, after);
    }
  }

  lemma ClosedAsItWas(db: Db, op: Op, after: Db, id: DeliveryId)
    requires Recorded(db) && Step(db, op, after) && op.OpClose? && id in db.rows && id !in after.rows
    ensures id in after.history && TellsOf(after.history[id], db.rows[id])
  {
    if op.id in db.rows && Closable(db, db.rows[op.id], op.scope) {
      NonTerminalHasNoHistory(db, op.id);
      ArchiveEffect(Marked(db, op.id, op.now), CloseInput(op.id, db.rows[op.id], op.now), after);
    }
  }

  /** Only archiving, the daily close and the purge remove rows; the purge removes those whose history is there. */
  lemma OthersRemoveNothing(db: Db, op: Op, after: Db, id: DeliveryId)
    requires Recorded(db) && Step(db, op, after) && !op.OpArchive? && !op.OpClose? && id in db.rows && id !in after.rows
    ensures id in db.history && after.history == db.history && TellsOf(db.history[id], db.rows[id])
  {
    match op {
      case OpAutoAssign(s, unit, next, now) =>
        if Assignable(db, s, unit) { CallEffect(db, next, s, now, AutoAssignedEvent, after); }
      case OpManualCall(mid, s, now) =>
        if CallVerdict(db, mid, s) == Call { CallEffect(db, mid, s, now, CallKind(db.rows[mid].status), after); }
      case OpComplete(mid, now) =>
        if CompleteVerdict(db, mid) == Done { CloseKeepsRows(db, mid, CompletedRow(db.rows[mid], now), CompletedEvent, now, after); }
      case OpCancel(mid, reason, now) =>
        if CancelVerdict(db, mid) == Done { CloseKeepsRows(db, mid, CancelledRow(db.rows[mid], reason, now), CancelledEvent, now, after); }
      case OpPurge(ids) => assert RecordOk(db, id);
      case OpReconcile(s, preserve) => ReconcileKeepsOthers(db, s, preserve, after, s);
      case OpSetManual(s, status) =>
        ReconcileKeepsOthers(db.(slots := db.slots[s := db.slots[s].(status := status)]), s, true, after, s);
      case _ =>
    }
  }

  lemma CloseKeepsRows(db: Db, id: DeliveryId, row: Delivery, kind: EventKind, now: int, after: Db)
    requires Closes(db, id, row, kind, now, after)
    ensures after.rows.Keys == db.rows.Keys
  {
    ReleasesKeepsTables(WithRow(db, id, row, Event(id, kind, Some(db.rows[id].status), Some(row.status), now)), db.rows[id].slot, true, after);
  }

  // ---- nothing is lost ----------------------------------------------------------------------

  /** Progress of a delivery; no step goes back. */
  function Stage(status: Status): nat {
    match status
    case Registered => 0
    case Waiting => 1
    case Called => 2
    case Receiving => 3
    case AutoWarehouseReceiving => 3
    case _ => 4
  }

  /** The final status under which a row with this status may leave the table. */
  predicate MayLeaveAs(status: Status, final: FinalStatus) {
    match status
    case Registered => final == FinalExpired
    case Receiving => final == FinalIncompleted
    case AutoWarehouseReceiving => final == FinalIncompleted
    case Completed => final == FinalCompleted
    case Cancelled => final == FinalCancelled
    case _ => false
  }

  /** How one delivery may look after zero or more steps. */
  ghost predicate Follows(db: Db, id: DeliveryId, after: Db) {
    && (id in db.rows && id in after.rows ==>
          && Stage(db.rows[id].status) <= Stage(after.rows[id].status)
          && (IsTerminal(db.rows[id].status) ==> after.rows[id] == db.rows[id]))
    && (id in db.rows && id !in after.rows ==> id in after.history)
    && (id in db.rows && id !in after.rows && IsTerminal(db.rows[id].status) ==> StatusOf(after.history[id].final) == db.rows[id].status)
    && (id in db.history ==> id in after.history && after.history[id].final == db.history[id].final)
    && (id in db.history && id !in db.rows ==> id !in after.rows && after.history[id] == db.history[id])
  }

  /** One step removes a row only into a history row with the matching final status. */
  ghost predicate LeavesProperly(db: Db, id: DeliveryId, after: Db) {
    id in db.rows && id !in after.rows ==> id in after.history && MayLeaveAs(db.rows[id].status, after.history[id].final)
  }

  lemma RowStepFollows(db: Db, id: DeliveryId, row: Delivery, after: Db, o: DeliveryId)
    requires after.rows == db.rows[id := row] && after.history == db.history
    requires id !in db.rows ==> id !in db.history
    requires id in db.rows ==> !IsTerminal(db.rows[id].status) && Stage(db.rows[id].status) <= Stage(row.status)
    ensures Follows(db, o, after) && LeavesProperly(db, o, after)
  {
  }

  lemma ArchiveFollows(db: Db, input: ArchiveInput, after: Db, o: DeliveryId)
    requires Recorded(db) && CalledArchive(db, input) && Archives(db, input, after)
    ensures Follows(db, o, after) && LeavesProperly(db, o, after)
  {
    if ArchiveVerdict(db, input).Archived? {
      ArchiveEffect(db, input, after);
      assert RecordOk(db, input.id);
    }
  }

  lemma DailyCloseFollows(db: Db, id: DeliveryId, scope: CloseScope, now: int, after: Db, o: DeliveryId)
    requires Recorded(db) && ClosesOne(db, id, scope, now, after)
    ensures Follows(db, o, after) && LeavesProperly(db, o, after)
  {
    if id in db.rows && Closable(db, db.rows[id], scope) {
      NonTerminalHasNoHistory(db, id);
      ArchiveEffect(Marked(db, id, now), CloseInput(id, db.rows[id], now), after);
    }
  }

  lemma CallFollows(db: Db, id: DeliveryId, s: SlotId, now: int, kind: EventKind, after: Db, o: DeliveryId)
    requires CallsInto(db, id, s, now, kind, after)
    requires db.rows[id].status == Waiting || db.rows[id].status == Called
    ensures Follows(db, o, after) && LeavesProperly(db, o, after)
  {
    CallEffect(db, id, s, now, kind, after);
    RowStepFollows(db, id, CalledRow(db.rows[id], s, now), after, o);
  }

  lemma CloseFollows(db: Db, id: DeliveryId, row: Delivery, kind: EventKind, now: int, after: Db, o: DeliveryId)
    requires Closes(db, id, row, kind, now, after) && IsTerminal(row.status) && !IsTerminal(db.rows[id].status)
    ensures Follows(db, o, after) && LeavesProperly(db, o, after)
  {
    ReleasesKeepsTables(WithRow(db, id, row, Event(id, kind, Some(db.rows[id].status), Some(row.status), now)), db.rows[id].slot, true, after);
    RowStepFollows(db, id, row, after, o);
  }

  lemma StepFollows(db: Db, op: Op, after: Db, o: DeliveryId)
    requires Recorded(db) && Step(db, op, after)
    ensures Follows(db, o, after) && LeavesProperly(db, o, after)
  {
    match op {
      case OpRegister(id, form, now) => RowStepFollows(db, id, Registration(form, now), after, o);
      case OpReregister(id, form, now) => RowStepFollows(db, id, after.rows[id], after, o);
      case OpCheckIn(id, expected, vendorMatches, ticket, now) =>
        if CheckInVerdict(db, id, expected, vendorMatches) == CheckedIn { RowStepFollows(db, id, after.rows[id], after, o); }
      case OpAutoAssign(s, unit, next, now) =>
        if Assignable(db, s, unit) { CallFollows(db, next, s, now, AutoAssignedEvent, after, o); }
      case OpManualCall(id, s, now) =>
        if CallVerdict(db, id, s) == Call { CallFollows(db, id, s, now, CallKind(db.rows[id].status), after, o); }
      case OpStart(id, now) => if Startable(db, id) { RowStepFollows(db, id, after.rows[id], after, o); }
      case OpComplete(id, now) =>
        if CompleteVerdict(db, id) == Done { CloseFollows(db, id, CompletedRow(db.rows[id], now), CompletedEvent, now, after, o); }
      case OpCancel(id, reason, now) =>
        if CancelVerdict(db, id) == Done { CloseFollows(db, id, CancelledRow(db.rows[id], reason, now), CancelledEvent, now, after, o); }
      case OpArchive(input) => ArchiveFollows(db, input, after, o);
      case OpClose(id, scope, now) => DailyCloseFollows(db, id, scope, now, after, o);
      case OpPurge(ids) =>
      case OpReconcile(s, preserve) => ReconcileKeepsOthers(db, s, preserve, after, s);
      case OpSetManual(s, status) =>
        ReconcileKeepsOthers(db.(slots := db.slots[s := db.slots[s].(status := status)]), s, true, after, s);
    }
  }

  lemma FollowsTransitive(a: Db, b: Db, c: Db, id: DeliveryId)
    requires Follows(a, id, b) && Follows(b, id, c)
    ensures Follows(a, id, c)
  {
  }

  lemma FollowsSelf(db: Db, id: DeliveryId)
    ensures Follows(db, id, db)
  {
  }

  lemma RunStep(dbs: seq<Db>, ops: seq<Op>, i: nat)
    requires IsRun(dbs, ops)
    ensures |dbs| == |ops| + 1 && (i < |ops| ==> Step(dbs[i], ops[i], dbs[i + 1]))
  {
    hide Step;
  }

  /** Nothing is lost, over any stretch of any run: a delivery with a row keeps a row that never goes back a stage,
      or has a history row; a closed delivery stays as it is, or is archived with that very status; history rows keep
      their final status and archived deliveries never return. */
  lemma {:induction false} NothingIsLost(dbs: seq<Db>, ops: seq<Op>, m: nat, n: nat, id: DeliveryId)
    requires IsRun(dbs, ops) && m <= n <= |ops| && Recorded(dbs[0])
    ensures Follows(dbs[m], id, dbs[n])
    decreases n - m
  {
    hide *;
    RunStep(dbs, ops, n);
    if m == n {
      FollowsSelf(dbs[m], id);
    } else {
      RunStep(dbs, ops, n - 1);
      NothingIsLost(dbs, ops, m, n - 1, id);
      RunKeepsRecords(dbs, ops, n - 1);
      StepFollows(dbs[n - 1], ops[n - 1], dbs[n], id);
      FollowsTransitive(dbs[m], dbs[n - 1], dbs[n], id);
    }
  }

  /** The log only ever grows at its end. */
  lemma StepAppends(db: Db, op: Op, after: Db)
    requires Step(db, op, after)
    ensures db.log <= after.log
  {
    match op {
      case OpAutoAssign(s, unit, next, now) =>
        if Assignable(db, s, unit) { CallEffect(db, next, s, now, AutoAssignedEvent, after); }
      case OpManualCall(id, s, now) => ManualCallAppends(db, id, s, now, after);
      case OpComplete(id, now) =>
        if CompleteVerdict(db, id) == Done { CloseAppends(db, id, CompletedRow(db.rows[id], now), CompletedEvent, now, after); }
      case OpCancel(id, reason, now) =>
        if CancelVerdict(db, id) == Done { CloseAppends(db, id, CancelledRow(db.rows[id], reason, now), CancelledEvent, now, after); }
      case OpArchive(input) => ArchiveAppends(db, input, after);
      case OpClose(id, scope, now) =>
        if id in db.rows && Closable(db, db.rows[id], scope) { ArchiveAppends(Marked(db, id, now), CloseInput(id, db.rows[id], now), after); }
      case OpReconcile(s, preserve) => ReconcileKeepsOthers(db, s, preserve, after, s);
      case OpSetManual(s, status) =>
        ReconcileKeepsOthers(db.(slots := db.slots[s := db.slots[s].(status := status)]), s, true, after, s);
      case _ =>
    }
  }

  lemma ManualCallAppends(db: Db, id: DeliveryId, s: SlotId, now: int, after: Db)
    requires ManuallyCalls(db, id, s, now, after)
    ensures db.log <= after.log
  {
    if CallVerdict(db, id, s) == Call {
      CallEffect(db, id, s, now, CallKind(db.rows[id].status), after);
    }
  }

  lemma ArchiveAppends(db: Db, input: ArchiveInput, after: Db)
    requires Archives(db, input, after)
    ensures db.log <= after.log
  {
    if ArchiveVerdict(db, input).Archived? {
      ArchiveEffect(db, input, after);
    }
  }

  lemma CloseAppends(db: Db, id: DeliveryId, row: Delivery, kind: EventKind, now: int, after: Db)
    requires Closes(db, id, row, kind, now, after)
    ensures db.log <= after.log
  {
    ReleasesKeepsTables(WithRow(db, id, row, Event(id, kind, Some(db.rows[id].status), Some(row.status), now)), db.rows[id].slot, true, after);
  }

  lemma {:induction false} LogIsAppendOnly(dbs: seq<Db>, ops: seq<Op>, m: nat, n: nat)
    requires IsRun(dbs, ops) && m <= n <= |ops|
    ensures dbs[m].log <= dbs[n].log
    decreases n - m
  {
    if m < n {
      LogIsAppendOnly(dbs, ops, m, n - 1);
      StepAppends(dbs[n - 1], ops[n - 1], dbs[n]);
    }
  }
}
