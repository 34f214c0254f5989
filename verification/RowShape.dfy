/** The columns of a delivery's row over every run: which of them its status fills, and that the auto-warehouse flag, its
    goods and the way it is received agree. */
module RowShape {
  import opened Types
  import opened SlotState
  import opened Calls
  import opened AutoAssign
  import opened Lifecycle
  import opened ManualCall
  import opened Archive
  import opened DailyClose
  import opened Yard
  import opened Runs

  /** A row's columns fit its status. */
  predicate Shaped(row: Delivery) {
    && (row.autoWarehouse <==> row.goods == AutoWarehouse)
    && (row.status == AutoWarehouseReceiving ==> row.goods == AutoWarehouse)
    && (row.status == Receiving ==> row.goods != AutoWarehouse)
    && (row.status == Registered ==> row.checkin == None && row.ticket == None && row.called == None && row.slot == None)
    && (row.status == Waiting ==> row.checkin.Some? && row.ticket.Some? && row.called == None && row.slot == None)
    && (row.status in {Called, Receiving, AutoWarehouseReceiving, Completed} ==>
          row.checkin.Some? && row.ticket.Some? && row.called.Some? && row.slot.Some?)
    && (row.status in {Registered, Waiting, Called} ==> row.receivingStart == None)
    && (row.status in {Receiving, AutoWarehouseReceiving} ==> row.receivingStart.Some?)
    && (row.completed.Some? <==> row.status == Completed)
    && (row.cancelReason.Some? <==> row.status == Cancelled)
    && row.status != Expired && row.status != Incompleted && row.config.Some?
  }

  predicate ShapedAt(db: Db, id: DeliveryId) {
    id in db.rows ==> Shaped(db.rows[id]) && (db.rows[id].slot.Some? ==> db.rows[id].slot.value in db.slots)
  }

  ghost predicate AllShaped(db: Db) { forall id :: ShapedAt(db, id) }

  /** One row is written and no slot comes or goes. */
  lemma WriteKeepsShape(db: Db, id: DeliveryId, after: Db)
    requires AllShaped(db) && id in after.rows && after.rows == db.rows[id := after.rows[id]] && after.slots.Keys == db.slots.Keys
    requires Shaped(after.rows[id]) && (after.rows[id].slot.Some? ==> after.rows[id].slot.value in db.slots)
    ensures AllShaped(after)
  {
    hide Shaped;
    forall o ensures ShapedAt(after, o) {
      assert ShapedAt(db, o);
    }
  }

  /** Rows only go. */
  lemma RemovalKeepsShape(db: Db, after: Db)
    requires AllShaped(db) && after.slots.Keys == db.slots.Keys
    requires forall o :: o in after.rows ==> o in db.rows && after.rows[o] == db.rows[o]
    ensures AllShaped(after)
  {
    hide Shaped;
    forall o ensures ShapedAt(after, o) {
      assert ShapedAt(db, o);
    }
  }

  lemma CallKeepsShape(db: Db, id: DeliveryId, s: SlotId, now: int, kind: EventKind, after: Db)
    requires AllShaped(db) && CallsInto(db, id, s, now, kind, after) && db.rows[id].status in {Waiting, Called}
    ensures AllShaped(after)
  {
    CallEffect(db, id, s, now, kind, after);
    assert ShapedAt(db, id);
    WriteKeepsShape(db, id, after);
  }

  lemma CloseKeepsShape(db: Db, id: DeliveryId, row: Delivery, kind: EventKind, now: int, after: Db)
    requires AllShaped(db) && Closes(db, id, row, kind, now, after) && Shaped(row) && row.slot == db.rows[id].slot
    ensures AllShaped(after)
  {
    ReleasesKeepsTables(WithRow(db, id, row, Event(id, kind, Some(db.rows[id].status), Some(row.status), now)), db.rows[id].slot, true, after);
    assert ShapedAt(db, id);
    hide Shaped;
    WriteKeepsShape(db, id, after);
  }

  lemma ArchiveKeepsShape(db: Db, input: ArchiveInput, after: Db)
    requires AllShaped(db) && Archives(db, input, after)
    ensures AllShaped(after)
  {
    if ArchiveVerdict(db, input).Archived? {
      ArchiveEffect(db, input, after);
    }
    RemovalKeepsShape(db, after);
  }

  lemma DailyCloseKeepsShape(db: Db, id: DeliveryId, scope: CloseScope, now: int, after: Db)
    requires AllShaped(db) && ClosesOne(db, id, scope, now, after)
    ensures AllShaped(after)
  {
    if id in db.rows && Closable(db, db.rows[id], scope) {
      ArchiveEffect(Marked(db, id, now), CloseInput(id, db.rows[id], now), after);
    }
    RemovalKeepsShape(db, after);
  }

  lemma RowStepKeepsShape(db: Db, op: Op, after: Db)
    requires AllShaped(db) && Step(db, op, after)
    requires op.OpRegister? || op.OpReregister? || op.OpCheckIn? || op.OpStart?
    ensures AllShaped(after)
  {
    if after != db {
      assert ShapedAt(db, op.id);
      WriteKeepsShape(db, op.id, after);
    }
  }

  lemma StepKeepsShape(db: Db, op: Op, after: Db)
    requires AllShaped(db) && Step(db, op, after)
    ensures AllShaped(after)
  {
    hide Shaped, ShapedAt, AllShaped;
    match op {
      case OpAutoAssign(s, unit, next, now) =>
        if Assignable(db, s, unit) { CallKeepsShape(db, next, s, now, AutoAssignedEvent, after); }
      case OpManualCall(id, s, now) => ManualCallKeepsShape(db, id, s, now, after);
      case OpComplete(id, now) => CloseStepKeepsShape(db, op, after);
      case OpCancel(id, reason, now) => CloseStepKeepsShape(db, op, after);
      case OpArchive(input) => ArchiveKeepsShape(db, input, after);
      case OpClose(id, scope, now) => DailyCloseKeepsShape(db, id, scope, now, after);
      case OpPurge(ids) => RemovalKeepsShape(db, after);
      case OpReconcile(s, preserve) =>
        ReconcileKeepsOthers(db, s, preserve, after, s);
        RemovalKeepsShape(db, after);
      case OpSetManual(s, status) =>
        ReconcileKeepsOthers(db.(slots := db.slots[s := db.slots[s].(status := status)]), s, true, after, s);
        RemovalKeepsShape(db, after);
      case _ => RowStepKeepsShape(db, op, after);
    }
  }

  lemma ManualCallKeepsShape(db: Db, id: DeliveryId, s: SlotId, now: int, after: Db)
    requires AllShaped(db) && ManuallyCalls(db, id, s, now, after)
    ensures AllShaped(after)
  {
    if CallVerdict(db, id, s) == Call {
      CallKeepsShape(db, id, s, now, CallKind(db.rows[id].status), after);
    } else {
      RemovalKeepsShape(db, after);
    }
  }

  lemma CloseStepKeepsShape(db: Db, op: Op, after: Db)
    requires AllShaped(db) && Step(db, op, after) && (op.OpComplete? || op.OpCancel?)
    ensures AllShaped(after)
  {
    if after != db {
      assert ShapedAt(db, op.id);
      match op {
        case OpComplete(id, now) => CloseKeepsShape(db, id, CompletedRow(db.rows[id], now), CompletedEvent, now, after);
        case OpCancel(id, reason, now) => CloseKeepsShape(db, id, CancelledRow(db.rows[id], reason, now), CancelledEvent, now, after);
        case _ =>
      }
    }
  }

  /** In every state of every run from an empty system the columns of every row fit its status, and the slot it names
      exists. */
  lemma {:induction false} RowsAreShaped(dbs: seq<Db>, ops: seq<Op>, n: nat, id: DeliveryId)
    requires IsRun(dbs, ops) && n <= |ops| && Fresh(dbs[0])
    ensures ShapedAt(dbs[n], id)
  {
    RunKeepsShape(dbs, ops, n);
  }

  lemma {:induction false} RunKeepsShape(dbs: seq<Db>, ops: seq<Op>, n: nat)
    requires IsRun(dbs, ops) && n <= |ops| && Fresh(dbs[0])
    ensures AllShaped(dbs[n])
  {
    if n > 0 {
      RunKeepsShape(dbs, ops, n - 1);
      hide Shaped, ShapedAt, AllShaped, Step;
      StepKeepsShape(dbs[n - 1], ops[n - 1], dbs[n]);
    }
  }
}
