/** The two protocols leave out nothing the services do: whatever a step of the yard does to a row is a change of that row
    in each protocol. */
module Coverage {
  import opened Types
  import opened SlotState
  import opened Calls
  import opened AutoAssign
  import opened Lifecycle
  import opened ManualCall
  import opened Archive
  import opened DailyClose
  import opened Yard
  import opened RowShape
  import RegistrationProtocol
  import CapacityProtocol

  // ---- what a step does to a row ------------------------------------------------------------

  /** What no step but a re-registration changes. */
  predicate SameRegistration(old_: Delivery, row: Delivery) {
    && row.plate == old_.plate && row.config == old_.config && row.vehicle == old_.vehicle
    && row.requested == old_.requested && row.createdAt == old_.createdAt
  }

  /** A row is checked in, called, started, completed or cancelled. */
  predicate MovesOn(old_: Delivery, row: Delivery) {
    && SameRegistration(old_, row)
    && (|| (old_.status == Registered && row.status == Waiting && row.checkin.Some? && row.slot == old_.slot)
        || (old_.status in {Waiting, Called} && row.status == Called && row.slot.Some? && row.checkin == old_.checkin)
        || (old_.status == Called && row.status in {Receiving, AutoWarehouseReceiving} && row.slot == old_.slot && row.checkin == old_.checkin)
        || (old_.status in {Called, Receiving, AutoWarehouseReceiving} && row.status == Completed && row.slot == old_.slot && row.checkin == old_.checkin)
        || (old_.status !in {Completed, Cancelled, Expired} && row.status == Cancelled && row.slot == old_.slot && row.checkin == old_.checkin))
  }

  /** The rows after are those before, except that one has moved on. */
  ghost predicate OneMoves(db: Db, id: DeliveryId, after: Db) {
    id in db.rows && id in after.rows && after.rows == db.rows[id := after.rows[id]] && MovesOn(db.rows[id], after.rows[id])
  }

  /** Rows that leave are closed or closed by the day, the others stay as they are. */
  ghost predicate RowsLeave(db: Db, after: Db) {
    && (forall o :: o in after.rows ==> o in db.rows && after.rows[o] == db.rows[o])
    && (forall o :: o in db.rows && o !in after.rows ==>
          db.rows[o].status in {Registered, Receiving, AutoWarehouseReceiving, Completed, Cancelled})
  }

  lemma CallMoves(db: Db, id: DeliveryId, s: SlotId, now: int, kind: EventKind, after: Db)
    requires CallsInto(db, id, s, now, kind, after) && db.rows[id].status in {Waiting, Called}
    ensures OneMoves(db, id, after)
  {
    CallEffect(db, id, s, now, kind, after);
  }

  lemma CloseMoves(db: Db, id: DeliveryId, row: Delivery, kind: EventKind, now: int, after: Db)
    requires Closes(db, id, row, kind, now, after) && MovesOn(db.rows[id], row)
    ensures OneMoves(db, id, after)
  {
    hide MovesOn;
    ReleasesKeepsTables(WithRow(db, id, row, Event(id, kind, Some(db.rows[id].status), Some(row.status), now)), db.rows[id].slot, true, after);
  }

  lemma ArchiveLeaves(db: Db, input: ArchiveInput, after: Db)
    requires CalledArchive(db, input) && Archives(db, input, after)
    ensures RowsLeave(db, after)
  {
    if ArchiveVerdict(db, input).Archived? {
      ArchiveEffect(db, input, after);
    }
  }

  lemma DailyCloseLeaves(db: Db, id: DeliveryId, scope: CloseScope, now: int, after: Db)
    requires ClosesOne(db, id, scope, now, after)
    ensures RowsLeave(db, after)
  {
    if id in db.rows && Closable(db, db.rows[id], scope) {
      ArchiveEffect(Marked(db, id, now), CloseInput(id, db.rows[id], now), after);
    }
  }

  /** One delivery's own step: it moves on, or nothing happens. */
  lemma OwnStepMoves(db: Db, op: Op, after: Db)
    requires Step(db, op, after)
    requires op.OpCheckIn? || op.OpStart? || op.OpComplete? || op.OpCancel?
    ensures after.rows == db.rows || OneMoves(db, op.id, after)
  {
    if after != db {
      match op {
        case OpComplete(id, now) => CloseMoves(db, id, CompletedRow(db.rows[id], now), CompletedEvent, now, after);
        case OpCancel(id, reason, now) => CloseMoves(db, id, CancelledRow(db.rows[id], reason, now), CancelledEvent, now, after);
        case _ =>
      }
    }
  }

  /** Every step but a registration: some row moves on, or rows leave. */
  lemma StepMoves(db: Db, op: Op, after: Db)
    requires Step(db, op, after) && !op.OpRegister? && !op.OpReregister?
    ensures RowsLeave(db, after) || exists id :: OneMoves(db, id, after)
  {
    hide MovesOn;
    match op {
      case OpAutoAssign(s, unit, next, now) =>
        if Assignable(db, s, unit) { CallMoves(db, next, s, now, AutoAssignedEvent, after); }
      case OpManualCall(id, s, now) =>
        if CallVerdict(db, id, s) == Call { CallMoves(db, id, s, now, CallKind(db.rows[id].status), after); }
      case OpArchive(input) => ArchiveLeaves(db, input, after);
      case OpClose(id, scope, now) => DailyCloseLeaves(db, id, scope, now, after);
      case OpPurge(ids) =>
      case OpReconcile(s, preserve) => ReconcileKeepsOthers(db, s, preserve, after, s);
      case OpSetManual(s, status) =>
        ReconcileKeepsOthers(db.(slots := db.slots[s := db.slots[s].(status := status)]), s, true, after, s);
      case _ => OwnStepMoves(db, op, after);
    }
  }

  // ---- registration -------------------------------------------------------------------------

  ghost predicate WithConfigs(db: Db) { forall id :: id in db.rows ==> db.rows[id].config.Some? }

  lemma ShapedHasConfigs(db: Db)
    requires AllShaped(db)
    ensures WithConfigs(db)
  {
    forall id | id in db.rows ensures db.rows[id].config.Some? {
      assert ShapedAt(db, id);
    }
  }

  function RegistrationRow(row: Delivery): RegistrationProtocol.Row
    requires row.config.Some?
  {
    RegistrationProtocol.Row(row.plate, row.config.value, row.vehicle, row.requested, row.createdAt, row.status, row.checkin.Some?)
  }

  /** The yard as the registration protocol sees it, with nothing under way. */
  ghost function RegistrationState(db: Db): RegistrationProtocol.State
    requires WithConfigs(db)
  {
    RegistrationProtocol.State(map id | id in db.rows :: RegistrationRow(db.rows[id]), db.rows.Keys, db.configs, map[], map[], map[], map[])
  }

  function RequestOf(form: Form): RegistrationProtocol.Request
    requires form.requested.Some?
  {
    RegistrationProtocol.Request(form.plate, form.config, form.vehicle, form.requested.value, false, None)
  }

  /** A registration or re-registration writes the row a commit of the protocol writes. */
  lemma RegistrationIsCommit(db: Db, op: Op, after: Db)
    requires Step(db, op, after) && WithConfigs(db) && (op.OpRegister? || op.OpReregister?) && op.form.requested.Some?
    ensures op.id in after.rows && after.rows == db.rows[op.id := after.rows[op.id]] && after.rows[op.id].config.Some?
    ensures RegistrationRow(after.rows[op.id])
            == RegistrationProtocol.RowOf(RegistrationState(db), RequestOf(op.form), if op.OpRegister? then None else Some(op.id), op.now)
  {
  }

  /** The rows a registration takes over are the same in both: after the reread under the row lock. */
  lemma TakeoverIsReregistration(
    db: Db, st: RegistrationProtocol.State, tx: RegistrationProtocol.TxId, req: RegistrationProtocol.Request, id: DeliveryId)
    requires WithConfigs(db) && st.rows == RegistrationState(db).rows
    requires RegistrationProtocol.TxnOf(st, tx) == RegistrationProtocol.Waited(req, id)
    ensures RegistrationProtocol.Enabled(st, tx, RegistrationProtocol.Recheck)
    ensures RegistrationProtocol.TxnOf(RegistrationProtocol.Next(st, tx, RegistrationProtocol.Recheck), tx)
            == RegistrationProtocol.Decided(req, Some(id))
            <==> Reregistrable(db, id)
  {
  }

  /** A row that moves on takes one of the protocol's status changes or stays as the protocol sees it. */
  lemma MovesOnIsChange(db: Db, id: DeliveryId, after: Db, tx: RegistrationProtocol.TxId)
    requires WithConfigs(db) && OneMoves(db, id, after)
    requires db.rows[id].status in {Waiting, Called, Receiving, AutoWarehouseReceiving} ==> db.rows[id].checkin.Some?
    ensures WithConfigs(after)
    ensures
      var st, move := RegistrationState(db), RegistrationProtocol.Change(id, after.rows[id].status);
      RegistrationProtocol.Enabled(st, tx, move) && RegistrationProtocol.Next(st, tx, move).rows == RegistrationState(after).rows
  {
    var st, move := RegistrationState(db), RegistrationProtocol.Change(id, after.rows[id].status);
    assert RegistrationState(after).rows == st.rows[id := RegistrationRow(after.rows[id])];
  }

  // ---- capacity -----------------------------------------------------------------------------

  function CapacityRow(row: Delivery): CapacityProtocol.Row { CapacityProtocol.Row(row.status, row.slot) }

  /** A row that moves on is called by one of the two calling transactions, started, or changed under its lock. */
  lemma MovesOnIsWrite(old_: Delivery, row: Delivery)
    requires MovesOn(old_, row)
    ensures
      || CapacityProtocol.RowChange(CapacityRow(old_), Some(CapacityRow(row)))
      || (CapacityProtocol.Callable(CapacityRow(old_)) && row.slot.Some? && CapacityRow(row) == CapacityProtocol.Row(Called, row.slot))
      || (old_.status == Called && CapacityRow(row) in {CapacityProtocol.Row(Receiving, old_.slot), CapacityProtocol.Row(AutoWarehouseReceiving, old_.slot)})
  {
  }

  /** A row that leaves is one the protocol may remove. */
  lemma LeavingIsRemoval(db: Db, after: Db, o: DeliveryId)
    requires RowsLeave(db, after) && o in db.rows && o !in after.rows
    ensures CapacityProtocol.RowChange(CapacityRow(db.rows[o]), None)
  {
  }

  // ---- both ---------------------------------------------------------------------------------

  /** One row changes, in the registration protocol by a status change and in the capacity protocol by a call, a start or a
      change under the row's lock. */
  ghost predicate IsProtocolMove(db: Db, id: DeliveryId, after: Db, tx: RegistrationProtocol.TxId) {
    && id in db.rows && id in after.rows && after.rows == db.rows[id := after.rows[id]] && WithConfigs(db) && WithConfigs(after)
    && (var st, move := RegistrationState(db), RegistrationProtocol.Change(id, after.rows[id].status);
        RegistrationProtocol.Enabled(st, tx, move) && RegistrationProtocol.Next(st, tx, move).rows == RegistrationState(after).rows)
    && (var old_, row := CapacityRow(db.rows[id]), CapacityRow(after.rows[id]);
        || CapacityProtocol.RowChange(old_, Some(row))
        || (CapacityProtocol.Callable(old_) && row.slot.Some? && row == CapacityProtocol.Row(Called, row.slot))
        || (old_.status == Called && row in {CapacityProtocol.Row(Receiving, old_.slot), CapacityProtocol.Row(AutoWarehouseReceiving, old_.slot)}))
  }

  /** Every step of the yard other than a registration leaves all rows as they are but those it removes, as both protocols
      may, or is a move of both protocols. */
  lemma StepIsProtocolMove(db: Db, op: Op, after: Db, tx: RegistrationProtocol.TxId)
    requires AllShaped(db) && Step(db, op, after) && !op.OpRegister? && !op.OpReregister?
    ensures
      || (&& (forall o :: o in after.rows ==> o in db.rows && after.rows[o] == db.rows[o])
          && (forall o :: o in db.rows && o !in after.rows ==> CapacityProtocol.RowChange(CapacityRow(db.rows[o]), None)))
      || exists id :: IsProtocolMove(db, id, after, tx)
  {
    StepMoves(db, op, after);
    ShapedHasConfigs(db);
    hide Step, WithConfigs, MovesOn, CapacityProtocol.RowChange;
    if RowsLeave(db, after) {
      forall o | o in db.rows && o !in after.rows ensures CapacityProtocol.RowChange(CapacityRow(db.rows[o]), None) {
        LeavingIsRemoval(db, after, o);
      }
    } else {
      var id :| OneMoves(db, id, after);
      assert ShapedAt(db, id);
      MovesOnIsChange(db, id, after, tx);
      MovesOnIsWrite(db.rows[id], after.rows[id]);
      assert IsProtocolMove(db, id, after, tx);
    }
  }
}
