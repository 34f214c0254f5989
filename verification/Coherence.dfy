/** Which steps keep a slot in agreement with the deliveries that occupy it, and which forget a manual status. */
module Coherence {
  import opened Types
  import opened SlotState
  import opened Calls
  import opened AutoAssign
  import opened Lifecycle
  import opened ManualCall
  import opened Archive
  import opened DailyClose
  import opened Yard
  import opened Runs

  /** The step moves an occupant of `o` to another slot by hand. */
  ghost predicate MovesOut(db: Db, op: Op, o: SlotId) {
    op.OpManualCall? && CallVerdict(db, op.id, op.slot) == Call && op.slot != o && op.id in ActiveIn(db, o)
  }

  /** Slot `o` has the same occupants and, lastUsedAt apart, the same columns. */
  ghost predicate SlotUntouched(db: Db, o: SlotId, after: Db) {
    && (o in db.slots <==> o in after.slots)
    && (o in db.slots ==> after.slots[o] == db.slots[o].(lastUsed := after.slots[o].lastUsed))
    && ActiveIn(after, o) == ActiveIn(db, o)
  }

  /** A row is written whose activity in every slot stays what it was. */
  lemma RowWriteLeavesSlots(db: Db, id: DeliveryId, row: Delivery, after: Db, o: SlotId)
    requires after.rows == db.rows[id := row] && after.slots == db.slots
    requires id in db.rows ==> row.slot == db.rows[id].slot && (IsActive(row.status) <==> IsActive(db.rows[id].status))
    requires id !in db.rows ==> !IsActive(row.status)
    ensures SlotUntouched(db, o, after)
  {
  }

  /** A delivery becomes inactive and the slot it held is reconciled. */
  lemma ReleaseKeepsCoherence(db: Db, id: DeliveryId, written: Db, preserve: bool, after: Db, o: SlotId)
    requires id in db.rows && id in written.rows && written.slots == db.slots
    requires written.rows == db.rows[id := written.rows[id]] && !IsActive(written.rows[id].status)
    requires Releases(written, db.rows[id].slot, preserve, after)
    requires Coherent(db, o)
    ensures Coherent(after, o)
  {
    var held := db.rows[id].slot;
    if held == Some(o) {
      ReconcileMakesCoherent(written, o, preserve, after);
    } else {
      assert ActiveIn(written, o) == ActiveIn(db, o);
      CoherentFrame(db, written, o);
      if held.Some? {
        ReconcileKeepsOthers(written, held.value, preserve, after, o);
      }
    }
  }

  lemma CloseKeepsCoherence(db: Db, id: DeliveryId, row: Delivery, kind: EventKind, now: int, after: Db, o: SlotId)
    requires Closes(db, id, row, kind, now, after) && !IsActive(row.status) && Coherent(db, o)
    ensures Coherent(after, o)
  {
    ReleaseKeepsCoherence(db, id, WithRow(db, id, row, Event(id, kind, Some(db.rows[id].status), Some(row.status), now)), true, after, o);
  }

  lemma DeleteKeepsCoherence(db: Db, input: ArchiveInput, mid: Db, after: Db, o: SlotId)
    requires input.id in db.rows && DeletesVia(db, input, mid, after) && !IsActive(db.rows[input.id].status)
    requires Coherent(db, o) || db.rows[input.id].slot == Some(o)
    ensures Coherent(after, o)
  {
    var written, held := ArchivedLog(db, input), db.rows[input.id].slot;
    SameRowsAndSlots(db, written, o);
    if held == Some(o) {
      ReconcileMakesCoherent(written, o, false, mid);
    } else if held.Some? {
      ReconcileKeepsOthers(written, held.value, false, mid, o);
    }
    ReleasesKeepsTables(written, held, false, mid);
    DeleteInactiveRow(mid, input.id, after, o);
  }

  lemma SameRowsAndSlots(db: Db, after: Db, o: SlotId)
    requires after.rows == db.rows && after.slots == db.slots
    ensures Coherent(after, o) <==> Coherent(db, o)
  {
    assert ActiveIn(after, o) == ActiveIn(db, o);
  }

  /** Archiving a delivery that occupies no slot keeps every slot coherent, and makes its former slot so. */
  lemma ArchiveKeepsCoherence(db: Db, input: ArchiveInput, after: Db, o: SlotId)
    requires Archives(db, input, after) && input.id in db.rows && !IsActive(db.rows[input.id].status)
    requires Coherent(db, o) || (ArchiveVerdict(db, input) == Archived(true) && db.rows[input.id].slot == Some(o))
    ensures Coherent(after, o)
  {
    match ArchiveVerdict(db, input) {
      case Archived(true) =>
        var mid :| DeletesVia(db, input, mid, after);
        DeleteKeepsCoherence(db, input, mid, after, o);
      case Archived(false) => SameRowsAndSlots(db, after, o);
      case _ =>
    }
  }

  lemma DeleteInactiveRow(mid: Db, id: DeliveryId, after: Db, o: SlotId)
    requires after == mid.(rows := mid.rows - {id}) && (id in mid.rows ==> !IsActive(mid.rows[id].status))
    ensures Coherent(after, o) <==> Coherent(mid, o)
  {
    assert ActiveIn(after, o) == ActiveIn(mid, o);
    CoherentFrame(mid, after, o);
  }

  lemma MarkLeavesOtherSlots(db: Db, id: DeliveryId, now: int, o: SlotId)
    requires id in db.rows && db.rows[id].slot != Some(o) && Coherent(db, o)
    ensures Coherent(Marked(db, id, now), o)
  {
    assert ActiveIn(Marked(db, id, now), o) == ActiveIn(db, o);
    CoherentFrame(db, Marked(db, id, now), o);
  }

  lemma DailyCloseKeepsCoherence(db: Db, id: DeliveryId, scope: CloseScope, now: int, after: Db, o: SlotId)
    requires ClosesOne(db, id, scope, now, after) && Coherent(db, o)
    ensures Coherent(after, o)
  {
    if id in db.rows && Closable(db, db.rows[id], scope) {
      var marked := Marked(db, id, now);
      if db.rows[id].slot != Some(o) {
        MarkLeavesOtherSlots(db, id, now, o);
      }
      ArchiveKeepsCoherence(marked, CloseInput(id, db.rows[id], now), after, o);
    }
  }

  lemma PurgeKeepsCoherence(db: Db, ids: set<DeliveryId>, o: SlotId)
    requires Coherent(db, o)
    ensures Coherent(Purge(db, ids), o)
  {
    assert ActiveIn(Purge(db, ids), o) == ActiveIn(db, o);
    CoherentFrame(db, Purge(db, ids), o);
  }

  lemma SetManualKeepsCoherence(db: Db, s: SlotId, status: SlotStatus, after: Db, o: SlotId)
    requires s in db.slots && Coherent(db, o)
    requires Reconciles(db.(slots := db.slots[s := db.slots[s].(status := status)]), s, true, after)
    ensures Coherent(after, o)
  {
    var written := db.(slots := db.slots[s := db.slots[s].(status := status)]);
    if o == s {
      ReconcileMakesCoherent(written, s, true, after);
    } else {
      assert ActiveIn(written, o) == ActiveIn(db, o);
      CoherentFrame(db, written, o);
      ReconcileKeepsOthers(written, s, true, after, o);
    }
  }

  lemma ManualCallKeepsCoherence(db: Db, id: DeliveryId, s: SlotId, now: int, after: Db, o: SlotId)
    requires ManuallyCalls(db, id, s, now, after) && Coherent(db, o)
    requires CallVerdict(db, id, s) == Call && o != s ==> id !in ActiveIn(db, o)
    ensures Coherent(after, o)
  {
    if CallVerdict(db, id, s) == Call {
      CallKeepsCoherence(db, id, s, now, CallKind(db.rows[id].status), after, o);
    } else if CallVerdict(db, id, s) == Recall {
      assert ActiveIn(after, o) == ActiveIn(db, o);
      CoherentFrame(db, after, o);
    }
  }

  lemma AutoAssignKeepsCoherence(db: Db, s: SlotId, next: DeliveryId, now: int, after: Db, o: SlotId)
    requires s in db.slots && IsNext(db, s, next) && CallsInto(db, next, s, now, AutoAssignedEvent, after) && Coherent(db, o)
    ensures Coherent(after, o)
  {
    assert next !in ActiveIn(db, o) by { assert next in WaitingFor(db, s); }
    CallKeepsCoherence(db, next, s, now, AutoAssignedEvent, after, o);
  }

  lemma CloseStepKeepsCoherence(db: Db, op: Op, after: Db, o: SlotId)
    requires Step(db, op, after) && Coherent(db, o) && (op.OpComplete? || op.OpCancel?)
    ensures Coherent(after, o)
  {
    match op {
      case OpComplete(id, now) =>
        if CompleteVerdict(db, id) == Done { CloseKeepsCoherence(db, id, CompletedRow(db.rows[id], now), CompletedEvent, now, after, o); }
      case OpCancel(id, reason, now) =>
        if CancelVerdict(db, id) == Done { CloseKeepsCoherence(db, id, CancelledRow(db.rows[id], reason, now), CancelledEvent, now, after, o); }
      case _ =>
    }
  }

  lemma CalledArchiveKeepsCoherence(db: Db, input: ArchiveInput, after: Db, o: SlotId)
    requires CalledArchive(db, input) && Archives(db, input, after) && Coherent(db, o)
    ensures Coherent(after, o)
  {
    if ArchiveVerdict(db, input).Archived? {
      ArchiveKeepsCoherence(db, input, after, o);
    }
  }

  lemma ReconcileKeepsCoherence(db: Db, s: SlotId, preserve: bool, after: Db, o: SlotId)
    requires Reconciles(db, s, preserve, after) && Coherent(db, o)
    ensures Coherent(after, o)
  {
    ReconcileMakesCoherent(db, s, preserve, after);
    ReconcileKeepsOthers(db, s, preserve, after, o);
  }

  /** Steps on rows that occupy no other slot afterwards than before. */
  lemma RowStepKeepsCoherence(db: Db, op: Op, after: Db, o: SlotId)
    requires Step(db, op, after) && Coherent(db, o)
    requires op.OpRegister? || op.OpReregister? || op.OpCheckIn? || op.OpStart?
    ensures Coherent(after, o)
  {
    if after != db {
      RowWriteLeavesSlots(db, op.id, after.rows[op.id], after, o);
      CoherentFrame(db, after, o);
    }
  }

  /** Every step keeps every slot coherent, except the slot a delivery is moved out of by hand. */
  lemma StepKeepsCoherence(db: Db, op: Op, after: Db, o: SlotId)
    requires Step(db, op, after) && Coherent(db, o) && !MovesOut(db, op, o)
    ensures Coherent(after, o)
  {
    match op {
      case OpAutoAssign(s, unit, next, now) =>
        if Assignable(db, s, unit) { AutoAssignKeepsCoherence(db, s, next, now, after, o); }
      case OpManualCall(id, s, now) => ManualCallKeepsCoherence(db, id, s, now, after, o);
      case OpComplete(id, now) => CloseStepKeepsCoherence(db, op, after, o);
      case OpCancel(id, reason, now) => CloseStepKeepsCoherence(db, op, after, o);
      case OpArchive(input) => CalledArchiveKeepsCoherence(db, input, after, o);
      case OpClose(id, scope, now) => DailyCloseKeepsCoherence(db, id, scope, now, after, o);
      case OpPurge(ids) => PurgeKeepsCoherence(db, ids, o);
      case OpReconcile(s, preserve) => ReconcileKeepsCoherence(db, s, preserve, after, o);
      case OpSetManual(s, status) => SetManualKeepsCoherence(db, s, status, after, o);
      case _ => RowStepKeepsCoherence(db, op, after, o);
    }
  }

  /** Nobody is moved out of `o` by hand in steps m to n - 1. */
  ghost predicate NobodyMovesOut(dbs: seq<Db>, ops: seq<Op>, m: nat, n: nat, o: SlotId) {
    n <= |ops| < |dbs| && forall i :: m <= i < n ==> !MovesOut(dbs[i], ops[i], o)
  }

  lemma RunStepKeepsCoherence(dbs: seq<Db>, ops: seq<Op>, m: nat, i: nat, n: nat, o: SlotId)
    requires IsRun(dbs, ops) && m <= i < n && NobodyMovesOut(dbs, ops, m, n, o) && Coherent(dbs[i], o)
    ensures Coherent(dbs[i + 1], o)
  {
    StepKeepsCoherence(dbs[i], ops[i], dbs[i + 1], o);
  }

  /** Slot coherence over a run: a slot stays coherent as long as nobody is moved out of it by hand. */
  lemma RunKeepsCoherence(dbs: seq<Db>, ops: seq<Op>, m: nat, n: nat, o: SlotId)
    requires IsRun(dbs, ops) && m <= n && NobodyMovesOut(dbs, ops, m, n, o) && Coherent(dbs[m], o)
    ensures Coherent(dbs[n], o)
  {
    forall i | m <= i < n && Coherent(dbs[i], o) ensures Coherent(dbs[i + 1], o) {
      RunStepKeepsCoherence(dbs, ops, m, i, n, o);
    }
    CoherenceChain(dbs, m, n, o);
  }

  lemma {:induction false} CoherenceChain(dbs: seq<Db>, m: nat, n: nat, o: SlotId)
    requires m <= n < |dbs| && Coherent(dbs[m], o)
    requires forall i :: m <= i < n && Coherent(dbs[i], o) ==> Coherent(dbs[i + 1], o)
    ensures Coherent(dbs[n], o)
    decreases n - m
  {
    if m < n {
      CoherenceChain(dbs, m, n - 1, o);
    }
  }

  /** The moved delivery cannot be the one the source names, and the source is manual or was not exactly full. */
  ghost predicate SourceSurvives(db: Db, id: DeliveryId, o: SlotId)
    requires o in db.slots
  {
    !IsFirstActive(db, o, Some(id)) && (IsManual(db.slots[o].status) || |ActiveIn(db, o)| != db.slots[o].maxCapacity)
  }

  /** One outcome of a move: the source names one of the deliveries the query may put first in the state before, and is
      coherent exactly when that is not the moved one and the slot is manual or was not exactly full.  Without ties this
      is a condition on the state before.  One reconcile repairs the source in every case. */
  lemma SourceOfOneMove(db: Db, id: DeliveryId, s: SlotId, now: int, after: Db, o: SlotId, repaired: Db)
    requires o in db.slots && MovesOut(db, OpManualCall(id, s, now), o) && ManuallyCalls(db, id, s, now, after)
    requires Reconciles(after, o, true, repaired)
    ensures o in after.slots && Coherent(repaired, o) && IsFirstActive(db, o, after.slots[o].current)
    ensures Coherent(after, o) <==>
              after.slots[o].current != Some(id) && (IsManual(db.slots[o].status) || |ActiveIn(db, o)| != db.slots[o].maxCapacity)
    ensures SourceSurvives(db, id, o) ==> Coherent(after, o)
    ensures NoTies(db, o) ==> (Coherent(after, o) <==> SourceSurvives(db, id, o))
  {
    ReconcileMakesCoherent(after, o, true, repaired);
    var mid := SourceKeepsReconciledRow(db, id, s, now, CallKind(db.rows[id].status), after, o);
    ReconcileMakesCoherent(db, o, true, mid);
    assert ActiveIn(mid, o) == ActiveIn(db, o);
    assert |ActiveIn(after, o)| == |ActiveIn(db, o)| - 1;
  }

  /** A move out of `o` whose query names `cur` there. */
  lemma MoveNaming(db: Db, id: DeliveryId, s: SlotId, now: int, o: SlotId, cur: Option<DeliveryId>) returns (after: Db)
    requires o in db.slots && MovesOut(db, OpManualCall(id, s, now), o) && IsFirstActive(db, o, cur)
    ensures ManuallyCalls(db, id, s, now, after) && o in after.slots && after.slots[o].current == cur
  {
    var kind := CallKind(db.rows[id].status);
    var mid := db.(slots := db.slots[o := Reconciled(db, o, true, cur)]);
    assert ReconcilesTo(db, o, true, cur, mid);
    var written := CallWrites(mid, id, s, now, kind);
    var target := FirstActiveExists(written, s);
    after := written.(slots := written.slots[s := Reconciled(written, s, true, target)]);
    assert ReconcilesTo(written, s, true, target, after);
    assert CallsVia(db, id, s, now, kind, mid, after);
  }

  /** A move by hand leaves its source coherent, whichever of several tied rows the query puts first, exactly when in the
      state before it cannot name the moved delivery and the source is manual or not exactly full. */
  lemma SourceOfMove(db: Db, id: DeliveryId, s: SlotId, now: int, o: SlotId)
    requires o in db.slots && MovesOut(db, OpManualCall(id, s, now), o)
    ensures (forall after :: ManuallyCalls(db, id, s, now, after) ==> Coherent(after, o)) <==> SourceSurvives(db, id, o)
  {
    hide ManuallyCalls, Coherent, MovesOut, Reconciles;
    forall after | ManuallyCalls(db, id, s, now, after) ensures SourceSurvives(db, id, o) ==> Coherent(after, o) {
      var repaired := RepairExists(after, o);
      SourceOfOneMove(db, id, s, now, after, o, repaired);
    }
    if !SourceSurvives(db, id, o) {
      var cur := Some(id);
      if !IsFirstActive(db, o, Some(id)) {
        cur := FirstActiveExists(db, o);
      }
      var after := MoveNaming(db, id, s, now, o, cur);
      var repaired := RepairExists(after, o);
      SourceOfOneMove(db, id, s, now, after, o, repaired);
      assert !Coherent(after, o);
    }
  }

  lemma RepairExists(db: Db, o: SlotId) returns (after: Db)
    ensures Reconciles(db, o, true, after)
  {
    after := db;
    if o in db.slots {
      var cur := FirstActiveExists(db, o);
      after := db.(slots := db.slots[o := Reconciled(db, o, true, cur)]);
      assert ReconcilesTo(db, o, true, cur, after);
    }
  }

  /** The source is reconciled before the move, with the moved delivery still in it, and not again after. */
  lemma SourceKeepsReconciledRow(db: Db, id: DeliveryId, s: SlotId, now: int, kind: EventKind, after: Db, o: SlotId) returns (mid: Db)
    requires o in db.slots && o != s && id in ActiveIn(db, o) && CallsInto(db, id, s, now, kind, after)
    ensures Reconciles(db, o, true, mid) && mid.rows == db.rows
    ensures o in mid.slots && o in after.slots && after.slots[o] == mid.slots[o]
    ensures ActiveIn(after, o) == ActiveIn(db, o) - {id}
  {
    mid :| CallsVia(db, id, s, now, kind, mid, after);
    ReconcileKeepsOthers(db, o, true, mid, o);
    ReconcileKeepsOthers(CallWrites(mid, id, s, now, kind), s, true, after, o);
    CallMovesOccupancy(db, id, s, now, kind, after, o);
  }

  /** A yard with one delivery called into slot 0, and slot 1 free; both are for one vehicle. */
  function TwoSlots(): Db {
    var row := Delivery("51C", 0, Some(0), GeneralGoods, Some(GeneralGoods), Truck, None, Some(1), Some(2), None, None, Called, Some(0),
                        false, Some(1), None, 0, 2);
    var slot := Slot(0, 0, Truck, [], [], true, 1, Occupied, true, Some(0), Some(2), 0);
    Db(map[0 := row], map[0 := slot, 1 := slot.(code := 1, status := Available, current := None)], map[], [], map[0 := 0])
  }

  /** A move that leaves its source incoherent: the only delivery is moved to the free slot, and the slot it left stays
      OCCUPIED by it. */
  lemma MoveLeavesSourceStale() returns (after: Db)
    ensures Coherent(TwoSlots(), 0) && Coherent(TwoSlots(), 1)
    ensures ManuallyCalls(TwoSlots(), 0, 1, 3, after) && MovesOut(TwoSlots(), OpManualCall(0, 1, 3), 0)
    ensures 0 in after.slots && after.slots[0].status == Occupied && after.slots[0].current == Some(0) && ActiveIn(after, 0) == {}
    ensures !Coherent(after, 0)
  {
    var db := TwoSlots();
    assert ActiveIn(db, 0) == {0} && ActiveIn(db, 1) == {};
    assert ActiveIn(db, 1) - {0} == {};
    assert CallVerdict(db, 0, 1) == ManualCall.Call;
    assert IsFirstActive(db, 0, Some(0));
    after := MoveNaming(db, 0, 1, 3, 0, Some(0));
    var repaired := RepairExists(after, 0);
    SourceOfOneMove(db, 0, 1, 3, after, 0, repaired);
    var mid := SourceKeepsReconciledRow(db, 0, 1, 3, CallKind(Called), after, 0);
    ReconcileMakesCoherent(db, 0, true, mid);
  }

  // ---- manual statuses ----------------------------------------------------------------------

  /** The step reconciles slot `o` without regard to its manual status. */
  ghost predicate ForgetsManual(db: Db, op: Op, o: SlotId) {
    match op
    case OpArchive(input) => ArchiveVerdict(db, input) == Archived(true) && db.rows[input.id].slot == Some(o)
    case OpClose(id, scope, now) => id in db.rows && Closable(db, db.rows[id], scope) && db.rows[id].slot == Some(o)
    case OpReconcile(s, preserve) => s == o && !preserve
    case _ => false
  }

  ghost predicate StaysManual(db: Db, o: SlotId, after: Db) {
    o in after.slots && IsManual(after.slots[o].status)
  }

  lemma ReleaseAndManual(db: Db, slot: Option<SlotId>, preserve: bool, after: Db, o: SlotId)
    requires Releases(db, slot, preserve, after) && o in db.slots && IsManual(db.slots[o].status)
    ensures StaysManual(db, o, after) <==> preserve || slot != Some(o)
  {
    if slot.Some? {
      ReconcileMakesCoherent(db, slot.value, preserve, after);
      ReconcileKeepsOthers(db, slot.value, preserve, after, o);
    }
  }

  lemma ArchiveAndManual(db: Db, input: ArchiveInput, after: Db, o: SlotId)
    requires Archives(db, input, after) && o in db.slots && IsManual(db.slots[o].status)
    ensures StaysManual(db, o, after) <==> !(ArchiveVerdict(db, input) == Archived(true) && db.rows[input.id].slot == Some(o))
  {
    if ArchiveVerdict(db, input) == Archived(true) {
      var mid :| DeletesVia(db, input, mid, after);
      ReleaseAndManual(ArchivedLog(db, input), db.rows[input.id].slot, false, mid, o);
    }
  }

  lemma CloseStepAndManual(db: Db, op: Op, after: Db, o: SlotId)
    requires Step(db, op, after) && (op.OpComplete? || op.OpCancel?) && o in db.slots && IsManual(db.slots[o].status)
    ensures StaysManual(db, o, after)
  {
    match op {
      case OpComplete(id, now) =>
        if CompleteVerdict(db, id) == Done { CloseAndManual(db, id, CompletedRow(db.rows[id], now), CompletedEvent, now, after, o); }
      case OpCancel(id, reason, now) =>
        if CancelVerdict(db, id) == Done { CloseAndManual(db, id, CancelledRow(db.rows[id], reason, now), CancelledEvent, now, after, o); }
      case _ =>
    }
  }

  lemma CloseAndManual(db: Db, id: DeliveryId, row: Delivery, kind: EventKind, now: int, after: Db, o: SlotId)
    requires Closes(db, id, row, kind, now, after) && o in db.slots && IsManual(db.slots[o].status)
    ensures StaysManual(db, o, after)
  {
    ReleaseAndManual(WithRow(db, id, row, Event(id, kind, Some(db.rows[id].status), Some(row.status), now)), db.rows[id].slot, true, after, o);
  }

  lemma ManualCallAndManual(db: Db, id: DeliveryId, s: SlotId, now: int, after: Db, o: SlotId)
    requires ManuallyCalls(db, id, s, now, after) && o in db.slots && IsManual(db.slots[o].status)
    ensures StaysManual(db, o, after)
  {
    if CallVerdict(db, id, s) == Call {
      CallKeepsSlotConfiguration(db, id, s, now, CallKind(db.rows[id].status), after, o);
    }
  }

  /** MAINTENANCE and RESERVED survive a step exactly when the step does not archive or close the delivery assigned to
      the slot, and is not a forced reconcile of it. */
  lemma ManualStatusSurvives(db: Db, op: Op, after: Db, o: SlotId)
    requires Step(db, op, after) && o in db.slots && IsManual(db.slots[o].status)
    ensures StaysManual(db, o, after) <==> !ForgetsManual(db, op, o)
  {
    match op {
      case OpAutoAssign(s, unit, next, now) =>
        if Assignable(db, s, unit) { CallKeepsSlotConfiguration(db, next, s, now, AutoAssignedEvent, after, o); }
      case OpManualCall(id, s, now) => ManualCallAndManual(db, id, s, now, after, o);
      case OpComplete(id, now) => CloseStepAndManual(db, op, after, o);
      case OpCancel(id, reason, now) => CloseStepAndManual(db, op, after, o);
      case OpArchive(input) => ArchiveAndManual(db, input, after, o);
      case OpClose(id, scope, now) =>
        if id in db.rows && Closable(db, db.rows[id], scope) { ArchiveAndManual(Marked(db, id, now), CloseInput(id, db.rows[id], now), after, o); }
      case OpReconcile(s, preserve) => ReleaseAndManual(db, Some(s), preserve, after, o);
      case OpSetManual(s, status) =>
        ReleaseAndManual(db.(slots := db.slots[s := db.slots[s].(status := status)]), Some(s), true, after, o);
      case _ =>
    }
  }
}
