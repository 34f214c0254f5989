/** The transactions that move one delivery along: registration, check-in, receiving, completion, cancellation. */
module Lifecycle {
  import opened Types
  import opened Store
  import opened SlotState

  /** What a registration form contributes to the row, once validated and resolved. */
  datatype Form = Form(
    plate: Plate, unit: UnitCode, config: ConfigId, goods: Goods, originalGoods: Goods, vehicle: Vehicle, requested: Option<int>)

  /** The row and one event are written; no slot is touched. */
  function WithRow(db: Db, id: DeliveryId, row: Delivery, event: Event): Db {
    db.(rows := db.rows[id := row], log := db.log + [event])
  }

  /** The slot a delivery held, if any, is reconciled. */
  ghost predicate Releases(db: Db, slot: Option<SlotId>, preserve: bool, after: Db) {
    if slot.Some? then Reconciles(db, slot.value, preserve, after) else after == db
  }

  method ReleaseSlot(t: Tables, slot: Option<SlotId>, preserve: bool)
    modifies t
    ensures Releases(old(t.Snapshot()), slot, preserve, t.Snapshot())
  {
    if slot.Some? {
      var snapshot := ReconcileSlotState(t, slot.value, preserve);
    }
  }

  lemma ReleasesKeepsTables(db: Db, slot: Option<SlotId>, preserve: bool, after: Db)
    requires Releases(db, slot, preserve, after)
    ensures after == db.(slots := after.slots) && after.slots.Keys == db.slots.Keys
  {
    if slot.Some? {
      ReconcileKeepsOthers(db, slot.value, preserve, after, 0);
    }
  }

  /** `id` goes from its status to that of `row` with one event; the slot it held is reconciled. */
  ghost predicate Closes(db: Db, id: DeliveryId, row: Delivery, kind: EventKind, at: int, after: Db) {
    && id in db.rows
    && Releases(WithRow(db, id, row, Event(id, kind, Some(db.rows[id].status), Some(row.status), at)), db.rows[id].slot, true, after)
  }

  // ---- registration -------------------------------------------------------------------------

  function Registration(form: Form, now: int): Delivery {
    Delivery(form.plate, form.unit, Some(form.config), form.goods, Some(form.originalGoods), form.vehicle, form.requested,
             None, None, None, None, Registered, None, form.goods == AutoWarehouse, None, None, now, now)
  }

  /** The create branch of the registration transaction. */
  function RegisterNew(db: Db, id: DeliveryId, form: Form, now: int): Db {
    WithRow(db, id, Registration(form, now), Event(id, RegisteredEvent, None, Some(Registered), now))
  }

  /** The update branch keeps status, slot, ticket and times; no event is recorded. */
  function Reregistration(row: Delivery, form: Form, now: int): Delivery {
    row.(plate := form.plate, unit := form.unit, config := Some(form.config), goods := form.goods,
         originalGoods := Some(form.originalGoods), vehicle := form.vehicle, requested := form.requested,
         autoWarehouse := form.goods == AutoWarehouse, updatedAt := now)
  }

  /** The update branch is only taken for a row that is still REGISTERED and not checked in. */
  predicate Reregistrable(db: Db, id: DeliveryId) {
    id in db.rows && db.rows[id].status == Registered && db.rows[id].checkin == None
  }

  function Reregister(db: Db, id: DeliveryId, form: Form, now: int): Db
    requires id in db.rows
  {
    db.(rows := db.rows[id := Reregistration(db.rows[id], form, now)])
  }

  method Register(t: Tables, id: DeliveryId, existing: Option<DeliveryId>, form: Form, now: int) returns (row: Delivery)
    requires existing.None? ==> id !in t.rows && id !in t.history
    requires existing.Some? ==> Reregistrable(t.Snapshot(), existing.value)
    modifies t
    ensures t.Snapshot() == if existing.Some? then Reregister(old(t.Snapshot()), existing.value, form, now)
                            else RegisterNew(old(t.Snapshot()), id, form, now)
    ensures row == t.rows[if existing.Some? then existing.value else id]
  {
    if existing.Some? {
      row := Reregistration(t.rows[existing.value], form, now);
      t.rows := t.rows[existing.value := row];
    } else {
      row := Registration(form, now);
      t.rows := t.rows[id := row];
      t.log := t.log + [Event(id, RegisteredEvent, None, Some(Registered), now)];
    }
  }

  // ---- check-in -----------------------------------------------------------------------------

  datatype CheckInOutcome = CheckInNotFound | UnitChanged | NotRegistered | GoodsUnknown | CheckedIn

  /** resolveCheckInGoodsType; None stands for the conflict it raises. */
  function ResolveGoods(row: Delivery, vendorMatches: bool): Option<(Goods, bool)> {
    if vendorMatches then Some((AutoWarehouse, true))
    else
      var original := if row.originalGoods.Some? then row.originalGoods.value else row.goods;
      if original == AutoWarehouse then None else Some((original, false))
  }

  function CheckInVerdict(db: Db, id: DeliveryId, expected: Option<Option<ConfigId>>, vendorMatches: bool): CheckInOutcome {
    if id !in db.rows then CheckInNotFound
    else if expected.Some? && db.rows[id].config != expected.value then UnitChanged
    else if db.rows[id].status != Registered then NotRegistered
    else if ResolveGoods(db.rows[id], vendorMatches).None? then GoodsUnknown
    else CheckedIn
  }

  function CheckIn(db: Db, id: DeliveryId, vendorMatches: bool, ticket: nat, now: int): Db
    requires id in db.rows && ResolveGoods(db.rows[id], vendorMatches).Some?
  {
    var kind := ResolveGoods(db.rows[id], vendorMatches).value;
    WithRow(db, id,
      db.rows[id].(status := Waiting, checkin := Some(now), ticket := Some(ticket), goods := kind.0, autoWarehouse := kind.1, updatedAt := now),
      Event(id, CheckedInEvent, Some(db.rows[id].status), Some(Waiting), now))
  }

  /** `ticket` is the number reserveTicketNumber issues inside the transaction. */
  method CheckInDelivery(t: Tables, id: DeliveryId, expected: Option<Option<ConfigId>>, vendorMatches: bool, ticket: nat, now: int)
    returns (outcome: CheckInOutcome)
    modifies t
    ensures outcome == CheckInVerdict(old(t.Snapshot()), id, expected, vendorMatches)
    ensures outcome == CheckedIn ==> t.Snapshot() == CheckIn(old(t.Snapshot()), id, vendorMatches, ticket, now)
    ensures outcome != CheckedIn ==> t.Snapshot() == old(t.Snapshot())
  {
    if id !in t.rows {
      return CheckInNotFound;
    }
    var row := t.rows[id];
    if expected.Some? && row.config != expected.value {
      return UnitChanged;
    }
    if row.status != Registered {
      return NotRegistered;
    }
    var kind := ResolveGoods(row, vendorMatches);
    if kind.None? {
      return GoodsUnknown;
    }
    t.rows := t.rows[id := row.(status := Waiting, checkin := Some(now), ticket := Some(ticket),
                                goods := kind.value.0, autoWarehouse := kind.value.1, updatedAt := now)];
    t.log := t.log + [Event(id, CheckedInEvent, Some(row.status), Some(Waiting), now)];
    return CheckedIn;
  }

  // ---- receiving ----------------------------------------------------------------------------

  datatype StartOutcome = StartNotFound | NotCalled | Started

  predicate Startable(db: Db, id: DeliveryId) {
    id in db.rows && db.rows[id].status == Called
  }

  function StartReceiving(db: Db, id: DeliveryId, now: int): Db
    requires id in db.rows
  {
    var row := db.rows[id];
    var next := if row.autoWarehouse then AutoWarehouseReceiving else Receiving;
    WithRow(db, id, row.(status := next, receivingStart := Some(now), updatedAt := now),
      Event(id, if row.autoWarehouse then AutoWarehouseReceivingStartedEvent else ReceivingStartedEvent, Some(row.status), Some(next), now))
  }

  method StartReceivingDelivery(t: Tables, id: DeliveryId, now: int) returns (outcome: StartOutcome)
    modifies t
    ensures outcome == if id !in old(t.rows) then StartNotFound else if old(t.rows)[id].status != Called then NotCalled else Started
    ensures t.Snapshot() == if outcome == Started then StartReceiving(old(t.Snapshot()), id, now) else old(t.Snapshot())
  {
    if id !in t.rows {
      return StartNotFound;
    }
    var row := t.rows[id];
    if row.status != Called {
      return NotCalled;
    }
    var next := if row.autoWarehouse then AutoWarehouseReceiving else Receiving;
    t.rows := t.rows[id := row.(status := next, receivingStart := Some(now), updatedAt := now)];
    t.log := t.log + [Event(id, if next == AutoWarehouseReceiving then AutoWarehouseReceivingStartedEvent else ReceivingStartedEvent,
                            Some(row.status), Some(next), now)];
    return Started;
  }

  // ---- completion and cancellation ----------------------------------------------------------

  datatype CloseOutcome = Done | AlreadyDone | CloseNotFound | InvalidStatus

  function CompleteVerdict(db: Db, id: DeliveryId): CloseOutcome {
    if id !in db.rows then CloseNotFound
    else if db.rows[id].status == Completed then AlreadyDone
    else if !IsActive(db.rows[id].status) then InvalidStatus
    else Done
  }

  /** NON_CANCELLABLE_STATUSES are COMPLETED, CANCELLED and EXPIRED; INCOMPLETED is not among them. */
  function CancelVerdict(db: Db, id: DeliveryId): CloseOutcome {
    if id !in db.rows then CloseNotFound
    else if db.rows[id].status == Cancelled then AlreadyDone
    else if db.rows[id].status == Completed || db.rows[id].status == Expired then InvalidStatus
    else Done
  }

  function CompletedRow(row: Delivery, now: int): Delivery {
    row.(status := Completed, completed := Some(now), updatedAt := now)
  }

  function CancelledRow(row: Delivery, reason: string, now: int): Delivery {
    row.(status := Cancelled, cancelReason := Some(reason), updatedAt := now)
  }

  method CompleteDelivery(t: Tables, id: DeliveryId, now: int) returns (outcome: CloseOutcome, released: Option<SlotId>)
    modifies t
    ensures outcome == CompleteVerdict(old(t.Snapshot()), id)
    ensures outcome == Done ==>
              && Closes(old(t.Snapshot()), id, CompletedRow(old(t.rows)[id], now), CompletedEvent, now, t.Snapshot())
              && released == old(t.rows)[id].slot
    ensures outcome != Done ==> t.Snapshot() == old(t.Snapshot()) && released == None
  {
    released := None;
    if id !in t.rows {
      return CloseNotFound, None;
    }
    var row := t.rows[id];
    if row.status == Completed {
      return AlreadyDone, None;
    }
    if !IsActive(row.status) {
      return InvalidStatus, None;
    }
    t.rows := t.rows[id := row.(status := Completed, completed := Some(now), updatedAt := now)];
    t.log := t.log + [Event(id, CompletedEvent, Some(row.status), Some(Completed), now)];
    ReleaseSlot(t, row.slot, true);
    return Done, row.slot;
  }

  method CancelDelivery(t: Tables, id: DeliveryId, reason: string, now: int) returns (outcome: CloseOutcome, released: Option<SlotId>)
    modifies t
    ensures outcome == CancelVerdict(old(t.Snapshot()), id)
    ensures outcome == Done ==>
              && Closes(old(t.Snapshot()), id, CancelledRow(old(t.rows)[id], reason, now), CancelledEvent, now, t.Snapshot())
              && released == old(t.rows)[id].slot
    ensures outcome != Done ==> t.Snapshot() == old(t.Snapshot()) && released == None
  {
    released := None;
    if id !in t.rows {
      return CloseNotFound, None;
    }
    var row := t.rows[id];
    if row.status == Cancelled {
      return AlreadyDone, None;
    }
    if row.status == Completed || row.status == Expired {
      return InvalidStatus, None;
    }
    t.rows := t.rows[id := row.(status := Cancelled, cancelReason := Some(reason), updatedAt := now)];
    t.log := t.log + [Event(id, CancelledEvent, Some(row.status), Some(Cancelled), now)];
    ReleaseSlot(t, row.slot, true);
    return Done, row.slot;
  }

  // ---- the transitions in the columns -------------------------------------------------------

  /** Who is checked in, and as what: a registered row of the expected unit whose goods are known.  The goods become
      auto-warehouse goods exactly when the vendor matches, and otherwise those first registered. */
  lemma CheckedInExactly(db: Db, id: DeliveryId, expected: Option<Option<ConfigId>>, vendorMatches: bool, ticket: nat, now: int)
    ensures CheckInVerdict(db, id, expected, vendorMatches) == CheckedIn <==>
              && id in db.rows && db.rows[id].status == Registered
              && (expected == None || expected == Some(db.rows[id].config))
              && (vendorMatches || (db.rows[id].originalGoods != Some(AutoWarehouse)
                                    && (db.rows[id].originalGoods == None ==> db.rows[id].goods != AutoWarehouse)))
    ensures CheckInVerdict(db, id, expected, vendorMatches) == CheckedIn ==>
              var row, after := db.rows[id], CheckIn(db, id, vendorMatches, ticket, now);
              && after.rows[id].status == Waiting && after.rows[id].checkin == Some(now) && after.rows[id].ticket == Some(ticket)
              && (after.rows[id].goods == AutoWarehouse <==> vendorMatches)
              && (after.rows[id].autoWarehouse <==> vendorMatches)
              && (!vendorMatches ==> Some(after.rows[id].goods) == row.originalGoods || (row.originalGoods == None && after.rows[id].goods == row.goods))
              && (forall o :: o in db.rows && o != id ==> after.rows[o] == db.rows[o])
  {
  }

  /** Who is started, and how: a called row is received, into the auto-warehouse exactly when it is flagged for it, and the
      event says which. */
  lemma StartedExactly(db: Db, id: DeliveryId, now: int)
    requires id in db.rows
    ensures Startable(db, id) <==> db.rows[id].status == Called
    ensures
      var row, after := db.rows[id], StartReceiving(db, id, now);
      var event := after.log[|db.log|];
      && (row.autoWarehouse ==> after.rows[id].status == AutoWarehouseReceiving && event.kind == AutoWarehouseReceivingStartedEvent)
      && (!row.autoWarehouse ==> after.rows[id].status == Receiving && event.kind == ReceivingStartedEvent)
      && after.rows[id].receivingStart == Some(now) && event.id == id && event.from == Some(row.status) && event.to == Some(after.rows[id].status)
      && (forall o :: o in db.rows && o != id ==> after.rows[o] == db.rows[o])
  {
  }

  /** Who is completed or cancelled, and for whom that is already so. */
  lemma ClosedExactly(db: Db, id: DeliveryId)
    requires id in db.rows
    ensures
      var status := db.rows[id].status;
      && (CompleteVerdict(db, id) == Done <==> status in {Called, Receiving, AutoWarehouseReceiving})
      && (CompleteVerdict(db, id) == AlreadyDone <==> status == Completed)
      && (CancelVerdict(db, id) == Done <==> status in {Registered, Waiting, Called, Receiving, AutoWarehouseReceiving, Incompleted})
      && (CancelVerdict(db, id) == AlreadyDone <==> status == Cancelled)
  {
  }
}
