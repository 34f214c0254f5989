/** Calling a delivery into a slot: the write sequence shared by the dispatcher and the manual call. */
module Calls {
  import opened Types
  import opened Store
  import opened SlotState

  function CalledRow(row: Delivery, s: SlotId, now: int): Delivery {
    row.(status := Called, called := Some(now), slot := Some(s), updatedAt := now)
  }

  /** The delivery row, the event and lastUsedAt, before the slots are reconciled. */
  function CallWrites(db: Db, d: DeliveryId, s: SlotId, now: int, kind: EventKind): Db
    requires d in db.rows && s in db.slots
  {
    db.(rows := db.rows[d := CalledRow(db.rows[d], s, now)],
        log := db.log + [Event(d, kind, Some(db.rows[d].status), Some(Called), now)],
        slots := db.slots[s := db.slots[s].(lastUsed := Some(now))])
  }

  /** The slot a delivery held is reconciled before the delivery is moved to `s`. */
  ghost predicate ReleasesOld(db: Db, d: DeliveryId, s: SlotId, mid: Db)
    requires d in db.rows
  {
    var held := db.rows[d].slot;
    if held.Some? && held.value != s then Reconciles(db, held.value, true, mid) else mid == db
  }

  ghost predicate CallsVia(db: Db, d: DeliveryId, s: SlotId, now: int, kind: EventKind, mid: Db, after: Db)
    requires d in db.rows && s in db.slots
  {
    && ReleasesOld(db, d, s, mid)
    && d in mid.rows && s in mid.slots
    && Reconciles(CallWrites(mid, d, s, now, kind), s, true, after)
  }

  /** `after` is an outcome of calling `d` into `s`. */
  ghost predicate CallsInto(db: Db, d: DeliveryId, s: SlotId, now: int, kind: EventKind, after: Db) {
    d in db.rows && s in db.slots && exists mid :: CallsVia(db, d, s, now, kind, mid, after)
  }

  lemma ReleaseEffect(db: Db, d: DeliveryId, s: SlotId, mid: Db, o: SlotId)
    requires d in db.rows && ReleasesOld(db, d, s, mid)
    ensures mid == db.(slots := mid.slots) && mid.slots.Keys == db.slots.Keys
    ensures Coherent(db, o) ==> Coherent(mid, o)
    ensures o in db.slots ==>
              && mid.slots[o] == db.slots[o].(status := mid.slots[o].status, current := mid.slots[o].current)
              && (IsManual(mid.slots[o].status) <==> IsManual(db.slots[o].status))
  {
    var held := db.rows[d].slot;
    if held.Some? && held.value != s {
      ReconcileKeepsOthers(db, held.value, true, mid, o);
      ReconcileMakesCoherent(db, held.value, true, mid);
    }
  }

  method Call(t: Tables, d: DeliveryId, s: SlotId, now: int, kind: EventKind)
    requires d in t.rows && s in t.slots
    modifies t
    ensures CallsInto(old(t.Snapshot()), d, s, now, kind, t.Snapshot())
  {
    ghost var db := t.Snapshot();
    var row := t.rows[d];
    if row.slot.Some? && row.slot.value != s {
      var released := ReconcileSlotState(t, row.slot.value, true);
      ReconcileKeepsOthers(db, row.slot.value, true, t.Snapshot(), s);
    }
    ghost var mid := t.Snapshot();
    t.rows := t.rows[d := row.(status := Called, called := Some(now), slot := Some(s), updatedAt := now)];
    t.log := t.log + [Event(d, kind, Some(row.status), Some(Called), now)];
    t.slots := t.slots[s := t.slots[s].(lastUsed := Some(now))];
    assert t.Snapshot() == CallWrites(mid, d, s, now, kind);
    var snapshot := ReconcileSlotState(t, s, true);
    assert CallsVia(db, d, s, now, kind, mid, t.Snapshot());
  }

  /** What a call changes: one row, one event, and the bookkeeping columns of slots. */
  lemma CallEffect(db: Db, d: DeliveryId, s: SlotId, now: int, kind: EventKind, after: Db)
    requires CallsInto(db, d, s, now, kind, after)
    ensures after.rows == db.rows[d := CalledRow(db.rows[d], s, now)]
    ensures after.log == db.log + [Event(d, kind, Some(db.rows[d].status), Some(Called), now)]
    ensures after.history == db.history && after.configs == db.configs
    ensures after.slots.Keys == db.slots.Keys
  {
    var mid :| CallsVia(db, d, s, now, kind, mid, after);
    ReleaseEffect(db, d, s, mid, s);
    ReconcileKeepsOthers(CallWrites(mid, d, s, now, kind), s, true, after, s);
  }

  /** A slot's configuration, and whether it is in a manual status, survive every call. */
  lemma CallKeepsSlotConfiguration(db: Db, d: DeliveryId, s: SlotId, now: int, kind: EventKind, after: Db, o: SlotId)
    requires CallsInto(db, d, s, now, kind, after) && o in db.slots
    ensures o in after.slots
    ensures after.slots[o] == db.slots[o].(status := after.slots[o].status, current := after.slots[o].current, lastUsed := after.slots[o].lastUsed)
    ensures IsManual(after.slots[o].status) <==> IsManual(db.slots[o].status)
  {
    var mid :| CallsVia(db, d, s, now, kind, mid, after);
    ReleaseEffect(db, d, s, mid, o);
    var written := CallWrites(mid, d, s, now, kind);
    ReconcileKeepsOthers(written, s, true, after, o);
    ReconcileMakesCoherent(written, s, true, after);
  }

  /** A call adds `d` to the occupants of `s` and removes it from every other slot. */
  lemma CallMovesOccupancy(db: Db, d: DeliveryId, s: SlotId, now: int, kind: EventKind, after: Db, o: SlotId)
    requires CallsInto(db, d, s, now, kind, after)
    ensures ActiveIn(after, o) == if o == s then ActiveIn(db, o) + {d} else ActiveIn(db, o) - {d}
  {
    CallEffect(db, d, s, now, kind, after);
  }

  /** The target slot ends coherent; so does every slot that was, unless the delivery left it. */
  lemma CallKeepsCoherence(db: Db, d: DeliveryId, s: SlotId, now: int, kind: EventKind, after: Db, o: SlotId)
    requires CallsInto(db, d, s, now, kind, after)
    ensures Coherent(after, s)
    ensures Coherent(db, o) && d !in ActiveIn(db, o) ==> Coherent(after, o)
  {
    var mid :| CallsVia(db, d, s, now, kind, mid, after);
    ReconcileMakesCoherent(CallWrites(mid, d, s, now, kind), s, true, after);
    if o != s && Coherent(db, o) && d !in ActiveIn(db, o) {
      OtherSlotsStayCoherent(db, d, s, now, kind, mid, after, o);
    }
  }

  lemma OtherSlotsStayCoherent(
    db: Db, d: DeliveryId, s: SlotId, now: int, kind: EventKind, mid: Db, after: Db, o: SlotId)
    requires d in db.rows && s in db.slots && CallsVia(db, d, s, now, kind, mid, after)
    requires o != s && Coherent(db, o) && d !in ActiveIn(db, o)
    ensures Coherent(after, o)
  {
    ReleaseEffect(db, d, s, mid, o);
    var written := CallWrites(mid, d, s, now, kind);
    assert ActiveIn(written, o) == ActiveIn(mid, o) by {
      assert written.rows == mid.rows[d := CalledRow(mid.rows[d], s, now)];
    }
    CoherentFrame(mid, written, o);
    ReconcileKeepsOthers(written, s, true, after, o);
  }
}
