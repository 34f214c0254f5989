/** Direct assignment: an operator writes a delivery's slot.  Neither the delivery's status nor the capacity is looked at,
    and the slot the delivery held before is not reconciled. */
module DirectAssign {
  import opened Types
  import opened Store
  import opened SlotState

  datatype AssignOutcome = SlotMissing | DeliveryMissing | SlotManual | Assigned

  function AssignVerdict(db: Db, id: DeliveryId, s: SlotId): AssignOutcome {
    if s !in db.slots then SlotMissing
    else if id !in db.rows then DeliveryMissing
    else if IsManual(db.slots[s].status) then SlotManual
    else Assigned
  }

  /** The delivery row and lastUsedAt, before the slot is reconciled. */
  function AssignWrites(db: Db, id: DeliveryId, s: SlotId, now: int): Db
    requires id in db.rows && s in db.slots
  {
    db.(rows := db.rows[id := db.rows[id].(slot := Some(s), updatedAt := now)],
        slots := db.slots[s := db.slots[s].(lastUsed := Some(now))])
  }

  /** `after` is an outcome of assigning `id` to `s` in `db`. */
  ghost predicate Assigns(db: Db, id: DeliveryId, s: SlotId, now: int, after: Db) {
    if AssignVerdict(db, id, s) == Assigned then Reconciles(AssignWrites(db, id, s, now), s, true, after) else after == db
  }

  method AssignDeliveryToSlot(t: Tables, id: DeliveryId, s: SlotId, now: int)
    returns (outcome: AssignOutcome, snapshot: Option<SlotSnapshot>)
    modifies t
    ensures outcome == AssignVerdict(old(t.Snapshot()), id, s)
    ensures Assigns(old(t.Snapshot()), id, s, now, t.Snapshot())
    ensures snapshot.Some? <==> outcome == Assigned
    ensures snapshot.Some? ==> IsSnapshot(t.Snapshot(), s, t.Snapshot(), snapshot.value)
  {
    if s !in t.slots {
      return SlotMissing, None;
    }
    if id !in t.rows {
      return DeliveryMissing, None;
    }
    if IsManual(t.slots[s].status) {
      return SlotManual, None;
    }
    ghost var db := t.Snapshot();
    t.rows := t.rows[id := t.rows[id].(slot := Some(s), updatedAt := now)];
    t.slots := t.slots[s := t.slots[s].(lastUsed := Some(now))];
    assert t.Snapshot() == AssignWrites(db, id, s, now);
    snapshot := ReconcileSlotState(t, s, true);
    ReconcileMakesCoherent(AssignWrites(db, id, s, now), s, true, t.Snapshot());
    outcome := Assigned;
  }

  /** The delivery moves, if it is active, and nobody else does. */
  lemma AssignmentMovesOccupancy(db: Db, id: DeliveryId, s: SlotId, now: int, after: Db, o: SlotId)
    requires Assigns(db, id, s, now, after) && AssignVerdict(db, id, s) == Assigned
    ensures ActiveIn(after, o) ==
              if !IsActive(db.rows[id].status) then ActiveIn(db, o)
              else if o == s then ActiveIn(db, o) + {id}
              else ActiveIn(db, o) - {id}
  {
    ReconcileKeepsOthers(AssignWrites(db, id, s, now), s, true, after, o);
  }

  /** The target ends coherent, and a slot the delivery did not leave stays so. */
  lemma AssignmentKeepsCoherence(db: Db, id: DeliveryId, s: SlotId, now: int, after: Db, o: SlotId)
    requires Assigns(db, id, s, now, after)
    ensures AssignVerdict(db, id, s) == Assigned ==> Coherent(after, s)
    ensures Coherent(db, o) && (o == s || id !in ActiveIn(db, o)) ==> Coherent(after, o)
  {
    if AssignVerdict(db, id, s) == Assigned {
      var written := AssignWrites(db, id, s, now);
      ReconcileMakesCoherent(written, s, true, after);
      if o != s && id !in ActiveIn(db, o) {
        assert ActiveIn(written, o) == ActiveIn(db, o);
        CoherentFrame(db, written, o);
        ReconcileKeepsOthers(written, s, true, after, o);
      }
    }
  }

  /** A coherent slot the delivery leaves stays coherent exactly when it did not name the delivery and is manual or was not
      exactly full. */
  lemma SourceOfAssignment(db: Db, id: DeliveryId, s: SlotId, now: int, after: Db, o: SlotId)
    requires Assigns(db, id, s, now, after) && AssignVerdict(db, id, s) == Assigned
    requires o in db.slots && o != s && id in ActiveIn(db, o) && Coherent(db, o)
    ensures Coherent(after, o) <==>
              db.slots[o].current != Some(id) && (IsManual(db.slots[o].status) || |ActiveIn(db, o)| != db.slots[o].maxCapacity)
  {
    ReconcileKeepsOthers(AssignWrites(db, id, s, now), s, true, after, o);
    AssignmentMovesOccupancy(db, id, s, now, after, o);
    assert after.slots[o] == db.slots[o];
    assert |ActiveIn(after, o)| == |ActiveIn(db, o)| - 1;
  }

  /** A target within its capacity stays so exactly when it has room or gets no new occupant. */
  lemma AssignmentOverfills(db: Db, id: DeliveryId, s: SlotId, now: int, after: Db)
    requires Assigns(db, id, s, now, after) && AssignVerdict(db, id, s) == Assigned
    requires |ActiveIn(db, s)| <= db.slots[s].maxCapacity
    ensures s in after.slots && after.slots[s].maxCapacity == db.slots[s].maxCapacity
    ensures |ActiveIn(after, s)| <= after.slots[s].maxCapacity <==>
              |ActiveIn(db, s)| < db.slots[s].maxCapacity || !IsActive(db.rows[id].status) || id in ActiveIn(db, s)
  {
    ReconcileKeepsOthers(AssignWrites(db, id, s, now), s, true, after, s);
    AssignmentMovesOccupancy(db, id, s, now, after, s);
    assert id !in ActiveIn(db, s) ==> |ActiveIn(db, s) + {id}| == |ActiveIn(db, s)| + 1;
  }
}
