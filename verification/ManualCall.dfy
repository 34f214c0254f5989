/** Calling a delivery by hand: first call, recall, move to another slot. */
module ManualCall {
  import opened Types
  import opened Store
  import opened SlotState
  import opened Calls

  datatype CallOutcome =
    | DeliveryNotFound | InvalidStatus | SlotNotFound | SlotUnavailable | SlotMismatch | SlotFull
    | Recall
    | Call

  /** getDeliveryHomeLocationId */
  function HomeLocation(db: Db, row: Delivery): Option<LocationId> {
    if row.config.Some? && row.config.value in db.configs then Some(db.configs[row.config.value])
    else if row.slot.Some? && row.slot.value in db.slots && db.slots[row.slot.value].config in db.configs
    then Some(db.configs[db.slots[row.slot.value].config])
    else None
  }

  function SlotLocation(db: Db, slot: Slot): Option<LocationId> {
    if slot.config in db.configs then Some(db.configs[slot.config]) else None
  }

  /** The decision taken under the row locks of the delivery and the slot. */
  function CallVerdict(db: Db, id: DeliveryId, s: SlotId): CallOutcome {
    if id !in db.rows then DeliveryNotFound
    else if db.rows[id].status != Waiting && db.rows[id].status != Called then InvalidStatus
    else if s !in db.slots then SlotNotFound
    else if !db.slots[s].isActive || IsManual(db.slots[s].status) then SlotUnavailable
    else if HomeLocation(db, db.rows[id]).None? || SlotLocation(db, db.slots[s]) != HomeLocation(db, db.rows[id]) then SlotMismatch
    else
      var others := |ActiveIn(db, s) - {id}|;
      if db.slots[s].unit != db.rows[id].unit && others > 0 then SlotFull
      else if db.rows[id].status == Called && db.rows[id].slot == Some(s) then Recall
      else if others >= db.slots[s].maxCapacity then SlotFull
      else Call
  }

  function CallKind(status: Status): EventKind {
    if status == Called then ReassignedSlotEvent else ManualCalledEvent
  }

  /** A recall records an event and touches lastUsedAt, nothing else. */
  function RecallWrites(db: Db, id: DeliveryId, s: SlotId, now: int): Db
    requires id in db.rows && s in db.slots
  {
    db.(log := db.log + [Event(id, RecalledEvent, Some(db.rows[id].status), Some(db.rows[id].status), now)],
        slots := db.slots[s := db.slots[s].(lastUsed := Some(now))])
  }

  /** `after` is an outcome of manualCallDelivery. */
  ghost predicate ManuallyCalls(db: Db, id: DeliveryId, s: SlotId, now: int, after: Db) {
    match CallVerdict(db, id, s)
    case Call => CallsInto(db, id, s, now, CallKind(db.rows[id].status), after)
    case Recall => after == RecallWrites(db, id, s, now)
    case _ => after == db
  }

  /** `activeCount` is reported for a call and for a recall. */
  method ManualCallDelivery(t: Tables, id: DeliveryId, s: SlotId, now: int) returns (outcome: CallOutcome, activeCount: nat)
    modifies t
    ensures outcome == CallVerdict(old(t.Snapshot()), id, s)
    ensures ManuallyCalls(old(t.Snapshot()), id, s, now, t.Snapshot())
    ensures outcome == Call || outcome == Recall ==> activeCount == |ActiveIn(t.Snapshot(), s)|
  {
    activeCount := 0;
    if id !in t.rows {
      return DeliveryNotFound, 0;
    }
    var row := t.rows[id];
    if row.status != Waiting && row.status != Called {
      return InvalidStatus, 0;
    }
    if s !in t.slots {
      return SlotNotFound, 0;
    }
    var slot := t.slots[s];
    if !slot.isActive || IsManual(slot.status) {
      return SlotUnavailable, 0;
    }
    var home := HomeLocation(t.Snapshot(), row);
    if home.None? || SlotLocation(t.Snapshot(), slot) != home {
      return SlotMismatch, 0;
    }
    var others := |ActiveIn(t.Snapshot(), s) - {id}|;
    if slot.unit != row.unit && others > 0 {
      return SlotFull, 0;
    }
    if row.status == Called && row.slot == Some(s) {
      activeCount := WriteRecall(t, id, s, now);
      return Recall, activeCount;
    }
    if others >= slot.maxCapacity {
      return SlotFull, 0;
    }
    WriteCall(t, id, s, now, others);
    return CallOutcome.Call, others + 1;
  }

  method WriteRecall(t: Tables, id: DeliveryId, s: SlotId, now: int) returns (activeCount: nat)
    requires id in t.rows && s in t.slots
    modifies t
    ensures t.Snapshot() == RecallWrites(old(t.Snapshot()), id, s, now)
    ensures activeCount == |ActiveIn(t.Snapshot(), s)|
  {
    var status := t.rows[id].status;
    t.log := t.log + [Event(id, RecalledEvent, Some(status), Some(status), now)];
    t.slots := t.slots[s := t.slots[s].(lastUsed := Some(now))];
    return |ActiveIn(t.Snapshot(), s)|;
  }

  method WriteCall(t: Tables, id: DeliveryId, s: SlotId, now: int, others: nat)
    requires id in t.rows && s in t.slots && others == |ActiveIn(t.Snapshot(), s) - {id}|
    modifies t
    ensures CallsInto(old(t.Snapshot()), id, s, now, CallKind(old(t.rows)[id].status), t.Snapshot())
    ensures |ActiveIn(t.Snapshot(), s)| == others + 1
  {
    ghost var db := t.Snapshot();
    var kind := CallKind(t.rows[id].status);
    Calls.Call(t, id, s, now, kind);
    CallMovesOccupancy(db, id, s, now, kind, t.Snapshot(), s);
    assert ActiveIn(t.Snapshot(), s) == (ActiveIn(db, s) - {id}) + {id};
  }

  /** A successful manual call never pushes its slot over capacity, and a call across units finds the slot to itself. */
  lemma ManualCallFits(db: Db, id: DeliveryId, s: SlotId, now: int, after: Db)
    requires ManuallyCalls(db, id, s, now, after) && CallVerdict(db, id, s) == Call
    ensures id in ActiveIn(after, s) && |ActiveIn(after, s)| <= db.slots[s].maxCapacity
    ensures db.slots[s].unit != db.rows[id].unit ==> ActiveIn(after, s) == {id}
  {
    CallMovesOccupancy(db, id, s, now, CallKind(db.rows[id].status), after, s);
    assert ActiveIn(after, s) == (ActiveIn(db, s) - {id}) + {id};
    if db.slots[s].unit != db.rows[id].unit {
      assert ActiveIn(db, s) - {id} == {};
    }
  }

  /** In the columns: the slot's config lies where the row's config does or, when that is unknown, where the config of the
      slot it holds does. */
  predicate SameLocation(db: Db, id: DeliveryId, s: SlotId)
    requires id in db.rows && s in db.slots
  {
    var row, slot := db.rows[id], db.slots[s];
    && slot.config in db.configs
    && if row.config.Some? && row.config.value in db.configs then db.configs[row.config.value] == db.configs[slot.config]
       else row.slot.Some? && row.slot.value in db.slots && db.slots[row.slot.value].config in db.configs
            && db.configs[db.slots[row.slot.value].config] == db.configs[slot.config]
  }

  /** Other deliveries that are called into the slot or received there. */
  function OthersIn(db: Db, id: DeliveryId, s: SlotId): set<DeliveryId> {
    set o | o in db.rows && o != id && db.rows[o].slot == Some(s) && db.rows[o].status in {Called, Receiving, AutoWarehouseReceiving}
  }

  lemma OthersAre(db: Db, id: DeliveryId, s: SlotId)
    ensures OthersIn(db, id, s) == ActiveIn(db, s) - {id}
  {
  }

  /** A delivery is called or recalled exactly when it waits or is called, the slot is active and not RESERVED or
      MAINTENANCE, both are of one location, a slot of another unit is empty of others, and it is in the slot already or
      there is room. */
  lemma CalledExactly(db: Db, id: DeliveryId, s: SlotId)
    ensures CallVerdict(db, id, s) == Call || CallVerdict(db, id, s) == Recall <==>
              && id in db.rows && s in db.slots
              && db.rows[id].status in {Waiting, Called}
              && db.slots[s].isActive && db.slots[s].status !in {Reserved, Maintenance}
              && SameLocation(db, id, s)
              && (db.slots[s].unit != db.rows[id].unit ==> OthersIn(db, id, s) == {})
              && ((db.rows[id].status == Called && db.rows[id].slot == Some(s)) || |OthersIn(db, id, s)| < db.slots[s].maxCapacity)
    ensures CallVerdict(db, id, s) == Recall ==> db.rows[id].status == Called && db.rows[id].slot == Some(s)
    ensures CallVerdict(db, id, s) == Call ==> !(db.rows[id].status == Called && db.rows[id].slot == Some(s))
  {
    OthersAre(db, id, s);
    hide OthersIn, ActiveIn;
  }

  /** The reason for each refusal. */
  lemma RefusedBecause(db: Db, id: DeliveryId, s: SlotId)
    ensures
      var verdict := CallVerdict(db, id, s);
      && (verdict == DeliveryNotFound <==> id !in db.rows)
      && (verdict == InvalidStatus ==> db.rows[id].status !in {Waiting, Called})
      && (verdict == SlotNotFound ==> s !in db.slots)
      && (verdict == SlotUnavailable ==> !db.slots[s].isActive || db.slots[s].status in {Reserved, Maintenance})
      && (verdict == SlotMismatch ==> !SameLocation(db, id, s))
      && (verdict == SlotFull ==>
            || (db.slots[s].unit != db.rows[id].unit && OthersIn(db, id, s) != {})
            || |OthersIn(db, id, s)| >= db.slots[s].maxCapacity)
    ensures id in db.rows ==> (CallVerdict(db, id, s) == InvalidStatus <==> db.rows[id].status !in {Waiting, Called})
    ensures id in db.rows && db.rows[id].status in {Waiting, Called} ==>
              && (CallVerdict(db, id, s) == SlotNotFound <==> s !in db.slots)
              && (s in db.slots ==>
                    (CallVerdict(db, id, s) == SlotUnavailable <==> !db.slots[s].isActive || db.slots[s].status in {Reserved, Maintenance}))
    ensures CallVerdict(db, id, s) in {SlotFull, Recall, Call} ==> SameLocation(db, id, s)
  {
    OthersAre(db, id, s);
    hide OthersIn, ActiveIn;
  }

  /** A call by hand is logged once, as a reassignment of a called delivery and as a call of a waiting one. */
  lemma CallIsLogged(db: Db, id: DeliveryId, s: SlotId, now: int, after: Db)
    requires ManuallyCalls(db, id, s, now, after) && CallVerdict(db, id, s) == Call
    ensures |after.log| == |db.log| + 1 && after.log[..|db.log|] == db.log
    ensures
      var event := after.log[|db.log|];
      && event.id == id && event.from == Some(db.rows[id].status) && event.to == Some(Called) && event.at == now
      && (event.kind == ReassignedSlotEvent <==> db.rows[id].status == Called)
      && (event.kind == ManualCalledEvent <==> db.rows[id].status == Waiting)
  {
    CallEffect(db, id, s, now, CallKind(db.rows[id].status), after);
  }
}
