/** What a whole drain achieves, for every start state and every choice among tied rows. */
module Drain {
  import opened Types
  import opened GoodsOrder
  import opened SlotState
  import opened Calls
  import opened AutoAssign

  /** Deliveries called in the first `n` rounds. */
  function Picked(picks: seq<Pick>, n: nat): set<DeliveryId>
    requires n <= |picks|
  {
    if n == 0 then {} else Picked(picks, n - 1) + {picks[n - 1].id}
  }

  /** Those called into slot `s`. */
  function PickedInto(picks: seq<Pick>, n: nat, s: SlotId): set<DeliveryId>
    requires n <= |picks|
  {
    if n == 0 then {}
    else PickedInto(picks, n - 1, s) + (if picks[n - 1].slot == s then {picks[n - 1].id} else {})
  }

  /** The fields the dispatcher matches and orders by. */
  predicate SameRequest(a: Delivery, b: Delivery) {
    a.unit == b.unit && a.config == b.config && a.vehicle == b.vehicle && a.goods == b.goods
    && a.checkin == b.checkin && a.createdAt == b.createdAt
  }

  /** A slot's configuration, and whether it is in a manual status. */
  predicate SameSlot(a: Slot, b: Slot) {
    && b == a.(status := b.status, current := b.current, lastUsed := b.lastUsed)
    && (IsManual(a.status) <==> IsManual(b.status))
  }

  ghost predicate RowsProgress(first: Db, picked: set<DeliveryId>, now: Db) {
    && now.rows.Keys == first.rows.Keys
    && picked <= WaitingRows(first)
    && (forall d :: d in first.rows && d !in picked ==> now.rows[d] == first.rows[d])
    && (forall d :: d in picked ==> now.rows[d].status == Called && SameRequest(first.rows[d], now.rows[d]))
  }

  ghost predicate SlotsProgress(first: Db, now: Db) {
    && now.slots.Keys == first.slots.Keys
    && now.configs == first.configs
    && forall s :: s in first.slots ==> SameSlot(first.slots[s], now.slots[s])
  }

  /** What a round does to the row it calls. */
  ghost predicate RowCalled(before: Db, pick: Pick, after: Db) {
    && pick.id in WaitingRows(before)
    && exists at :: after.rows == before.rows[pick.id := CalledRow(before.rows[pick.id], pick.slot, at)]
  }

  lemma RoundEffect(before: Db, unit: UnitCode, scope: Scope, pick: Pick, after: Db)
    requires Round(before, unit, scope, pick, after)
    ensures RowCalled(before, pick, after) && SlotsProgress(before, after)
  {
    var at :| CallsInto(before, pick.id, pick.slot, at, AutoAssignedEvent, after);
    CallEffect(before, pick.id, pick.slot, at, AutoAssignedEvent, after);
    forall s | s in before.slots ensures s in after.slots && SameSlot(before.slots[s], after.slots[s]) {
      CallKeepsSlotConfiguration(before, pick.id, pick.slot, at, AutoAssignedEvent, after, s);
    }
  }

  lemma DrainRound(trace: seq<Db>, picks: seq<Pick>, unit: UnitCode, scope: Scope, n: nat)
    requires IsDrain(trace, picks, unit, scope) && n < |picks|
    ensures RowCalled(trace[n], picks[n], trace[n + 1]) && SlotsProgress(trace[n], trace[n + 1])
  {
    RoundEffect(trace[n], unit, scope, picks[n], trace[n + 1]);
  }

  ghost predicate DrainEffect(trace: seq<Db>, picks: seq<Pick>) {
    && |trace| == |picks| + 1
    && forall i :: 0 <= i < |picks| ==> RowCalled(trace[i], picks[i], trace[i + 1]) && SlotsProgress(trace[i], trace[i + 1])
  }

  lemma DrainHasEffect(trace: seq<Db>, picks: seq<Pick>, unit: UnitCode, scope: Scope)
    requires IsDrain(trace, picks, unit, scope)
    ensures DrainEffect(trace, picks)
  {
    forall i | 0 <= i < |picks| ensures RowCalled(trace[i], picks[i], trace[i + 1]) && SlotsProgress(trace[i], trace[i + 1]) {
      DrainRound(trace, picks, unit, scope, i);
    }
  }

  lemma {:induction false} EffectOnRows(trace: seq<Db>, picks: seq<Pick>, n: nat)
    requires DrainEffect(trace, picks) && n <= |picks|
    ensures RowsProgress(trace[0], Picked(picks, n), trace[n])
    ensures |Picked(picks, n)| == n
  {
    if n > 0 {
      EffectOnRows(trace, picks, n - 1);
      RoundRows(trace[0], Picked(picks, n - 1), trace[n - 1], picks[n - 1], trace[n]);
    }
  }

  lemma RoundRows(first: Db, picked: set<DeliveryId>, before: Db, pick: Pick, after: Db)
    requires RowsProgress(first, picked, before) && RowCalled(before, pick, after)
    ensures pick.id !in picked && RowsProgress(first, picked + {pick.id}, after)
  {
  }

  lemma {:induction false} EffectOnSlots(trace: seq<Db>, picks: seq<Pick>, n: nat)
    requires DrainEffect(trace, picks) && n <= |picks|
    ensures SlotsProgress(trace[0], trace[n])
  {
    if n > 0 {
      EffectOnSlots(trace, picks, n - 1);
    }
  }

  /** Occupants of a slot: those it had, and those the drain called into it. */
  lemma {:induction false} EffectOnOccupants(trace: seq<Db>, picks: seq<Pick>, n: nat, s: SlotId)
    requires DrainEffect(trace, picks) && n <= |picks|
    ensures ActiveIn(trace[n], s) == ActiveIn(trace[0], s) + PickedInto(picks, n, s)
    ensures PickedInto(picks, n, s) <= Picked(picks, n)
  {
    if n > 0 {
      EffectOnOccupants(trace, picks, n - 1, s);
      RoundOccupants(trace[n - 1], picks[n - 1], trace[n], s);
    }
  }

  lemma RoundOccupants(before: Db, pick: Pick, after: Db, s: SlotId)
    requires RowCalled(before, pick, after)
    ensures ActiveIn(after, s) == ActiveIn(before, s) + (if pick.slot == s then {pick.id} else {})
  {
  }

  /** Rows, slots and occupants after `n` rounds, as changes to the first state. */
  lemma DrainProgress(trace: seq<Db>, picks: seq<Pick>, unit: UnitCode, scope: Scope, n: nat)
    requires IsDrain(trace, picks, unit, scope) && n <= |picks|
    ensures RowsProgress(trace[0], Picked(picks, n), trace[n]) && |Picked(picks, n)| == n
    ensures SlotsProgress(trace[0], trace[n])
  {
    DrainHasEffect(trace, picks, unit, scope);
    EffectOnRows(trace, picks, n);
    EffectOnSlots(trace, picks, n);
  }

  lemma DrainOccupancy(trace: seq<Db>, picks: seq<Pick>, unit: UnitCode, scope: Scope, n: nat, s: SlotId)
    requires IsDrain(trace, picks, unit, scope) && n <= |picks|
    ensures |ActiveIn(trace[n], s)| == |ActiveIn(trace[0], s)| + |PickedInto(picks, n, s)|
    ensures PickedInto(picks, n, s) <= Picked(picks, n)
  {
    DrainHasEffect(trace, picks, unit, scope);
    EffectOnRows(trace, picks, n);
    EffectOnOccupants(trace, picks, n, s);
    assert ActiveIn(trace[0], s) !! PickedInto(picks, n, s) by {
      assert PickedInto(picks, n, s) <= WaitingRows(trace[0]);
    }
  }

  lemma SameSlotMatches(row: Delivery, other: Delivery, a: Slot, b: Slot)
    requires SameRequest(row, other) && SameSlot(a, b)
    ensures Matches(row, a) <==> Matches(other, b)
    ensures CandidateGoods(a) == CandidateGoods(b)
  {
  }

  /** During a drain a slot's matching queue only loses the deliveries already called. */
  lemma DrainQueue(trace: seq<Db>, picks: seq<Pick>, unit: UnitCode, scope: Scope, n: nat, s: SlotId)
    requires IsDrain(trace, picks, unit, scope) && n <= |picks| && s in trace[0].slots
    ensures s in trace[n].slots && SameSlot(trace[0].slots[s], trace[n].slots[s])
    ensures WaitingFor(trace[n], s) == WaitingFor(trace[0], s) - Picked(picks, n)
    ensures Candidate(trace[n], unit, scope, s) <==> Candidate(trace[0], unit, scope, s)
  {
    DrainProgress(trace, picks, unit, scope, n);
    var first, now := trace[0], trace[n];
    forall d | d in first.rows ensures d in WaitingFor(now, s) <==> d in WaitingFor(first, s) && d !in Picked(picks, n) {
      if d !in Picked(picks, n) {
        SameSlotMatches(first.rows[d], now.rows[d], first.slots[s], now.slots[s]);
      }
    }
  }

  /** Moves from WAITING to CALLED between two states. */
  function Moves(first: Db, last: Db): set<DeliveryId> {
    set d | d in first.rows && d in last.rows && first.rows[d].status == Waiting && last.rows[d].status == Called
  }

  /** A drain of `|picks|` rounds makes exactly that many WAITING to CALLED moves and changes no other row. */
  lemma DrainCountsMoves(trace: seq<Db>, picks: seq<Pick>, unit: UnitCode, scope: Scope)
    requires IsDrain(trace, picks, unit, scope)
    ensures |Moves(trace[0], trace[|picks|])| == |picks|
    ensures trace[|picks|].rows.Keys == trace[0].rows.Keys
    ensures forall d :: d in trace[0].rows && d !in Moves(trace[0], trace[|picks|]) ==> trace[|picks|].rows[d] == trace[0].rows[d]
  {
    DrainProgress(trace, picks, unit, scope, |picks|);
    assert Moves(trace[0], trace[|picks|]) == Picked(picks, |picks|);
  }

  /** From a stable state every drain stops at once, so the startup loop ends after one more call. */
  lemma StableDrainIsIdle(trace: seq<Db>, picks: seq<Pick>, unit: UnitCode, scope: Scope)
    requires IsDrain(trace, picks, unit, scope) && Stable(trace[0], unit, scope)
    ensures picks == []
  {
    if |picks| > 0 {
      IdleRound(trace[0], unit, scope, picks[0], trace[1]);
    }
  }

  lemma IdleRound(db: Db, unit: UnitCode, scope: Scope, pick: Pick, after: Db)
    requires Stable(db, unit, scope)
    ensures !Round(db, unit, scope, pick, after)
  {
  }

  /** No overtaking: of two waiting deliveries with the same unit, unit config, vehicle and goods, the one that checked in
      later (or not at all, or at the same time but was created later) is only called after the other was. */
  lemma NoOvertaking(
    trace: seq<Db>, picks: seq<Pick>, unit: UnitCode, scope: Scope, a: DeliveryId, b: DeliveryId, n: nat)
    requires IsDrain(trace, picks, unit, scope) && n < |picks| && picks[n].id == b
    requires a in WaitingRows(trace[0]) && b in trace[0].rows
    requires
      var x, y := trace[0].rows[a], trace[0].rows[b];
      && x.unit == y.unit && x.config == y.config && x.vehicle == y.vehicle && x.goods == y.goods
      && (|| (x.checkin.Some? && y.checkin.Some? && x.checkin.value < y.checkin.value)
          || (x.checkin.Some? && y.checkin.None?)
          || (x.checkin == y.checkin && x.createdAt < y.createdAt))
    ensures exists i :: 0 <= i < n && picks[i].id == a
  {
    var db := trace[n];
    assert Round(db, unit, scope, picks[n], trace[n + 1]);
    var s := picks[n].slot;
    DrainProgress(trace, picks, unit, scope, n);
    if a !in Picked(picks, n) {
      assert b in WaitingFor(db, s);
      assert db.rows[b] == trace[0].rows[b] by { assert b !in Picked(picks, n); }
      assert a in WaitingFor(db, s);
      assert PreferredOver(db, s, a, b);
    }
    PickedHasRound(picks, n, a);
  }

  lemma {:induction false} PickedHasRound(picks: seq<Pick>, n: nat, d: DeliveryId)
    requires n <= |picks| && d in Picked(picks, n)
    ensures exists i :: 0 <= i < n && picks[i].id == d
  {
    if picks[n - 1].id != d {
      PickedHasRound(picks, n - 1, d);
    }
  }

  /** Every round takes the best goods rank its slot has waiting. */
  lemma BestGoodsRank(trace: seq<Db>, picks: seq<Pick>, unit: UnitCode, scope: Scope, n: nat, o: DeliveryId)
    requires IsDrain(trace, picks, unit, scope) && n < |picks| && picks[n].slot in trace[0].slots
    requires o in WaitingFor(trace[0], picks[n].slot) - Picked(picks, n)
    ensures
      var order := CandidateGoods(trace[0].slots[picks[n].slot]);
      && picks[n].id in WaitingFor(trace[0], picks[n].slot)
      && Rank(order, trace[0].rows[picks[n].id].goods) <= Rank(order, trace[0].rows[o].goods)
  {
    var db, s, d := trace[n], picks[n].slot, picks[n].id;
    assert Round(db, unit, scope, picks[n], trace[n + 1]);
    DrainQueue(trace, picks, unit, scope, n, s);
    DrainProgress(trace, picks, unit, scope, n);
    assert !PreferredOver(db, s, o, d);
    SameSlotMatches(db.rows[d], db.rows[d], trace[0].slots[s], db.slots[s]);
  }

  /** Every pick is a waiting delivery that its slot takes, into an automatic slot of the drain with room left. */
  lemma PickFitsItsSlot(trace: seq<Db>, picks: seq<Pick>, unit: UnitCode, scope: Scope, n: nat)
    requires IsDrain(trace, picks, unit, scope) && n < |picks|
    ensures picks[n].id in trace[0].rows && picks[n].slot in trace[0].slots
    ensures
      var row, slot := trace[0].rows[picks[n].id], trace[0].slots[picks[n].slot];
      && row.status == Waiting && row.unit == slot.unit && row.config == Some(slot.config) && row.vehicle == slot.vehicle
      && (slot.acceptedGoods == [] || row.goods in slot.acceptedGoods)
    ensures
      var slot := trace[0].slots[picks[n].slot];
      && slot.unit == unit && slot.isActive && slot.autoAssign && slot.status != Maintenance && slot.status != Reserved
      && (scope.config.Some? ==> slot.config == scope.config.value)
      && (scope.location.Some? ==> slot.config in trace[0].configs && trace[0].configs[slot.config] == scope.location.value)
      && |set o | o in trace[n].rows && trace[n].rows[o].slot == Some(picks[n].slot)
                  && trace[n].rows[o].status in {Called, Receiving, AutoWarehouseReceiving}| < slot.maxCapacity
  {
    var db, s, d := trace[n], picks[n].slot, picks[n].id;
    assert Round(db, unit, scope, picks[n], trace[n + 1]);
    DrainProgress(trace, picks, unit, scope, n);
    DrainQueue(trace, picks, unit, scope, n, s);
    OccupantsOf(db, s);
  }

  lemma OccupantsOf(db: Db, s: SlotId)
    ensures ActiveIn(db, s)
            == set o | o in db.rows && db.rows[o].slot == Some(s) && db.rows[o].status in {Called, Receiving, AutoWarehouseReceiving}
  {
  }

  /** In the columns: an automatic slot of the drain has room and would take a waiting delivery. */
  predicate WouldTake(db: Db, unit: UnitCode, scope: Scope, s: SlotId, d: DeliveryId) {
    s in db.slots && d in db.rows &&
      var row, slot := db.rows[d], db.slots[s];
      && slot.unit == unit && slot.isActive && slot.autoAssign && slot.status != Maintenance && slot.status != Reserved
      && (scope.config.Some? ==> slot.config == scope.config.value)
      && (scope.location.Some? ==> slot.config in db.configs && db.configs[slot.config] == scope.location.value)
      && |set o | o in db.rows && db.rows[o].slot == Some(s)
                  && db.rows[o].status in {Called, Receiving, AutoWarehouseReceiving}| < slot.maxCapacity
      && row.status == Waiting && row.unit == unit && row.config == Some(slot.config) && row.vehicle == slot.vehicle
      && (slot.acceptedGoods == [] || row.goods in slot.acceptedGoods)
  }

  lemma WouldTakeExactly(db: Db, unit: UnitCode, scope: Scope, s: SlotId, d: DeliveryId)
    ensures WouldTake(db, unit, scope, s, d) <==> s in db.slots && s in OpenSlots(db, unit, scope) && d in WaitingFor(db, s)
  {
    OccupantsOf(db, s);
    hide ActiveIn;
    if s in db.slots && d in db.rows {
      EveryGoodsIsDefault(db.rows[d].goods);
    }
  }

  lemma EveryGoodsIsDefault(g: Goods)
    ensures g in DEFAULT_GOODS_PRIORITY
  {
    match g {
      case FreshFood => assert DEFAULT_GOODS_PRIORITY[0] == g;
      case GeneralGoods => assert DEFAULT_GOODS_PRIORITY[1] == g;
      case ThiCong => assert DEFAULT_GOODS_PRIORITY[2] == g;
      case AutoWarehouse => assert DEFAULT_GOODS_PRIORITY[3] == g;
    }
  }

  /** What stable means: no waiting delivery is left that an automatic slot of the drain with room would take. */
  lemma StableLeavesNobody(db: Db, unit: UnitCode, scope: Scope)
    ensures Stable(db, unit, scope) <==> forall s: SlotId, d: DeliveryId :: !WouldTake(db, unit, scope, s, d)
  {
    hide WouldTake, OpenSlots, WaitingFor;
    forall s: SlotId ensures s in OpenSlots(db, unit, scope) ==> s in db.slots {
      OpenIsSlot(db, unit, scope, s);
    }
    forall s: SlotId, d: DeliveryId
      ensures WouldTake(db, unit, scope, s, d) <==> s in db.slots && s in OpenSlots(db, unit, scope) && d in WaitingFor(db, s)
    {
      WouldTakeExactly(db, unit, scope, s, d);
    }
    if !Stable(db, unit, scope) {
      var s :| s in db.slots && s in OpenSlots(db, unit, scope) && WaitingFor(db, s) != {};
      var d :| d in WaitingFor(db, s);
      assert WouldTake(db, unit, scope, s, d);
    }
  }

  /** The delivery a slot is given, in the columns: of those it would take, none has goods the slot prefers, and none of
      its own goods checked in earlier, or without a check-in time while it has one, or with the same and was created
      earlier. */
  lemma NextIsFirstInLine(db: Db, unit: UnitCode, scope: Scope, s: SlotId, d: DeliveryId)
    requires s in db.slots && s in OpenSlots(db, unit, scope)
    ensures IsNext(db, s, d) <==>
              && WouldTake(db, unit, scope, s, d)
              && forall o: DeliveryId :: WouldTake(db, unit, scope, s, o) ==>
                   var x, y, order := db.rows[d], db.rows[o], CandidateGoods(db.slots[s]);
                   && x.goods in order && y.goods in order && Rank(order, x.goods) <= Rank(order, y.goods)
                   && (x.goods == y.goods ==>
                         if x.checkin == y.checkin then x.createdAt <= y.createdAt
                         else x.checkin.Some? && (y.checkin.None? || x.checkin.value < y.checkin.value))
  {
    hide WouldTake, OpenSlots;
    forall o: DeliveryId ensures WouldTake(db, unit, scope, s, o) <==> o in WaitingFor(db, s) {
      WouldTakeExactly(db, unit, scope, s, o);
    }
    hide CandidateGoods;
  }

  /** When a slot is given a delivery at all, in the columns: exactly when it would take one that waits. */
  lemma AssignableExactly(db: Db, unit: UnitCode, s: SlotId)
    ensures Assignable(db, s, unit) <==> exists d :: WouldTake(db, unit, Scope(None, None), s, d)
  {
    hide WouldTake, WaitingFor, Spare;
    forall d: DeliveryId
      ensures WouldTake(db, unit, Scope(None, None), s, d)
              <==> s in db.slots && s in OpenSlots(db, unit, Scope(None, None)) && d in WaitingFor(db, s)
    {
      WouldTakeExactly(db, unit, Scope(None, None), s, d);
    }
    if Assignable(db, s, unit) {
      var d :| d in WaitingFor(db, s);
      assert WouldTake(db, unit, Scope(None, None), s, d);
    }
  }

  lemma OpenIsSlot(db: Db, unit: UnitCode, scope: Scope, s: SlotId)
    ensures s in OpenSlots(db, unit, scope) ==> s in db.slots
  {
  }

  /** A round goes to the slot with most room of those that would take somebody, among equals to the first by code. */
  lemma RoomiestSlotFirst(trace: seq<Db>, picks: seq<Pick>, unit: UnitCode, scope: Scope, n: nat, s: SlotId, d: DeliveryId)
    requires IsDrain(trace, picks, unit, scope) && n < |picks| && WouldTake(trace[n], unit, scope, s, d)
    ensures WouldTake(trace[n], unit, scope, picks[n].slot, picks[n].id)
    ensures
      var db, first := trace[n], picks[n].slot;
      var room, other := db.slots[first].maxCapacity - |ActiveIn(db, first)|, db.slots[s].maxCapacity - |ActiveIn(db, s)|;
      room > other || (room == other && db.slots[first].code <= db.slots[s].code)
  {
    assert Round(trace[n], unit, scope, picks[n], trace[n + 1]);
    WouldTakeExactly(trace[n], unit, scope, s, d);
    WouldTakeExactly(trace[n], unit, scope, picks[n].slot, picks[n].id);
    hide WouldTake;
  }
}
