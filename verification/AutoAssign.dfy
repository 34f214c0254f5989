/** The dispatcher: it calls waiting deliveries into slots until no more fit. */
module AutoAssign {
  import opened Types
  import opened Store
  import opened SlotState
  import opened GoodsOrder
  import opened Calls

  datatype Scope = Scope(config: Option<ConfigId>, location: Option<LocationId>)

  /** One round of the drain: `id` was called into `slot`. */
  datatype Pick = Pick(slot: SlotId, id: DeliveryId)

  predicate InScope(db: Db, slot: Slot, scope: Scope) {
    && (scope.config.Some? ==> slot.config == scope.config.value)
    && (scope.location.Some? ==> slot.config in db.configs && db.configs[slot.config] == scope.location.value)
  }

  /** Slots the drain may fill. */
  predicate Candidate(db: Db, unit: UnitCode, scope: Scope, s: SlotId) {
    && s in db.slots
    && Open(db.slots[s], unit)
    && InScope(db, db.slots[s], scope)
  }

  predicate Open(slot: Slot, unit: UnitCode) {
    slot.unit == unit && slot.isActive && slot.autoAssign && !IsManual(slot.status)
  }

  function Spare(db: Db, s: SlotId): int
    requires s in db.slots
  {
    db.slots[s].maxCapacity - |ActiveIn(db, s)|
  }

  predicate Matches(row: Delivery, slot: Slot) {
    && row.unit == slot.unit
    && row.config == Some(slot.config)
    && row.vehicle == slot.vehicle
    && row.goods in Allowed(slot)
  }

  function WaitingFor(db: Db, s: SlotId): set<DeliveryId>
    requires s in db.slots
  {
    set d | d in db.rows && db.rows[d].status == Waiting && Matches(db.rows[d], db.slots[s])
  }

  /** ORDER BY checkin_time ASC NULLS LAST, created_at ASC, strictly. */
  predicate Earlier(a: Delivery, b: Delivery) {
    || (a.checkin.Some? && (b.checkin.None? || a.checkin.value < b.checkin.value))
    || (a.checkin == b.checkin && a.createdAt < b.createdAt)
  }

  /** `d` may be the delivery findNextWaitingDeliveryForSlot returns; full ties are left open. */
  predicate IsNext(db: Db, s: SlotId, d: DeliveryId)
    requires s in db.slots
  {
    && d in WaitingFor(db, s)
    && forall o :: o in WaitingFor(db, s) ==> !PreferredOver(db, s, o, d)
  }

  /** Better goods rank for the slot or, within one kind of goods, earlier in the queue. */
  predicate PreferredOver(db: Db, s: SlotId, a: DeliveryId, b: DeliveryId)
    requires s in db.slots && a in WaitingFor(db, s) && b in WaitingFor(db, s)
  {
    var order := CandidateGoods(db.slots[s]);
    || Rank(order, db.rows[a].goods) < Rank(order, db.rows[b].goods)
    || (db.rows[a].goods == db.rows[b].goods && Earlier(db.rows[a], db.rows[b]))
  }

  /** assignNextDeliveryToSlot has something to do. */
  predicate Assignable(db: Db, s: SlotId, unit: UnitCode) {
    s in db.slots && Open(db.slots[s], unit) && Spare(db, s) > 0 && WaitingFor(db, s) != {}
  }

  /** The single query for one kind of goods. */
  method FirstWaiting(t: Tables, s: SlotId, goods: Goods) returns (next: Option<DeliveryId>)
    requires s in t.slots
    ensures next == None ==> forall o :: o in WaitingFor(t.Snapshot(), s) ==> t.rows[o].goods != goods
    ensures next.Some? ==>
              && next.value in WaitingFor(t.Snapshot(), s)
              && t.rows[next.value].goods == goods
              && forall o :: o in WaitingFor(t.Snapshot(), s) && t.rows[o].goods == goods ==> !Earlier(t.rows[o], t.rows[next.value])
  {
    var found := set d | d in WaitingFor(t.Snapshot(), s) && t.rows[d].goods == goods;
    next := None;
    var todo := found;
    while todo != {}
      invariant todo <= found
      invariant next == None <==> todo == found
      invariant next.Some? ==> next.value in found && forall o :: o in found - todo ==> !Earlier(t.rows[o], t.rows[next.value])
      decreases |todo|
    {
      var d :| d in todo;
      if next == None || Earlier(t.rows[d], t.rows[next.value]) {
        next := Some(d);
      }
      todo := todo - {d};
    }
    forall o | o in WaitingFor(t.Snapshot(), s) && t.rows[o].goods == goods ensures o in found {}
  }

  method FindNextWaitingDeliveryForSlot(t: Tables, s: SlotId) returns (next: Option<DeliveryId>)
    requires s in t.slots
    ensures next == None ==> WaitingFor(t.Snapshot(), s) == {}
    ensures next.Some? ==> IsNext(t.Snapshot(), s, next.value)
  {
    var order := CandidateGoods(t.slots[s]);
    CandidateGoodsArrangeAllowed(t.slots[s]);
    for i := 0 to |order|
      invariant forall o, j :: o in WaitingFor(t.Snapshot(), s) && 0 <= j < i ==> t.rows[o].goods != order[j]
    {
      next := FirstWaiting(t, s, order[i]);
      if next.Some? {
        assert Rank(order, t.rows[next.value].goods) == i;
        return next;
      }
    }
    return None;
  }

  method AssignNextDeliveryToSlot(t: Tables, s: SlotId, unit: UnitCode, now: int) returns (called: Option<DeliveryId>)
    modifies t
    ensures called == None ==> t.Snapshot() == old(t.Snapshot()) && !Assignable(t.Snapshot(), s, unit)
    ensures called.Some? ==>
              && Assignable(old(t.Snapshot()), s, unit)
              && IsNext(old(t.Snapshot()), s, called.value)
              && CallsInto(old(t.Snapshot()), called.value, s, now, AutoAssignedEvent, t.Snapshot())
  {
    if s !in t.slots || !Open(t.slots[s], unit) {
      return None;
    }
    var active := ActiveIn(t.Snapshot(), s);
    if |active| >= t.slots[s].maxCapacity {
      return None;
    }
    called := FindNextWaitingDeliveryForSlot(t, s);
    if called.Some? {
      Call(t, called.value, s, now, AutoAssignedEvent);
    }
  }

  /** More remaining capacity first, then slot code. */
  predicate RanksBefore(db: Db, a: SlotId, b: SlotId)
    requires a in db.slots && b in db.slots
  {
    Spare(db, a) > Spare(db, b) || (Spare(db, a) == Spare(db, b) && db.slots[a].code < db.slots[b].code)
  }

  function OpenSlots(db: Db, unit: UnitCode, scope: Scope): set<SlotId> {
    set s | s in db.slots && Candidate(db, unit, scope, s) && Spare(db, s) > 0
  }

  predicate Ranked(db: Db, order: seq<SlotId>) {
    && (forall i :: 0 <= i < |order| ==> order[i] in db.slots)
    && (forall i, j :: 0 <= i < j < |order| ==> !RanksBefore(db, order[j], order[i]))
  }

  /** The slots with spare capacity, sorted for one round. */
  method RankSlots(t: Tables, unit: UnitCode, scope: Scope) returns (order: seq<SlotId>)
    ensures Ranked(t.Snapshot(), order)
    ensures ListsOpenSlots(t.Snapshot(), unit, scope, order)
  {
    var db := t.Snapshot();
    var todo := OpenSlots(db, unit, scope);
    order := [];
    while todo != {}
      invariant todo <= OpenSlots(db, unit, scope)
      invariant Ranked(db, order)
      invariant forall s :: s in order <==> s in OpenSlots(db, unit, scope) - todo
      decreases |todo|
    {
      var s :| s in todo;
      order := InsertRanked(db, order, s);
      todo := todo - {s};
    }
  }

  method InsertRanked(db: Db, order: seq<SlotId>, s: SlotId) returns (longer: seq<SlotId>)
    requires Ranked(db, order) && s in db.slots
    ensures Ranked(db, longer)
    ensures forall o :: o in longer <==> o in order || o == s
  {
    var i := 0;
    while i < |order| && !RanksBefore(db, s, order[i])
      invariant 0 <= i <= |order|
      invariant forall j :: 0 <= j < i ==> !RanksBefore(db, s, order[j])
    {
      i := i + 1;
    }
    longer := order[..i] + [s] + order[i..];
    forall o ensures o in longer <==> o in order || o == s {
      assert order == order[..i] + order[i..];
    }
  }

  /** The state after a round that called `pick`. */
  ghost predicate Round(db: Db, unit: UnitCode, scope: Scope, pick: Pick, after: Db) {
    && Candidate(db, unit, scope, pick.slot)
    && Spare(db, pick.slot) > 0
    && IsNext(db, pick.slot, pick.id)
    && (forall s :: s in OpenSlots(db, unit, scope) && WaitingFor(db, s) != {} ==> !RanksBefore(db, s, pick.slot))
    && exists now :: CallsInto(db, pick.id, pick.slot, now, AutoAssignedEvent, after)
  }

  /** `trace` lists the states before, between and after the rounds `picks`. */
  ghost predicate IsDrain(trace: seq<Db>, picks: seq<Pick>, unit: UnitCode, scope: Scope) {
    && |trace| == |picks| + 1
    && forall i :: 0 <= i < |picks| ==> Round(trace[i], unit, scope, picks[i], trace[i + 1])
  }

  /** No slot the drain may fill has both spare capacity and a matching waiting delivery. */
  ghost predicate Stable(db: Db, unit: UnitCode, scope: Scope) {
    forall s :: s in OpenSlots(db, unit, scope) ==> WaitingFor(db, s) == {}
  }

  function WaitingRows(db: Db): set<DeliveryId> {
    set d | d in db.rows && db.rows[d].status == Waiting
  }

  lemma CallConsumesWaiting(db: Db, d: DeliveryId, s: SlotId, now: int, after: Db)
    requires CallsInto(db, d, s, now, AutoAssignedEvent, after) && db.rows[d].status == Waiting
    ensures WaitingRows(after) == WaitingRows(db) - {d} && d in WaitingRows(db)
  {
    CallEffect(db, d, s, now, AutoAssignedEvent, after);
  }

  lemma RoundConsumesWaiting(db: Db, unit: UnitCode, scope: Scope, pick: Pick, after: Db)
    requires Round(db, unit, scope, pick, after)
    ensures |WaitingRows(after)| == |WaitingRows(db)| - 1
  {
    var now :| CallsInto(db, pick.id, pick.slot, now, AutoAssignedEvent, after);
    CallConsumesWaiting(db, pick.id, pick.slot, now, after);
  }

  lemma ExtendDrain(trace: seq<Db>, picks: seq<Pick>, unit: UnitCode, scope: Scope, pick: Pick, after: Db)
    requires IsDrain(trace, picks, unit, scope) && Round(trace[|trace| - 1], unit, scope, pick, after)
    ensures IsDrain(trace + [after], picks + [pick], unit, scope)
  {
    var longer, more := trace + [after], picks + [pick];
    forall i | 0 <= i < |more| ensures Round(longer[i], unit, scope, more[i], longer[i + 1]) {
      if i < |picks| {
        assert longer[i] == trace[i] && more[i] == picks[i] && longer[i + 1] == trace[i + 1];
      }
    }
  }

  /** One pass over the ranked slots: assigns at most one delivery. */
  method RunRound(t: Tables, unit: UnitCode, scope: Scope, now: int) returns (slots: nat, pick: Option<Pick>)
    modifies t
    ensures slots == 0 ==> pick == None
    ensures pick == None ==> t.Snapshot() == old(t.Snapshot()) && Stable(t.Snapshot(), unit, scope)
    ensures pick.Some? ==> Round(old(t.Snapshot()), unit, scope, pick.value, t.Snapshot())
  {
    ghost var db := t.Snapshot();
    var order := RankSlots(t, unit, scope);
    slots, pick := |order|, None;
    for i := 0 to |order|
      invariant t.Snapshot() == db
      invariant NoneWaiting(db, order, i)
    {
      var called := AssignNextDeliveryToSlot(t, order[i], unit, now);
      if called.Some? {
        pick := Some(Pick(order[i], called.value));
        FirstServedRanksFirst(db, unit, scope, order, i);
        return;
      }
      SkippedHasNoneWaiting(db, unit, scope, order, i);
    }
    AllSkippedIsStable(db, unit, scope, order);
  }

  ghost predicate NoneWaiting(db: Db, order: seq<SlotId>, upto: nat) {
    forall j :: 0 <= j < upto <= |order| ==> order[j] in db.slots && WaitingFor(db, order[j]) == {}
  }

  ghost predicate ListsOpenSlots(db: Db, unit: UnitCode, scope: Scope, order: seq<SlotId>) {
    forall s :: s in order <==> s in OpenSlots(db, unit, scope)
  }

  lemma SkippedHasNoneWaiting(db: Db, unit: UnitCode, scope: Scope, order: seq<SlotId>, i: nat)
    requires i < |order| && ListsOpenSlots(db, unit, scope, order) && NoneWaiting(db, order, i)
    requires !Assignable(db, order[i], unit)
    ensures NoneWaiting(db, order, i + 1)
  {
    assert order[i] in OpenSlots(db, unit, scope);
  }

  lemma FirstServedRanksFirst(db: Db, unit: UnitCode, scope: Scope, order: seq<SlotId>, i: nat)
    requires i < |order| && Ranked(db, order) && ListsOpenSlots(db, unit, scope, order) && NoneWaiting(db, order, i)
    ensures order[i] in OpenSlots(db, unit, scope)
    ensures forall s :: s in OpenSlots(db, unit, scope) && WaitingFor(db, s) != {} ==> !RanksBefore(db, s, order[i])
  {
    assert order[i] in order;
    forall s | s in OpenSlots(db, unit, scope) && WaitingFor(db, s) != {} ensures !RanksBefore(db, s, order[i]) {
      assert s in order;
      var j :| 0 <= j < |order| && order[j] == s;
      assert i <= j;
    }
  }

  lemma AllSkippedIsStable(db: Db, unit: UnitCode, scope: Scope, order: seq<SlotId>)
    requires ListsOpenSlots(db, unit, scope, order) && NoneWaiting(db, order, |order|)
    ensures Stable(db, unit, scope)
  {
    forall s | s in OpenSlots(db, unit, scope) ensures WaitingFor(db, s) == {} {
      assert s in order;
    }
  }

  /** Rounds until a round calls nobody.  `clock` gives the reading used in each round. */
  method TriggerAutoAssign(t: Tables, unit: UnitCode, scope: Scope, clock: nat -> int)
    returns (called: nat, ghost trace: seq<Db>, ghost picks: seq<Pick>)
    modifies t
    ensures IsDrain(trace, picks, unit, scope)
    ensures trace[0] == old(t.Snapshot()) && trace[|picks|] == t.Snapshot()
    ensures called == |picks|
    ensures Stable(t.Snapshot(), unit, scope)
  {
    called, trace, picks := 0, [t.Snapshot()], [];
    while true
      invariant IsDrain(trace, picks, unit, scope)
      invariant trace[0] == old(t.Snapshot()) && trace[|picks|] == t.Snapshot()
      invariant called == |picks|
      decreases |WaitingRows(t.Snapshot())|
    {
      ghost var before := t.Snapshot();
      var slots, pick := RunRound(t, unit, scope, clock(called));
      if slots == 0 || pick == None {
        return;
      }
      RoundConsumesWaiting(before, unit, scope, pick.value, t.Snapshot());
      ExtendDrain(trace, picks, unit, scope, pick.value, t.Snapshot());
      called, trace, picks := called + 1, trace + [t.Snapshot()], picks + [pick.value];
    }
  }
}
