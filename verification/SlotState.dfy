/** Slot status as a function of the deliveries that occupy the slot. */
module SlotState {
  import opened Types
  import opened Store

  datatype SlotSnapshot = SlotSnapshot(slot: Slot, activeCount: nat, activeDelivery: Option<DeliveryId>, manualStatus: bool)

  /** ORDER BY called_time DESC: the database puts nulls first. */
  predicate CalledFirst(a: Option<int>, b: Option<int>) {
    match (a, b)
    case (None, Some(_)) => true
    case (Some(x), Some(y)) => x > y
    case (_, None) => false
  }

  /** `a` sorts strictly before `b` by updated_at, called_time, created_at, all descending. */
  predicate Precedes(a: Delivery, b: Delivery) {
    || a.updatedAt > b.updatedAt
    || (a.updatedAt == b.updatedAt
        && (CalledFirst(a.called, b.called) || (a.called == b.called && a.createdAt > b.createdAt)))
  }

  /** `cur` is an answer the active-delivery query of slot `s` may put first; ties are left open. */
  ghost predicate IsFirstActive(db: Db, s: SlotId, cur: Option<DeliveryId>) {
    match cur
    case None => ActiveIn(db, s) == {}
    case Some(d) => d in ActiveIn(db, s) && forall o :: o in ActiveIn(db, s) ==> !Precedes(db.rows[o], db.rows[d])
  }

  /** The slot row reconcileSlotState writes once the query has answered `cur`. */
  function Reconciled(db: Db, s: SlotId, preserve: bool, cur: Option<DeliveryId>): Slot
    requires s in db.slots
  {
    var slot := db.slots[s];
    if IsManual(slot.status) && preserve then slot.(current := cur)
    else slot.(status := if |ActiveIn(db, s)| >= slot.maxCapacity then Occupied else Available, current := cur)
  }

  /** `after` is `db` with slot `s` reconciled to the answer `cur`. */
  ghost predicate ReconcilesTo(db: Db, s: SlotId, preserve: bool, cur: Option<DeliveryId>, after: Db)
    requires s in db.slots
  {
    && IsFirstActive(db, s, cur)
    && after == db.(slots := after.slots)
    && after.slots == db.slots[s := Reconciled(db, s, preserve, cur)]
  }

  /** `after` is an outcome of reconcileSlotState(s) in `db`. */
  ghost predicate Reconciles(db: Db, s: SlotId, preserve: bool, after: Db) {
    if s in db.slots then exists cur :: ReconcilesTo(db, s, preserve, cur, after) else after == db
  }

  /** The slot agrees with the deliveries that occupy it. */
  ghost predicate Coherent(db: Db, s: SlotId) {
    s in db.slots ==>
      var slot := db.slots[s];
      && (IsManual(slot.status) || slot.status == (if |ActiveIn(db, s)| >= slot.maxCapacity then Occupied else Available))
      && (slot.current == None <==> ActiveIn(db, s) == {})
      && (slot.current.Some? ==> slot.current.value in ActiveIn(db, s))
  }

  /** getActiveSlotSnapshot: one pass over the active rows, keeping the first in query order. */
  method FirstActive(t: Tables, s: SlotId) returns (count: nat, cur: Option<DeliveryId>)
    ensures count == |ActiveIn(t.Snapshot(), s)|
    ensures IsFirstActive(t.Snapshot(), s, cur)
  {
    ghost var db := t.Snapshot();
    var active := set d | d in t.rows && t.rows[d].slot == Some(s) && IsActive(t.rows[d].status);
    assert active == ActiveIn(db, s);
    count, cur := |active|, None;
    var todo := active;
    while todo != {}
      invariant todo <= active
      invariant cur == None <==> todo == active
      invariant cur.Some? ==> cur.value in active && forall o :: o in active - todo ==> !Precedes(db.rows[o], db.rows[cur.value])
      decreases |todo|
    {
      var d :| d in todo;
      if cur == None || Precedes(t.rows[d], t.rows[cur.value]) {
        cur := Some(d);
      }
      todo := todo - {d};
    }
  }

  /** The snapshot of slot `s` that goes from `db` to `after`. */
  ghost predicate IsSnapshot(db: Db, s: SlotId, after: Db, snapshot: SlotSnapshot) {
    && s in db.slots && s in after.slots
    && snapshot == SlotSnapshot(after.slots[s], |ActiveIn(db, s)|, after.slots[s].current, IsManual(db.slots[s].status))
  }

  method ReconcileSlotState(t: Tables, s: SlotId, preserve: bool) returns (snapshot: Option<SlotSnapshot>)
    modifies t
    ensures Reconciles(old(t.Snapshot()), s, preserve, t.Snapshot())
    ensures t.slots.Keys == old(t.slots.Keys) && (snapshot.Some? <==> s in t.slots)
    ensures snapshot.Some? ==>
              && snapshot.value.slot == t.slots[s]
              && snapshot.value.activeCount == |ActiveIn(t.Snapshot(), s)|
              && snapshot.value.activeDelivery == t.slots[s].current
              && snapshot.value.manualStatus == IsManual(old(t.slots[s].status))
    ensures snapshot.Some? ==> IsSnapshot(old(t.Snapshot()), s, t.Snapshot(), snapshot.value)
  {
    if s !in t.slots {
      return None;
    }
    var slot := t.slots[s];
    var count, cur := FirstActive(t, s);
    var manual := IsManual(slot.status);
    if manual && preserve {
      t.slots := t.slots[s := slot.(current := cur)];
    } else {
      var next := if count >= slot.maxCapacity then Occupied else Available;
      t.slots := t.slots[s := slot.(status := next, current := cur)];
    }
    assert ActiveIn(t.Snapshot(), s) == ActiveIn(old(t.Snapshot()), s);
    assert ReconcilesTo(old(t.Snapshot()), s, preserve, cur, t.Snapshot());
    return Some(SlotSnapshot(t.slots[s], count, cur, manual));
  }

  /** The slots reconcileAllSlots selects. */
  function Chosen(db: Db, activeOnly: bool, location: Option<LocationId>, units: Option<set<ConfigId>>): set<SlotId> {
    set s | s in db.slots
         && (activeOnly ==> db.slots[s].isActive)
         && (units.Some? ==> db.slots[s].config in units.value)
         && (location.Some? ==> db.slots[s].config in db.configs && db.configs[db.slots[s].config] == location.value)
  }

  /** Reconciling slot `s` in `db` may write `row`. */
  ghost predicate IsReconciled(db: Db, s: SlotId, preserve: bool, row: Slot)
    requires s in db.slots
  {
    exists cur :: IsFirstActive(db, s, cur) && row == Reconciled(db, s, preserve, cur)
  }

  /** `after` is `db` with each slot of `done` reconciled and everything else as it was. */
  ghost predicate ReconciledAt(db: Db, preserve: bool, done: set<SlotId>, after: Db) {
    && after == db.(slots := after.slots)
    && after.slots.Keys == db.slots.Keys
    && (forall s: SlotId :: s in done && s in db.slots ==> IsReconciled(db, s, preserve, after.slots[s]))
    && (forall s: SlotId :: s in db.slots && s !in done ==> after.slots[s] == db.slots[s])
  }

  /** `snapshots` are those of the slots `ids`, in that order. */
  ghost predicate AreSnapshots(db: Db, ids: seq<SlotId>, after: Db, snapshots: seq<SlotSnapshot>) {
    |ids| == |snapshots| && forall i: nat :: i < |ids| ==> IsSnapshot(db, ids[i], after, snapshots[i])
  }

  /** `ids` lists the slots of `chosen`, each once. */
  ghost predicate Lists(ids: seq<SlotId>, chosen: set<SlotId>) {
    && (forall i: nat, j: nat :: i < j < |ids| ==> ids[i] != ids[j])
    && (forall s: SlotId :: s in chosen <==> s in ids)
  }

  method ReconcileAllSlots(
    t: Tables, activeOnly: bool, preserve: bool, location: Option<LocationId>, units: Option<set<ConfigId>>)
    returns (snapshots: seq<SlotSnapshot>, ghost ids: seq<SlotId>)
    modifies t
    ensures ReconciledAt(old(t.Snapshot()), preserve, Chosen(old(t.Snapshot()), activeOnly, location, units), t.Snapshot())
    ensures forall s: SlotId :: s in Chosen(old(t.Snapshot()), activeOnly, location, units) ==> Coherent(t.Snapshot(), s)
    ensures Lists(ids, Chosen(old(t.Snapshot()), activeOnly, location, units))
    ensures AreSnapshots(old(t.Snapshot()), ids, t.Snapshot(), snapshots)
    ensures |snapshots| == |Chosen(old(t.Snapshot()), activeOnly, location, units)|
  {
    ghost var db := t.Snapshot();
    ghost var chosen := Chosen(db, activeOnly, location, units);
    snapshots, ids := ReconcileEach(t, Chosen(t.Snapshot(), activeOnly, location, units), preserve);
    forall s: SlotId | s in chosen ensures Coherent(t.Snapshot(), s) {
      ReconciledIsCoherent(db, preserve, chosen, t.Snapshot(), s);
    }
  }

  /** The loop of reconcileAllSlots over the slots it selected. */
  method ReconcileEach(t: Tables, chosen: set<SlotId>, preserve: bool)
    returns (snapshots: seq<SlotSnapshot>, ghost ids: seq<SlotId>)
    requires chosen <= t.slots.Keys
    modifies t
    ensures ReconciledAt(old(t.Snapshot()), preserve, chosen, t.Snapshot())
    ensures Lists(ids, chosen) && |snapshots| == |chosen|
    ensures AreSnapshots(old(t.Snapshot()), ids, t.Snapshot(), snapshots)
  {
    hide Reconciles, Progress, ActiveIn, IsSnapshot;
    ghost var db := t.Snapshot();
    snapshots, ids := [], [];
    var todo, done := chosen, {};
    ProgressStarts(db, preserve);
    while todo != {}
      invariant todo + done == chosen && todo !! done
      invariant t.slots.Keys == db.slots.Keys
      invariant Progress(db, preserve, done, t.Snapshot(), ids, snapshots)
      decreases |todo|
    {
      ghost var before := t.Snapshot();
      var s :| s in todo;
      var snapshot := ReconcileSlotState(t, s, preserve);
      ProgressStep(db, preserve, done, before, ids, snapshots, s, t.Snapshot(), snapshot.value);
      if snapshot.Some? {
        snapshots := snapshots + [snapshot.value];
      }
      ids := ids + [s];
      todo, done := todo - {s}, done + {s};
    }
    assert done == chosen;
    ProgressMeans(db, preserve, chosen, t.Snapshot(), ids, snapshots);
  }

  /** The loop has reconciled the slots of `done`, listed as `ids`. */
  ghost predicate Progress(db: Db, preserve: bool, done: set<SlotId>, after: Db, ids: seq<SlotId>, snapshots: seq<SlotSnapshot>) {
    && done <= db.slots.Keys && |snapshots| == |done|
    && ReconciledAt(db, preserve, done, after) && Lists(ids, done) && AreSnapshots(db, ids, after, snapshots)
  }

  lemma ProgressStarts(db: Db, preserve: bool)
    ensures Progress(db, preserve, {}, db, [], [])
  {
  }

  lemma ProgressMeans(db: Db, preserve: bool, done: set<SlotId>, after: Db, ids: seq<SlotId>, snapshots: seq<SlotSnapshot>)
    requires Progress(db, preserve, done, after, ids, snapshots)
    ensures |snapshots| == |done|
    ensures ReconciledAt(db, preserve, done, after) && Lists(ids, done) && AreSnapshots(db, ids, after, snapshots)
  {
  }

  lemma ProgressStep(db: Db, preserve: bool, done: set<SlotId>, before: Db, ids: seq<SlotId>, snapshots: seq<SlotSnapshot>,
                     s: SlotId, after: Db, snapshot: SlotSnapshot)
    requires s in db.slots && s !in done
    requires Progress(db, preserve, done, before, ids, snapshots)
    requires Reconciles(before, s, preserve, after) && IsSnapshot(before, s, after, snapshot)
    ensures after.slots.Keys == before.slots.Keys
    ensures Progress(db, preserve, done + {s}, after, ids + [s], snapshots + [snapshot])
  {
    hide Reconciles, ReconciledAt, AreSnapshots, Lists, ActiveIn, IsSnapshot;
    ReconciledAtStep(db, done, before, s, preserve, after);
    SnapshotsStep(db, ids, done, before, s, preserve, after, snapshots, snapshot);
    ReconcileKeepsOthers(before, s, preserve, after, s);
  }

  lemma ReconciledAtStep(db: Db, done: set<SlotId>, before: Db, s: SlotId, preserve: bool, after: Db)
    requires s in db.slots && s !in done
    requires ReconciledAt(db, preserve, done, before) && Reconciles(before, s, preserve, after)
    ensures ReconciledAt(db, preserve, done + {s}, after)
  {
    hide Reconciled, IsFirstActive, ActiveIn;
    var cur :| ReconcilesTo(before, s, preserve, cur, after);
    SameAnswer(db, before, s, preserve, cur);
    assert IsReconciled(db, s, preserve, after.slots[s]);
  }

  /** What a slot's row becomes depends on its row and the deliveries alone. */
  lemma SameAnswer(db: Db, before: Db, s: SlotId, preserve: bool, cur: Option<DeliveryId>)
    requires before.rows == db.rows && s in db.slots && s in before.slots && before.slots[s] == db.slots[s]
    ensures IsFirstActive(before, s, cur) <==> IsFirstActive(db, s, cur)
    ensures Reconciled(before, s, preserve, cur) == Reconciled(db, s, preserve, cur)
  {
    assert ActiveIn(before, s) == ActiveIn(db, s);
  }

  lemma SnapshotsStep(db: Db, ids: seq<SlotId>, done: set<SlotId>, before: Db, s: SlotId, preserve: bool, after: Db,
                      snapshots: seq<SlotSnapshot>, snapshot: SlotSnapshot)
    requires s in db.slots && s !in done
    requires ReconciledAt(db, preserve, done, before) && Reconciles(before, s, preserve, after)
    requires Lists(ids, done) && AreSnapshots(db, ids, before, snapshots)
    requires IsSnapshot(before, s, after, snapshot)
    ensures Lists(ids + [s], done + {s}) && AreSnapshots(db, ids + [s], after, snapshots + [snapshot])
  {
    hide Reconciled, IsFirstActive, IsReconciled;
    assert ActiveIn(before, s) == ActiveIn(db, s);
    forall i: nat | i < |ids| ensures IsSnapshot(db, ids[i], after, snapshots[i]) {
      assert ids[i] in done;
      assert IsSnapshot(db, ids[i], before, snapshots[i]);
      ReconcileKeepsOthers(before, s, preserve, after, ids[i]);
    }
  }

  lemma ReconciledIsCoherent(db: Db, preserve: bool, done: set<SlotId>, after: Db, s: SlotId)
    requires ReconciledAt(db, preserve, done, after) && s in done
    ensures Coherent(after, s)
  {
    assert ActiveIn(after, s) == ActiveIn(db, s);
  }

  /** From any state, reconciling makes the slot agree with its deliveries. */
  lemma ReconcileMakesCoherent(db: Db, s: SlotId, preserve: bool, after: Db)
    requires Reconciles(db, s, preserve, after)
    ensures Coherent(after, s)
    ensures s in db.slots ==>
              && s in after.slots
              && (IsManual(after.slots[s].status) <==> IsManual(db.slots[s].status) && preserve)
              && (!IsManual(after.slots[s].status) ==> (after.slots[s].status == Occupied <==> |ActiveIn(db, s)| >= db.slots[s].maxCapacity))
  {
    assert ActiveIn(after, s) == ActiveIn(db, s);
  }

  /** Reconciling one slot changes no table but slots, and no other slot. */
  lemma ReconcileKeepsOthers(db: Db, s: SlotId, preserve: bool, after: Db, o: SlotId)
    requires Reconciles(db, s, preserve, after)
    ensures after == db.(slots := after.slots) && after.slots.Keys == db.slots.Keys
    ensures o != s && o in db.slots ==> after.slots[o] == db.slots[o]
    ensures o != s ==> (Coherent(after, o) <==> Coherent(db, o))
    ensures o in db.slots ==>
              after.slots[o] == db.slots[o].(status := after.slots[o].status, current := after.slots[o].current)
    ensures ActiveIn(after, o) == ActiveIn(db, o)
  {
    assert ActiveIn(after, o) == ActiveIn(db, o);
  }

  /** Coherence of a slot depends on its status, capacity, current delivery and occupants alone. */
  lemma CoherentFrame(db: Db, after: Db, o: SlotId)
    requires o in db.slots <==> o in after.slots
    requires o in db.slots ==> after.slots[o] == db.slots[o].(lastUsed := after.slots[o].lastUsed)
    requires ActiveIn(after, o) == ActiveIn(db, o)
    ensures Coherent(after, o) <==> Coherent(db, o)
  {
  }

  lemma PrecedesTransitive(a: Delivery, b: Delivery, c: Delivery)
    requires Precedes(a, b) && Precedes(b, c)
    ensures Precedes(a, c)
  {
  }

  /** Some row of a non-empty set is preceded by no other: the active-delivery query always has an answer. */
  lemma {:induction false} SomeRowIsFirst(rows: map<DeliveryId, Delivery>, ids: set<DeliveryId>) returns (d: DeliveryId)
    requires ids != {} && ids <= rows.Keys
    ensures d in ids && forall o :: o in ids ==> !Precedes(rows[o], rows[d])
    decreases |ids|
  {
    d :| d in ids;
    if ids != {d} {
      var e := SomeRowIsFirst(rows, ids - {d});
      if Precedes(rows[d], rows[e]) {
        forall o | o in ids ensures !Precedes(rows[o], rows[d]) {
          if Precedes(rows[o], rows[d]) {
            PrecedesTransitive(rows[o], rows[d], rows[e]);
          }
        }
      } else {
        assert forall o :: o in ids ==> o == d || o in ids - {d};
        d := e;
      }
    }
  }

  lemma FirstActiveExists(db: Db, s: SlotId) returns (cur: Option<DeliveryId>)
    ensures IsFirstActive(db, s, cur)
  {
    if ActiveIn(db, s) == {} {
      cur := None;
    } else {
      var d := SomeRowIsFirst(db.rows, ActiveIn(db, s));
      cur := Some(d);
    }
  }

  /** The first active delivery is unique unless two active rows tie on all three timestamps. */
  ghost predicate NoTies(db: Db, s: SlotId) {
    forall a, b :: a in ActiveIn(db, s) && b in ActiveIn(db, s) && a != b ==>
      Precedes(db.rows[a], db.rows[b]) || Precedes(db.rows[b], db.rows[a])
  }

  /** Reconciling is idempotent: the state after one run is an outcome of the second run ... */
  lemma ReconcileIdempotent(db: Db, s: SlotId, preserve: bool, once: Db)
    requires Reconciles(db, s, preserve, once)
    ensures Reconciles(once, s, preserve, once)
  {
    if s in db.slots {
      var cur :| ReconcilesTo(db, s, preserve, cur, once);
      assert ActiveIn(once, s) == ActiveIn(db, s);
      assert ReconcilesTo(once, s, preserve, cur, once);
    }
  }

  /** ... every outcome of the second run agrees with it on all but which of several tied rows `current` names ... */
  lemma ReconcileAgain(db: Db, s: SlotId, preserve: bool, once: Db, twice: Db)
    requires Reconciles(db, s, preserve, once) && Reconciles(once, s, preserve, twice)
    ensures twice == once.(slots := twice.slots) && twice.slots.Keys == once.slots.Keys
    ensures forall o :: o in once.slots ==> twice.slots[o] == once.slots[o].(current := twice.slots[o].current)
    ensures NoTies(db, s) ==> twice == once
  {
    if s in db.slots {
      var cur :| ReconcilesTo(db, s, preserve, cur, once);
      var again :| ReconcilesTo(once, s, preserve, again, twice);
      SecondAnswer(db, s, preserve, cur, once, again);
      assert twice.slots == once.slots[s := once.slots[s].(current := again)];
      if NoTies(db, s) {
        assert once.slots[s].(current := again) == once.slots[s];
        assert twice.slots == once.slots;
      }
    }
  }

  lemma SecondAnswer(db: Db, s: SlotId, preserve: bool, cur: Option<DeliveryId>, once: Db, again: Option<DeliveryId>)
    requires s in db.slots && ReconcilesTo(db, s, preserve, cur, once)
    ensures Reconciled(once, s, preserve, again) == once.slots[s].(current := again)
    ensures once.slots[s].current == cur
    ensures IsFirstActive(once, s, again) && NoTies(db, s) ==> again == cur
  {
    assert ActiveIn(once, s) == ActiveIn(db, s);
  }

  /** The delivery a slot names, in the columns: of those called or received there none was updated later or, updated at the
      same time, called later (no called time counts as latest) or, called at the same time, created later. */
  lemma CurrentIsNewest(db: Db, s: SlotId, d: DeliveryId)
    ensures IsFirstActive(db, s, Some(d)) <==>
              && d in db.rows && db.rows[d].slot == Some(s) && db.rows[d].status in {Called, Receiving, AutoWarehouseReceiving}
              && forall o :: o in db.rows && db.rows[o].slot == Some(s) && db.rows[o].status in {Called, Receiving, AutoWarehouseReceiving} ==>
                   var x, y := db.rows[d], db.rows[o];
                   || x.updatedAt > y.updatedAt
                   || (x.updatedAt == y.updatedAt
                       && if x.called == y.called then x.createdAt >= y.createdAt
                          else x.called.None? || (y.called.Some? && x.called.value > y.called.value))
  {
    hide Precedes;
    forall o | d in db.rows && o in db.rows
      ensures
        var x, y := db.rows[d], db.rows[o];
        !Precedes(y, x) <==>
          || x.updatedAt > y.updatedAt
          || (x.updatedAt == y.updatedAt
              && if x.called == y.called then x.createdAt >= y.createdAt
                 else x.called.None? || (y.called.Some? && x.called.value > y.called.value))
    {
      NotPreceded(db.rows[d], db.rows[o]);
    }
  }

  lemma NotPreceded(x: Delivery, y: Delivery)
    ensures !Precedes(y, x) <==>
              || x.updatedAt > y.updatedAt
              || (x.updatedAt == y.updatedAt
                  && if x.called == y.called then x.createdAt >= y.createdAt
                     else x.called.None? || (y.called.Some? && x.called.value > y.called.value))
  {
  }

  /** The row a reconcile writes, in the columns: a manual status stays when asked, any other becomes OCCUPIED exactly when
      as many are called or received there as the slot has capacity for, and nothing else but the delivery it names changes. */
  lemma ReconciledExactly(db: Db, s: SlotId, preserve: bool, after: Db)
    requires s in db.slots && Reconciles(db, s, preserve, after)
    ensures s in after.slots && after == db.(slots := db.slots[s := after.slots[s]])
    ensures
      var slot, row := db.slots[s], after.slots[s];
      var active := |set o | o in db.rows && db.rows[o].slot == Some(s) && db.rows[o].status in {Called, Receiving, AutoWarehouseReceiving}|;
      && row == slot.(status := row.status, current := row.current)
      && row.status == (if preserve && slot.status in {Maintenance, Reserved} then slot.status
                        else if active >= slot.maxCapacity then Occupied
                        else Available)
  {
    var active := set o | o in db.rows && db.rows[o].slot == Some(s) && db.rows[o].status in {Called, Receiving, AutoWarehouseReceiving};
    assert ActiveIn(db, s) == active;
    hide ActiveIn, IsFirstActive;
  }

  /** What coherent means, in the columns. */
  lemma CoherentExactly(db: Db, s: SlotId)
    requires s in db.slots
    ensures
      var slot := db.slots[s];
      var active := set o | o in db.rows && db.rows[o].slot == Some(s) && db.rows[o].status in {Called, Receiving, AutoWarehouseReceiving};
      Coherent(db, s) <==>
        && (slot.status == Available ==> |active| < slot.maxCapacity)
        && (slot.status == Occupied ==> |active| >= slot.maxCapacity)
        && if slot.current == None then active == {} else slot.current.value in active
  {
    var active := set o | o in db.rows && db.rows[o].slot == Some(s) && db.rows[o].status in {Called, Receiving, AutoWarehouseReceiving};
    assert ActiveIn(db, s) == active;
    hide ActiveIn;
  }

  /** Which slots are selected, in the columns. */
  lemma ChosenExactly(db: Db, activeOnly: bool, location: Option<LocationId>, units: Option<set<ConfigId>>, s: SlotId)
    ensures s in Chosen(db, activeOnly, location, units) <==>
              && s in db.slots
              && (activeOnly ==> db.slots[s].isActive)
              && (units == None || db.slots[s].config in units.value)
              && (location == None || (db.slots[s].config in db.configs && location == Some(db.configs[db.slots[s].config])))
  {
  }

  /** What the snapshots of the selected slots tell: their rows, how many are called or received there, which of them the
      slot names, and whether its status was a manual one. */
  lemma SnapshotTells(db: Db, ids: seq<SlotId>, after: Db, snapshots: seq<SlotSnapshot>, i: nat)
    requires AreSnapshots(db, ids, after, snapshots) && i < |ids|
    ensures i < |snapshots| && ids[i] in db.slots && ids[i] in after.slots
    ensures
      var s, snapshot := ids[i], snapshots[i];
      && snapshot.slot == after.slots[s] && snapshot.activeDelivery == after.slots[s].current
      && snapshot.activeCount
         == |set o | o in db.rows && db.rows[o].slot == Some(s) && db.rows[o].status in {Called, Receiving, AutoWarehouseReceiving}|
      && (snapshot.manualStatus <==> db.slots[s].status in {Maintenance, Reserved})
  {
    var s := ids[i];
    assert IsSnapshot(db, s, after, snapshots[i]);
    assert ActiveIn(db, s)
           == set o | o in db.rows && db.rows[o].slot == Some(s) && db.rows[o].status in {Called, Receiving, AutoWarehouseReceiving};
  }
}
