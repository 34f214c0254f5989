/** The greedy drain calls at least half as many deliveries as the best plan could. */
module HalfOptimal {
  import opened Types
  import opened Arithmetic
  import opened GoodsOrder
  import opened SlotState
  import opened Calls
  import opened AutoAssign
  import opened Drain

  type Plan = map<DeliveryId, SlotId>

  /** What a plan or a drain sends to slot `s`. */
  function SentTo(plan: Plan, s: SlotId): set<DeliveryId> {
    set d | d in plan && plan[d] == s
  }

  function SentToAny(plan: Plan, slots: set<SlotId>): set<DeliveryId> {
    set d | d in plan && plan[d] in slots
  }

  /** An assignment of waiting deliveries to matching slots of the drain, within their spare capacity. */
  ghost predicate Feasible(db: Db, unit: UnitCode, scope: Scope, plan: Plan) {
    && (forall d :: d in plan ==> Candidate(db, unit, scope, plan[d]) && d in WaitingFor(db, plan[d]))
    && (forall s :: s in db.slots ==> |SentTo(plan, s)| <= if Spare(db, s) > 0 then Spare(db, s) else 0)
  }

  /** The drain itself as a plan. */
  function Served(picks: seq<Pick>, n: nat): Plan
    requires n <= |picks|
  {
    if n == 0 then map[] else Served(picks, n - 1)[picks[n - 1].id := picks[n - 1].slot]
  }

  lemma {:induction false} PickedSize(picks: seq<Pick>, n: nat)
    requires n <= |picks|
    ensures |Picked(picks, n)| <= n
  {
    if n > 0 {
      PickedSize(picks, n - 1);
    }
  }

  lemma {:induction false} ServedIsPicked(picks: seq<Pick>, n: nat, s: SlotId)
    requires n <= |picks| && |Picked(picks, n)| == n
    ensures Served(picks, n).Keys == Picked(picks, n)
    ensures SentTo(Served(picks, n), s) == PickedInto(picks, n, s)
  {
    if n > 0 {
      PickedSize(picks, n - 1);
      assert picks[n - 1].id !in Picked(picks, n - 1);
      ServedIsPicked(picks, n - 1, s);
      SendOneMore(Served(picks, n - 1), picks[n - 1], s);
    }
  }

  lemma SendOneMore(plan: Plan, pick: Pick, s: SlotId)
    requires pick.id !in plan
    ensures SentTo(plan[pick.id := pick.slot], s) == SentTo(plan, s) + (if pick.slot == s then {pick.id} else {})
  {
  }

  /** If no slot receives more under `f` than under `g`, neither does any set of slots. */
  lemma {:induction false} SumOverSlots(f: Plan, g: Plan, slots: set<SlotId>)
    requires forall s :: s in slots ==> |SentTo(f, s)| <= |SentTo(g, s)|
    ensures |SentToAny(f, slots)| <= |SentToAny(g, slots)|
    decreases |slots|
  {
    if slots == {} {
      assert SentToAny(f, slots) == {};
    } else {
      var s :| s in slots;
      SumOverSlots(f, g, slots - {s});
      SplitOffSlot(f, slots, s);
      SplitOffSlot(g, slots, s);
    }
  }

  lemma SplitOffSlot(plan: Plan, slots: set<SlotId>, s: SlotId)
    requires s in slots
    ensures |SentToAny(plan, slots)| == |SentToAny(plan, slots - {s})| + |SentTo(plan, s)|
  {
    assert SentToAny(plan, slots) == SentToAny(plan, slots - {s}) + SentTo(plan, s);
  }

  function Missed(plan: Plan, picked: set<DeliveryId>): Plan {
    map d | d in plan && d !in picked :: plan[d]
  }

  /** A slot the plan uses for a delivery the drain never called was filled by the drain. */
  lemma MissedSlotIsFull(trace: seq<Db>, picks: seq<Pick>, unit: UnitCode, scope: Scope, plan: Plan, s: SlotId)
    requires IsDrain(trace, picks, unit, scope) && Stable(trace[|picks|], unit, scope)
    requires Feasible(trace[0], unit, scope, plan) && s in trace[0].slots
    ensures |SentTo(Missed(plan, Picked(picks, |picks|)), s)| <= |PickedInto(picks, |picks|, s)|
  {
    var n := |picks|;
    var missed := SentTo(Missed(plan, Picked(picks, n)), s);
    if missed != {} {
      var d :| d in missed;
      assert d in WaitingFor(trace[0], s) && Candidate(trace[0], unit, scope, s);
      DrainQueue(trace, picks, unit, scope, n, s);
      assert d in WaitingFor(trace[n], s);
      assert s !in OpenSlots(trace[n], unit, scope);
      DrainOccupancy(trace, picks, unit, scope, n, s);
      assert missed <= SentTo(plan, s);
      SubsetSize(missed, SentTo(plan, s));
    }
  }

  /** Missed deliveries fit under served ones, slot by slot and so in all. */
  lemma MissedFitUnderServed(picks: seq<Pick>, missed: Plan, slots: set<SlotId>)
    requires |Picked(picks, |picks|)| == |picks|
    requires forall d :: d in missed ==> missed[d] in slots
    requires forall s :: s in slots ==> |SentTo(missed, s)| <= |PickedInto(picks, |picks|, s)|
    ensures |missed.Keys| <= |picks|
  {
    var served := Served(picks, |picks|);
    forall s | s in slots ensures |SentTo(missed, s)| <= |SentTo(served, s)| {
      ServedIsPicked(picks, |picks|, s);
    }
    SumOverSlots(missed, served, slots);
    assert SentToAny(missed, slots) == missed.Keys;
    ServedIsPicked(picks, |picks|, 0);
    SubsetSize(SentToAny(served, slots), served.Keys);
  }

  /** Half-optimality: one drain calls at least half as many deliveries as any feasible plan. */
  lemma DrainIsHalfOptimal(trace: seq<Db>, picks: seq<Pick>, unit: UnitCode, scope: Scope, plan: Plan)
    requires IsDrain(trace, picks, unit, scope) && Stable(trace[|picks|], unit, scope)
    requires Feasible(trace[0], unit, scope, plan)
    ensures |plan| <= 2 * |picks|
  {
    DrainProgress(trace, picks, unit, scope, |picks|);
    var slots := trace[0].slots.Keys;
    forall s | s in slots ensures |SentTo(Missed(plan, Picked(picks, |picks|)), s)| <= |PickedInto(picks, |picks|, s)| {
      MissedSlotIsFull(trace, picks, unit, scope, plan, s);
    }
    var picked := Picked(picks, |picks|);
    var missed := Missed(plan, picked);
    MissedFitUnderServed(picks, missed, slots);
    PlanSplits(plan, picked, missed);
  }

  lemma PlanSplits(plan: Plan, picked: set<DeliveryId>, missed: Plan)
    requires missed == Missed(plan, picked)
    ensures |plan| <= |missed.Keys| + |picked|
  {
    assert plan.Keys == missed.Keys + plan.Keys * picked;
    SubsetSize(plan.Keys * picked, picked);
  }

  /** A slot during a drain: its spare capacity and its queue shrink by what was called. */
  lemma SlotDuringDrain(trace: seq<Db>, picks: seq<Pick>, unit: UnitCode, scope: Scope, n: nat, s: SlotId)
    requires IsDrain(trace, picks, unit, scope) && n <= |picks| && s in trace[0].slots
    ensures s in trace[n].slots
    ensures WaitingFor(trace[n], s) == WaitingFor(trace[0], s) - Picked(picks, n)
    ensures Spare(trace[n], s) == Spare(trace[0], s) - |PickedInto(picks, n, s)|
    ensures s in OpenSlots(trace[n], unit, scope) <==>
              s in trace[0].slots && Candidate(trace[0], unit, scope, s) && Spare(trace[0], s) > |PickedInto(picks, n, s)|
  {
    DrainQueue(trace, picks, unit, scope, n, s);
    DrainOccupancy(trace, picks, unit, scope, n, s);
  }

  /** Where a greedy drain loses half: slot `wide` takes deliveries `a` and `b`, slot `narrow` only `a`, and `a` is
      first in line for `wide`.  The drain serves `wide` first, calls `a` into it and stops, whereas sending `a`
      to `narrow` and `b` to `wide` serves both. */
  lemma HalfIsTight(
    trace: seq<Db>, picks: seq<Pick>, unit: UnitCode, scope: Scope, wide: SlotId, narrow: SlotId, a: DeliveryId, b: DeliveryId)
    requires IsDrain(trace, picks, unit, scope) && picks == [Pick(wide, a)]
    requires wide != narrow && a != b && OpenSlots(trace[0], unit, scope) == {wide, narrow}
    requires Spare(trace[0], wide) == 1 == Spare(trace[0], narrow)
    requires WaitingFor(trace[0], wide) == {a, b} && WaitingFor(trace[0], narrow) == {a}
    ensures Stable(trace[1], unit, scope)
    ensures Feasible(trace[0], unit, scope, map[a := narrow, b := wide])
  {
    PlanForBoth(trace[0], unit, scope, wide, narrow, a, b);
    DrainProgress(trace, picks, unit, scope, 1);
    assert picks[0] == Pick(wide, a);
    OnePick(picks);
    forall s | s in OpenSlots(trace[1], unit, scope) ensures WaitingFor(trace[1], s) == {} {
      TightSlot(trace, picks, unit, scope, wide, narrow, a, s);
    }
  }

  /** A yard of two empty slots for one: slot 0 takes fresh food first and general goods after, slot 1 fresh food only.
      Delivery 0 brings fresh food, delivery 1 general goods. */
  function TightYard(): Db {
    var row := Delivery("51C", 0, Some(0), FreshFood, Some(FreshFood), Truck, None, Some(1), None, None, None, Waiting, None,
                        false, Some(1), None, 0, 1);
    var slot := Slot(0, 0, Truck, [FreshFood, GeneralGoods], [FreshFood], true, 1, Available, true, None, None, 0);
    Db(map[0 := row, 1 := row.(goods := GeneralGoods, ticket := Some(2))],
       map[0 := slot, 1 := slot.(code := 1, acceptedGoods := [FreshFood])], map[], [], map[0 := 0])
  }

  const EVERYWHERE: Scope := Scope(None, None)

  lemma TightQueues()
    ensures OpenSlots(TightYard(), 0, EVERYWHERE) == {0, 1}
    ensures Spare(TightYard(), 0) == 1 == Spare(TightYard(), 1)
    ensures WaitingFor(TightYard(), 0) == {0, 1} && WaitingFor(TightYard(), 1) == {0}
  {
    var db := TightYard();
    assert ActiveIn(db, 0) == {} && ActiveIn(db, 1) == {};
  }

  lemma TightPick()
    ensures 0 in WaitingFor(TightYard(), 0) && IsNext(TightYard(), 0, 0)
  {
    var db := TightYard();
    TightQueues();
    ListedGoodsFirst(db.slots[0], FreshFood, GeneralGoods);
    hide CandidateGoods;
    assert !PreferredOver(db, 0, 0, 0);
    assert !PreferredOver(db, 0, 1, 0);
  }

  lemma TightOrder()
    ensures forall s :: s in OpenSlots(TightYard(), 0, EVERYWHERE) ==> !RanksBefore(TightYard(), s, 0)
  {
    TightQueues();
    hide OpenSlots, WaitingFor, Spare;
  }

  lemma TightCall() returns (after: Db)
    ensures CallsInto(TightYard(), 0, 0, 2, AutoAssignedEvent, after)
  {
    var db := TightYard();
    var written := CallWrites(db, 0, 0, 2, AutoAssignedEvent);
    var cur := FirstActiveExists(written, 0);
    after := written.(slots := written.slots[0 := Reconciled(written, 0, true, cur)]);
    assert ReconcilesTo(written, 0, true, cur, after);
    assert CallsVia(db, 0, 0, 2, AutoAssignedEvent, db, after);
  }

  /** The dispatcher's first round there calls delivery 0 into slot 0. */
  lemma TightRound() returns (after: Db)
    ensures Round(TightYard(), 0, EVERYWHERE, Pick(0, 0), after)
  {
    TightQueues();
    TightPick();
    TightOrder();
    after := TightCall();
    assert 0 in OpenSlots(TightYard(), 0, EVERYWHERE);
    hide TightYard, CallsInto, IsNext, WaitingFor, RanksBefore, Candidate, Spare;
  }

  /** The factor two is reached: in that yard a whole drain calls one delivery and a feasible plan serves both. */
  lemma FactorTwoIsReached() returns (trace: seq<Db>, picks: seq<Pick>, plan: Plan)
    ensures IsDrain(trace, picks, 0, EVERYWHERE) && trace[0] == TightYard() && Stable(trace[|picks|], 0, EVERYWHERE)
    ensures Feasible(trace[0], 0, EVERYWHERE, plan) && |plan| == 2 && |picks| == 1
  {
    hide TightYard, Round, Stable, Feasible, OpenSlots, Spare, WaitingFor;
    TightQueues();
    TightSlots();
    var after := TightRound();
    trace, picks, plan := [TightYard(), after], [Pick(0, 0)], map[0 := 1, 1 := 0];
    assert plan.Keys == {0, 1};
    HalfIsTight(trace, picks, 0, EVERYWHERE, 0, 1, 0, 1);
  }

  lemma TightSlots()
    ensures 0 in TightYard().slots && 1 in TightYard().slots
  {
  }

  lemma OnePick(picks: seq<Pick>)
    requires |picks| == 1
    ensures Picked(picks, 1) == {picks[0].id} == PickedInto(picks, 1, picks[0].slot)
  {
    assert Picked(picks, 0) == {} == PickedInto(picks, 0, picks[0].slot);
  }

  lemma TightSlot(
    trace: seq<Db>, picks: seq<Pick>, unit: UnitCode, scope: Scope, wide: SlotId, narrow: SlotId, a: DeliveryId, s: SlotId)
    requires IsDrain(trace, picks, unit, scope) && |picks| == 1 && Picked(picks, 1) == {a} == PickedInto(picks, 1, wide)
    requires s in trace[0].slots && s in OpenSlots(trace[1], unit, scope)
    requires OpenSlots(trace[0], unit, scope) == {wide, narrow} && wide in trace[0].slots && narrow in trace[0].slots
    requires Spare(trace[0], wide) == 1 && WaitingFor(trace[0], narrow) == {a}
    ensures WaitingFor(trace[1], s) == {}
  {
    SlotDuringDrain(trace, picks, unit, scope, 1, s);
    assert s in OpenSlots(trace[0], unit, scope);
  }

  lemma PlanForBoth(db: Db, unit: UnitCode, scope: Scope, wide: SlotId, narrow: SlotId, a: DeliveryId, b: DeliveryId)
    requires wide != narrow && a != b && OpenSlots(db, unit, scope) == {wide, narrow}
    requires wide in db.slots && narrow in db.slots && Spare(db, wide) == 1 == Spare(db, narrow)
    requires WaitingFor(db, wide) == {a, b} && WaitingFor(db, narrow) == {a}
    ensures Feasible(db, unit, scope, map[a := narrow, b := wide])
  {
    var plan: Plan := map[a := narrow, b := wide];
    assert SentTo(plan, wide) == {b} && SentTo(plan, narrow) == {a};
    assert wide in OpenSlots(db, unit, scope) && narrow in OpenSlots(db, unit, scope);
    forall s ensures s != wide && s != narrow ==> SentTo(plan, s) == {} {}
  }
}
