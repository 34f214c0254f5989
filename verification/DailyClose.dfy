/** The daily close: registrations nobody checked in expire, unfinished receptions become incomplete. */
module DailyClose {
  import opened Types
  import opened Store
  import opened Archive

  /** The business day as a range of instants, and the optional restriction to a location or to units. */
  datatype CloseScope = CloseScope(start: int, end: int, location: Option<LocationId>, units: Option<set<ConfigId>>)

  predicate InRange(at: Option<int>, scope: CloseScope) {
    at.Some? && scope.start <= at.value < scope.end
  }

  /** requestedTime decides; `fallback` only when it is null. */
  predicate OnDay(row: Delivery, fallback: Option<int>, scope: CloseScope) {
    InRange(row.requested, scope) || (row.requested.None? && InRange(fallback, scope))
  }

  predicate AtLocation(db: Db, config: Option<ConfigId>, location: LocationId) {
    config.Some? && config.value in db.configs && db.configs[config.value] == location
  }

  function SlotConfig(db: Db, row: Delivery): Option<ConfigId> {
    if row.slot.Some? && row.slot.value in db.slots then Some(db.slots[row.slot.value].config) else None
  }

  predicate Closable(db: Db, row: Delivery, scope: CloseScope) {
    && (|| (row.status == Registered && OnDay(row, Some(row.createdAt), scope))
        || ((row.status == Receiving || row.status == AutoWarehouseReceiving) && OnDay(row, row.checkin, scope)))
    && (scope.location.Some? ==>
          AtLocation(db, row.config, scope.location.value) || AtLocation(db, SlotConfig(db, row), scope.location.value))
    && (scope.units.Some? ==> row.config.Some? && row.config.value in scope.units.value)
  }

  function ClosedRow(row: Delivery, now: int): Delivery {
    row.(status := if row.status == Registered then Expired else Incompleted, updatedAt := now)
  }

  function CloseInput(id: DeliveryId, row: Delivery, at: int): ArchiveInput {
    if row.status == Registered then ArchiveInput(id, FinalExpired, ExpiredNoShowEvent, at, true, Some(Expired), None)
    else ArchiveInput(id, FinalIncompleted, IncompletedEvent, at, true, Some(Incompleted), None)
  }

  /** The status change is written first and archived with the row in the same transaction. */
  function Marked(db: Db, id: DeliveryId, now: int): Db
    requires id in db.rows
  {
    db.(rows := db.rows[id := ClosedRow(db.rows[id], now)])
  }

  /** `after` is an outcome of the close transaction for one delivery; a row that no longer qualifies is skipped. */
  ghost predicate ClosesOne(db: Db, id: DeliveryId, scope: CloseScope, now: int, after: Db) {
    if id in db.rows && Closable(db, db.rows[id], scope)
    then Archives(Marked(db, id, now), CloseInput(id, db.rows[id], now), after)
    else after == db
  }

  datatype CloseResult = Succeeded | Skipped | Failed

  method CloseOne(t: Tables, id: DeliveryId, scope: CloseScope, now: int) returns (closed: bool)
    modifies t
    ensures ClosesOne(old(t.Snapshot()), id, scope, now, t.Snapshot())
    ensures closed <==> id in old(t.rows) && Closable(old(t.Snapshot()), old(t.rows)[id], scope)
    ensures closed ==> id !in t.rows
  {
    if id !in t.rows || !Closable(t.Snapshot(), t.rows[id], scope) {
      return false;
    }
    var row := t.rows[id];
    t.rows := t.rows[id := ClosedRow(row, now)];
    ghost var marked := t.Snapshot();
    var outcome := ArchiveDelivery(t, CloseInput(id, row, now));
    ArchiveEffect(marked, CloseInput(id, row, now), t.Snapshot());
    return true;
  }

  /** Which deliveries the close takes, in the columns of the state before, and what becomes of them: registered ones of
      the day expire, those being received stay unfinished; every other row is left alone. */
  lemma ClosedExactly(db: Db, id: DeliveryId, scope: CloseScope, now: int, after: Db)
    requires id in db.rows && ClosesOne(db, id, scope, now, after)
    ensures
      var row := db.rows[id];
      var at := if row.requested.Some? then row.requested else if row.status == Registered then Some(row.createdAt) else row.checkin;
      if && row.status in {Registered, Receiving, AutoWarehouseReceiving}
         && at.Some? && scope.start <= at.value && at.value < scope.end
         && (scope.location.Some? ==>
               || (row.config.Some? && row.config.value in db.configs && db.configs[row.config.value] == scope.location.value)
               || (row.slot.Some? && row.slot.value in db.slots && db.slots[row.slot.value].config in db.configs
                   && db.configs[db.slots[row.slot.value].config] == scope.location.value))
         && (scope.units.Some? ==> row.config.Some? && row.config.value in scope.units.value)
      then
        && Closable(db, row, scope) && id !in after.rows && id in after.history
        && after.history[id].final == (if row.status == Registered then FinalExpired else FinalIncompleted)
      else
        !Closable(db, row, scope) && after == db
  {
    if Closable(db, db.rows[id], scope) {
      ArchiveEffect(Marked(db, id, now), CloseInput(id, db.rows[id], now), after);
    }
  }

  /** What the other transactions of the system have left in the tables. */
  method OtherTransactions(t: Tables, left: Db)
    requires left.configs == t.configs
    modifies t
    ensures t.Snapshot() == left
  {
    t.rows, t.slots, t.history, t.log := left.rows, left.slots, left.history, left.log;
  }

  /** FAILED exactly when the transaction throws, SUCCEEDED exactly when it finds the row still closable. */
  predicate Judged(db: Db, id: DeliveryId, scope: CloseScope, throws: bool, r: CloseResult) {
    && (r == Failed <==> throws)
    && (r == Succeeded <==> !throws && id in db.rows && Closable(db, db.rows[id], scope))
  }

  function Occurrences(results: seq<CloseResult>, r: CloseResult): nat {
    if results == [] then 0
    else Occurrences(results[..|results| - 1], r) + (if results[|results| - 1] == r then 1 else 0)
  }

  lemma OccurrencesSnoc(results: seq<CloseResult>, last: CloseResult, r: CloseResult)
    ensures Occurrences(results + [last], r) == Occurrences(results, r) + (if last == r then 1 else 0)
  {
    assert (results + [last])[..|results + [last]| - 1] == results;
  }

  /** What one turn leaves: a succeeded one has closed and removed its delivery, any other changed nothing. */
  ghost predicate Leaves(db: Db, id: DeliveryId, scope: CloseScope, now: int, r: CloseResult, after: Db) {
    if r == Succeeded then ClosesOne(db, id, scope, now, after) && id !in after.rows else after == db
  }

  /** Every result so far is right for the state its candidate was found in, and so is the state it left. */
  ghost predicate AllJudged(
    others: nat -> Db, candidates: seq<DeliveryId>, scope: CloseScope, now: int, faults: set<DeliveryId>,
    results: seq<CloseResult>, afters: seq<Db>)
  {
    && |results| == |afters| <= |candidates|
    && forall i :: 0 <= i < |results| ==>
         && Judged(others(i), candidates[i], scope, candidates[i] in faults, results[i])
         && Leaves(others(i), candidates[i], scope, now, results[i], afters[i])
  }

  /** What the results mean: a candidate fails exactly when its transaction throws, otherwise it succeeds exactly when it
      is found closable, and then its row is gone; the tables stay as they were found for every other. */
  lemma ResultsMean(
    others: nat -> Db, candidates: seq<DeliveryId>, scope: CloseScope, now: int, faults: set<DeliveryId>,
    results: seq<CloseResult>, afters: seq<Db>, i: nat)
    requires AllJudged(others, candidates, scope, now, faults, results, afters) && i < |results|
    ensures |afters| == |results| <= |candidates|
    ensures
      var db, id := others(i), candidates[i];
      if id in faults then results[i] == Failed && afters[i] == db
      else if id in db.rows && Closable(db, db.rows[id], scope) then
        results[i] == Succeeded && ClosesOne(db, id, scope, now, afters[i]) && id !in afters[i].rows
      else results[i] == Skipped && afters[i] == db
  {
    hide Closable, ClosesOne;
  }

  /** The counters count. */
  lemma {:induction false} OccurrencesCount(results: seq<CloseResult>, r: CloseResult)
    ensures Occurrences(results, r) == |set i | 0 <= i < |results| && results[i] == r|
  {
    if results != [] {
      var n := |results| - 1;
      OccurrencesCount(results[..n], r);
      var front := results[..n];
      var before, all := set i | 0 <= i < |front| && front[i] == r, set i | 0 <= i < |results| && results[i] == r;
      if results[n] == r {
        assert all == before + {n};
      } else {
        assert all == before;
      }
    }
  }

  lemma AllJudgedSnoc(
    others: nat -> Db, candidates: seq<DeliveryId>, scope: CloseScope, now: int, faults: set<DeliveryId>,
    results: seq<CloseResult>, afters: seq<Db>, r: CloseResult, after: Db)
    requires AllJudged(others, candidates, scope, now, faults, results, afters) && |results| < |candidates|
    requires Judged(others(|results|), candidates[|results|], scope, candidates[|results|] in faults, r)
    requires Leaves(others(|results|), candidates[|results|], scope, now, r, after)
    ensures AllJudged(others, candidates, scope, now, faults, results + [r], afters + [after])
  {
    hide Judged, Leaves;
    var longer, more := results + [r], afters + [after];
    forall i | 0 <= i < |longer|
      ensures Judged(others(i), candidates[i], scope, candidates[i] in faults, longer[i])
              && Leaves(others(i), candidates[i], scope, now, longer[i], more[i])
    {
      if i < |results| {
        assert longer[i] == results[i] && more[i] == afters[i];
      }
    }
  }

  /** One turn of the loop: a transaction that throws is rolled back. */
  method CloseCandidate(t: Tables, id: DeliveryId, scope: CloseScope, now: int, left: Db, throws: bool) returns (r: CloseResult)
    requires left.configs == t.configs
    modifies t
    ensures Judged(left, id, scope, throws, r) && Leaves(left, id, scope, now, r, t.Snapshot())
  {
    OtherTransactions(t, left);
    if throws {
      return Failed;
    }
    var closed := CloseOne(t, id, scope, now);
    return if closed then Succeeded else Skipped;
  }

  /** The loop of closeDailyDeliveries over the candidates it read before.  `others(i)` is the state found when
      candidate `i` is locked, whatever ran in between; `faults` lists candidates whose transaction throws. */
  method CloseDailyDeliveries(
    t: Tables, candidates: seq<DeliveryId>, scope: CloseScope, now: int, others: nat -> Db, faults: set<DeliveryId>)
    returns (succeeded: nat, failed: nat, skipped: nat, errors: seq<DeliveryId>, ghost results: seq<CloseResult>, ghost afters: seq<Db>)
    requires forall i :: others(i).configs == t.configs
    modifies t
    ensures |results| == |candidates| && succeeded + failed + skipped == |candidates|
    ensures succeeded == Occurrences(results, Succeeded) && failed == Occurrences(results, Failed) && skipped == Occurrences(results, Skipped)
    ensures failed == |errors|
    ensures AllJudged(others, candidates, scope, now, faults, results, afters)
    ensures t.Snapshot() == if candidates == [] then old(t.Snapshot()) else afters[|candidates| - 1]
  {
    hide Judged, Leaves, ClosesOne;
    succeeded, failed, skipped, errors, results, afters := 0, 0, 0, [], [], [];
    for i := 0 to |candidates|
      invariant |results| == i && succeeded + failed + skipped == i && failed == |errors|
      invariant succeeded == Occurrences(results, Succeeded) && failed == Occurrences(results, Failed) && skipped == Occurrences(results, Skipped)
      invariant AllJudged(others, candidates, scope, now, faults, results, afters)
      invariant t.Snapshot() == if i == 0 then old(t.Snapshot()) else afters[i - 1]
    {
      var r := CloseCandidate(t, candidates[i], scope, now, others(i), candidates[i] in faults);
      match r {
        case Succeeded => succeeded := succeeded + 1;
        case Skipped => skipped := skipped + 1;
        case Failed => failed, errors := failed + 1, errors + [candidates[i]];
      }
      forall k ensures Occurrences(results + [r], k) == Occurrences(results, k) + (if r == k then 1 else 0) {
        OccurrencesSnoc(results, r, k);
      }
      AllJudgedSnoc(others, candidates, scope, now, faults, results, afters, r, t.Snapshot());
      results, afters := results + [r], afters + [t.Snapshot()];
    }
  }
}
