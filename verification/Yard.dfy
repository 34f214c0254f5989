/** The yard as one state machine: every service call is a step on the committed tables. */
module Yard {
  import opened Types
  import opened SlotState
  import opened Calls
  import opened AutoAssign
  import opened Lifecycle
  import opened ManualCall
  import opened Trails
  import opened Archive
  import opened DailyClose

  datatype Op =
    | OpRegister(id: DeliveryId, form: Form, now: int)
    | OpReregister(id: DeliveryId, form: Form, now: int)
    | OpCheckIn(id: DeliveryId, expected: Option<Option<ConfigId>>, vendorMatches: bool, ticket: nat, now: int)
    | OpAutoAssign(slot: SlotId, unit: UnitCode, next: DeliveryId, now: int)
    | OpManualCall(id: DeliveryId, slot: SlotId, now: int)
    | OpStart(id: DeliveryId, now: int)
    | OpComplete(id: DeliveryId, now: int)
    | OpCancel(id: DeliveryId, reason: string, now: int)
    | OpArchive(input: ArchiveInput)
    | OpClose(id: DeliveryId, scope: CloseScope, now: int)
    | OpPurge(ids: set<DeliveryId>)
    | OpReconcile(slot: SlotId, preserve: bool)
    | OpSetManual(slot: SlotId, status: SlotStatus)

  /** A delivery id the database has not seen; cuid() never repeats. */
  predicate Unseen(db: Db, id: DeliveryId) {
    id !in db.rows && id !in db.history && TrailOf(db.log, id) == NO_TRAIL
  }

  /** The archive calls the services make: after a completion, and from the archive job. */
  predicate CalledArchive(db: Db, input: ArchiveInput) {
    || (input.final == FinalCompleted && input.reason == CompletedEvent && !input.deleteRow && input.expected == None
        && (input.id in db.rows ==> db.rows[input.id].status == Completed))
    || (input.final == FinalCompleted && input.reason == CompletedEvent && input.deleteRow && input.expected == Some(Completed))
    || (input.final == FinalCancelled && input.reason == CancelledEvent && input.deleteRow && input.expected == Some(Cancelled))
  }

  /** The batch DELETE of the archive job rechecks both the row and its history. */
  predicate Purgeable(db: Db, id: DeliveryId) {
    && id in db.rows && db.rows[id].status == Completed
    && id in db.history && db.history[id].final == FinalCompleted
  }

  function Purge(db: Db, ids: set<DeliveryId>): Db {
    db.(rows := map id | id in db.rows && !(id in ids && Purgeable(db, id)) :: db.rows[id])
  }

  /** `after` is a committed state one service call can lead to. */
  ghost predicate Step(db: Db, op: Op, after: Db) {
    match op
    case OpRegister(id, form, now) => Unseen(db, id) && after == RegisterNew(db, id, form, now)
    case OpReregister(id, form, now) => Reregistrable(db, id) && after == Reregister(db, id, form, now)
    case OpCheckIn(id, expected, vendorMatches, ticket, now) =>
      if CheckInVerdict(db, id, expected, vendorMatches) == CheckedIn then after == CheckIn(db, id, vendorMatches, ticket, now) else after == db
    case OpAutoAssign(s, unit, next, now) =>
      if Assignable(db, s, unit) then IsNext(db, s, next) && CallsInto(db, next, s, now, AutoAssignedEvent, after) else after == db
    case OpManualCall(id, s, now) => ManuallyCalls(db, id, s, now, after)
    case OpStart(id, now) => if Startable(db, id) then after == StartReceiving(db, id, now) else after == db
    case OpComplete(id, now) =>
      if CompleteVerdict(db, id) == Done then Closes(db, id, CompletedRow(db.rows[id], now), CompletedEvent, now, after) else after == db
    case OpCancel(id, reason, now) =>
      if CancelVerdict(db, id) == Done then Closes(db, id, CancelledRow(db.rows[id], reason, now), CancelledEvent, now, after) else after == db
    case OpArchive(input) => CalledArchive(db, input) && Archives(db, input, after)
    case OpClose(id, scope, now) => ClosesOne(db, id, scope, now, after)
    case OpPurge(ids) => after == Purge(db, ids)
    case OpReconcile(s, preserve) => Reconciles(db, s, preserve, after)
    case OpSetManual(s, status) =>
      s in db.slots && IsManual(status)
      && Reconciles(db.(slots := db.slots[s := db.slots[s].(status := status)]), s, true, after)
  }

  // ---- the record of one delivery -----------------------------------------------------------

  /** The closing events a delivery with this status has had. */
  function ClosingsOf(status: Status): seq<EventKind> {
    match status
    case Completed => [CompletedEvent]
    case Cancelled => [CancelledEvent]
    case _ => []
  }

  function CloseKind(final: FinalStatus): EventKind {
    match final
    case FinalCompleted => CompletedEvent
    case FinalCancelled => CancelledEvent
    case FinalExpired => ExpiredNoShowEvent
    case FinalIncompleted => IncompletedEvent
  }

  /** An operational row and its events agree. */
  predicate LiveOk(row: Delivery, t: Trail) {
    && row.status != Expired && row.status != Incompleted
    && t.status == Some(row.status)
    && t.registered == 1
    && t.closings == ClosingsOf(row.status)
  }

  /** A history row agrees with the row it was taken from. */
  predicate SnapshotOf(h: History, row: Delivery) {
    && StatusOf(h.final) == row.status
    && h.plate == row.plate && h.requested == row.requested && h.registeredAt == row.createdAt
    && h.completed == row.completed && h.slot == row.slot
  }

  /** A history row and the events of its delivery agree. */
  predicate ArchivedOk(h: History, t: Trail) {
    && t.status == Some(StatusOf(h.final))
    && t.registered == 1
    && t.closings == [CloseKind(h.final)]
    && h.callCount == t.calls
  }

  ghost predicate RecordOk(db: Db, id: DeliveryId) {
    var t := TrailOf(db.log, id);
    && (id in db.rows ==> LiveOk(db.rows[id], t))
    && (id in db.history ==> ArchivedOk(db.history[id], t))
    && (id in db.rows && id in db.history ==> SnapshotOf(db.history[id], db.rows[id]))
    && (id !in db.rows && id !in db.history ==> t == NO_TRAIL)
  }

  /** The invariant of every run. */
  ghost predicate Recorded(db: Db) {
    Replays(db.log) && forall id :: RecordOk(db, id)
  }

  /** The step changes the row, history and events of `id` alone. */
  ghost predicate Touches(db: Db, id: DeliveryId, after: Db) {
    forall o :: o != id ==>
      && (o in after.rows <==> o in db.rows) && (o in db.rows ==> after.rows[o] == db.rows[o])
      && (o in after.history <==> o in db.history) && (o in db.history ==> after.history[o] == db.history[o])
      && TrailOf(after.log, o) == TrailOf(db.log, o)
  }

  lemma TouchKeepsRecords(db: Db, id: DeliveryId, after: Db)
    requires Recorded(db) && Touches(db, id, after) && Replays(after.log) && RecordOk(after, id)
    ensures Recorded(after)
  {
    forall o ensures RecordOk(after, o) {
      assert RecordOk(db, o);
    }
  }

  /** The same rows, history and events: slots and configuration play no part. */
  lemma SameTablesKeepRecords(db: Db, after: Db)
    requires Recorded(db) && after.rows == db.rows && after.history == db.history && after.log == db.log
    ensures Recorded(after)
  {
    forall o ensures RecordOk(after, o) {
      assert RecordOk(db, o);
    }
  }

  /** A step that writes one row and one event. */
  lemma OneEventKeepsRecords(db: Db, id: DeliveryId, row: Delivery, e: Event, after: Db)
    requires Recorded(db) && e.id == id && id !in db.history
    requires after.rows == db.rows[id := row] && after.log == db.log + [e] && after.history == db.history
    requires e.from.Some? ==> TrailOf(db.log, id).status == e.from
    requires LiveOk(row, Extend(TrailOf(db.log, id), e))
    ensures Recorded(after)
  {
    forall o ensures TrailOf(after.log, o) == if o == id then Extend(TrailOf(db.log, id), e) else TrailOf(db.log, o) {
      TrailSnoc(db.log, e, o);
    }
    TrailSnoc(db.log, e, id);
    TouchKeepsRecords(db, id, after);
  }

  /** Only terminal rows have a history row beside them. */
  lemma NonTerminalHasNoHistory(db: Db, id: DeliveryId)
    requires Recorded(db) && id in db.rows && !IsTerminal(db.rows[id].status)
    ensures id !in db.history
  {
    assert RecordOk(db, id);
  }

  // ---- every step keeps the records ---------------------------------------------------------

  lemma RegisterKeepsRecords(db: Db, id: DeliveryId, form: Form, now: int)
    requires Recorded(db) && Unseen(db, id)
    ensures Recorded(RegisterNew(db, id, form, now))
  {
    OneEventKeepsRecords(db, id, Registration(form, now), Event(id, RegisteredEvent, None, Some(Registered), now), RegisterNew(db, id, form, now));
  }

  lemma ReregisterKeepsRecords(db: Db, id: DeliveryId, form: Form, now: int)
    requires Recorded(db) && Reregistrable(db, id)
    ensures Recorded(Reregister(db, id, form, now))
  {
    NonTerminalHasNoHistory(db, id);
    assert RecordOk(db, id);
    TouchKeepsRecords(db, id, Reregister(db, id, form, now));
  }

  lemma CheckInKeepsRecords(db: Db, id: DeliveryId, vendorMatches: bool, ticket: nat, now: int, after: Db)
    requires Recorded(db) && id in db.rows && db.rows[id].status == Registered && ResolveGoods(db.rows[id], vendorMatches).Some?
    requires after == CheckIn(db, id, vendorMatches, ticket, now)
    ensures Recorded(after)
  {
    NonTerminalHasNoHistory(db, id);
    assert RecordOk(db, id);
    OneEventKeepsRecords(db, id, after.rows[id], Event(id, CheckedInEvent, Some(Registered), Some(Waiting), now), after);
  }

  lemma CallKeepsRecords(db: Db, id: DeliveryId, s: SlotId, now: int, kind: EventKind, after: Db)
    requires Recorded(db) && CallsInto(db, id, s, now, kind, after)
    requires db.rows[id].status == Waiting || db.rows[id].status == Called
    requires IsCall(kind)
    ensures Recorded(after)
  {
    CallEffect(db, id, s, now, kind, after);
    NonTerminalHasNoHistory(db, id);
    assert RecordOk(db, id);
    OneEventKeepsRecords(db, id, CalledRow(db.rows[id], s, now), Event(id, kind, Some(db.rows[id].status), Some(Called), now), after);
  }

  lemma RecallKeepsRecords(db: Db, id: DeliveryId, s: SlotId, now: int)
    requires Recorded(db) && id in db.rows && s in db.slots && db.rows[id].status == Called
    ensures Recorded(RecallWrites(db, id, s, now))
  {
    NonTerminalHasNoHistory(db, id);
    assert RecordOk(db, id);
    assert db.rows[id := db.rows[id]] == db.rows;
    OneEventKeepsRecords(db, id, db.rows[id], Event(id, RecalledEvent, Some(Called), Some(Called), now), RecallWrites(db, id, s, now));
  }

  lemma StartKeepsRecords(db: Db, id: DeliveryId, now: int, after: Db)
    requires Recorded(db) && Startable(db, id) && after == StartReceiving(db, id, now)
    ensures Recorded(after)
  {
    NonTerminalHasNoHistory(db, id);
    assert RecordOk(db, id);
    OneEventKeepsRecords(db, id, after.rows[id], after.log[|db.log|], after);
  }

  lemma CloseKeepsRecords(db: Db, id: DeliveryId, row: Delivery, kind: EventKind, now: int, after: Db)
    requires Recorded(db) && Closes(db, id, row, kind, now, after) && !IsTerminal(db.rows[id].status)
    requires IsTerminal(row.status) && ClosingsOf(row.status) == [kind]
    ensures Recorded(after)
  {
    NonTerminalHasNoHistory(db, id);
    assert RecordOk(db, id);
    var e := Event(id, kind, Some(db.rows[id].status), Some(row.status), now);
    ReleasesKeepsTables(WithRow(db, id, row, e), db.rows[id].slot, true, after);
    OneEventKeepsRecords(db, id, row, e, after);
  }

  // ---- archiving ----------------------------------------------------------------------------

  /** What archiving does to the trail of the archived delivery. */
  function ArchivedTrail(t: Trail, input: ArchiveInput, status: Status): Trail {
    if input.reason in t.closings then t else Trail(Some(status), t.registered, t.closings + [input.reason], t.calls)
  }

  lemma ClosedLogTrail(db: Db, input: ArchiveInput, o: DeliveryId)
    requires input.id in db.rows && Replays(db.log) && TrailOf(db.log, input.id).registered == 1 && IsClosing(input.reason)
    ensures Replays(ClosedLog(db, input))
    ensures TrailOf(ClosedLog(db, input), o) ==
              if o == input.id then ArchivedTrail(TrailOf(db.log, o), input, db.rows[o].status) else TrailOf(db.log, o)
  {
    var row := db.rows[input.id];
    TrailSnoc(db.log, Event(input.id, input.reason, None, Some(row.status), input.at), o);
  }

  /** Once archived the log gains at most the ARCHIVED event, which replays to the same status. */
  lemma ArchivedLogTrail(db: Db, input: ArchiveInput, o: DeliveryId)
    requires input.id in db.rows && Replays(ClosedLog(db, input))
    requires TrailOf(ClosedLog(db, input), input.id).status == Some(db.rows[input.id].status)
    ensures Replays(ArchivedLog(db, input).log)
    ensures TrailOf(ArchivedLog(db, input).log, o) == TrailOf(ClosedLog(db, input), o)
  {
    TrailSnoc(ClosedLog(db, input), Event(input.id, ArchivedEvent, Some(db.rows[input.id].status), None, input.at), o);
  }

  /** A delivery whose row is about to be archived under `input`: terminal as it stands, or marked by the daily close. */
  predicate ReadyToArchive(db: Db, input: ArchiveInput) {
    && input.id in db.rows
    && StatusOf(input.final) == db.rows[input.id].status && CloseKind(input.final) == input.reason
    && var t := TrailOf(db.log, input.id);
    && t.registered == 1
    && (if IsTerminal(db.rows[input.id].status) then t.status == Some(db.rows[input.id].status) && t.closings == [input.reason] else t.closings == [])
    && (input.id in db.history ==> SnapshotOf(db.history[input.id], db.rows[input.id]))
  }

  lemma ArchiveKeepsRecords(db: Db, input: ArchiveInput, after: Db)
    requires Replays(db.log) && (forall o :: o != input.id ==> RecordOk(db, o))
    requires ReadyToArchive(db, input) && Archives(db, input, after) && ArchiveVerdict(db, input).Archived?
    requires !input.deleteRow ==> IsTerminal(db.rows[input.id].status)
    ensures Recorded(after)
    ensures input.id in after.history && after.history[input.id].final == input.final
  {
    ArchiveEffect(db, input, after);
    ClosedLogTrail(db, input, input.id);
    ArchivedLogTrail(db, input, input.id);
    forall o | o != input.id ensures RecordOk(after, o) {
      assert RecordOk(db, o);
      ClosedLogTrail(db, input, o);
      ArchivedLogTrail(db, input, o);
    }
    assert RecordOk(after, input.id);
  }

  lemma CalledArchiveKeepsRecords(db: Db, input: ArchiveInput, after: Db)
    requires Recorded(db) && CalledArchive(db, input) && Archives(db, input, after)
    ensures Recorded(after)
  {
    if ArchiveVerdict(db, input).Archived? {
      assert RecordOk(db, input.id);
      ArchiveKeepsRecords(db, input, after);
    }
  }

  lemma DailyCloseKeepsRecords(db: Db, id: DeliveryId, scope: CloseScope, now: int, after: Db)
    requires Recorded(db) && ClosesOne(db, id, scope, now, after)
    ensures Recorded(after)
  {
    if id in db.rows && Closable(db, db.rows[id], scope) {
      NonTerminalHasNoHistory(db, id);
      assert RecordOk(db, id);
      var marked := Marked(db, id, now);
      forall o | o != id ensures RecordOk(marked, o) {
        assert RecordOk(db, o);
      }
      ArchiveKeepsRecords(marked, CloseInput(id, db.rows[id], now), after);
    }
  }

  lemma PurgeKeepsRecords(db: Db, ids: set<DeliveryId>)
    requires Recorded(db)
    ensures Recorded(Purge(db, ids))
  {
    forall o ensures RecordOk(Purge(db, ids), o) {
      assert RecordOk(db, o);
    }
  }

  /** Every step keeps the invariant. */
  lemma StepKeepsRecords(db: Db, op: Op, after: Db)
    requires Recorded(db) && Step(db, op, after)
    ensures Recorded(after)
  {
    match op {
      case OpRegister(id, form, now) => RegisterKeepsRecords(db, id, form, now);
      case OpReregister(id, form, now) => ReregisterKeepsRecords(db, id, form, now);
      case OpCheckIn(id, expected, vendorMatches, ticket, now) =>
        if after != db { CheckInKeepsRecords(db, id, vendorMatches, ticket, now, after); }
      case OpAutoAssign(s, unit, next, now) =>
        if Assignable(db, s, unit) { CallKeepsRecords(db, next, s, now, AutoAssignedEvent, after); }
      case OpManualCall(id, s, now) => ManualCallKeepsRecords(db, id, s, now, after);
      case OpStart(id, now) => if Startable(db, id) { StartKeepsRecords(db, id, now, after); }
      case OpComplete(id, now) =>
        if CompleteVerdict(db, id) == Done { CloseKeepsRecords(db, id, CompletedRow(db.rows[id], now), CompletedEvent, now, after); }
      case OpCancel(id, reason, now) =>
        if CancelVerdict(db, id) == Done { CloseKeepsRecords(db, id, CancelledRow(db.rows[id], reason, now), CancelledEvent, now, after); }
      case OpArchive(input) => CalledArchiveKeepsRecords(db, input, after);
      case OpClose(id, scope, now) => DailyCloseKeepsRecords(db, id, scope, now, after);
      case OpPurge(ids) => PurgeKeepsRecords(db, ids);
      case OpReconcile(s, preserve) =>
        ReconcileKeepsOthers(db, s, preserve, after, s);
        SameTablesKeepRecords(db, after);
      case OpSetManual(s, status) =>
        ReconcileKeepsOthers(db.(slots := db.slots[s := db.slots[s].(status := status)]), s, true, after, s);
        SameTablesKeepRecords(db, after);
    }
  }

  lemma ManualCallKeepsRecords(db: Db, id: DeliveryId, s: SlotId, now: int, after: Db)
    requires Recorded(db) && ManuallyCalls(db, id, s, now, after)
    ensures Recorded(after)
  {
    match CallVerdict(db, id, s) {
      case Call => CallKeepsRecords(db, id, s, now, CallKind(db.rows[id].status), after);
      case Recall => RecallKeepsRecords(db, id, s, now);
      case _ =>
    }
  }

  /** The archive call after a completion is a step: it leaves the row, and beside it a history row that says COMPLETED. */
  lemma CompletionIsArchived(db: Db, id: DeliveryId, now: int, mid: Db, at: int, after: Db)
    requires Recorded(db) && CompleteVerdict(db, id) == Done && Step(db, OpComplete(id, now), mid)
    requires Archives(mid, ArchiveInput(id, FinalCompleted, CompletedEvent, at, false, None, None), after)
    ensures Step(mid, OpArchive(ArchiveInput(id, FinalCompleted, CompletedEvent, at, false, None, None)), after)
    ensures after.rows == mid.rows && id in after.rows && after.rows[id].status == Completed && after.rows[id].completed == Some(now)
    ensures id in after.history && after.history[id].final == FinalCompleted && after.history[id].completed == Some(now)
  {
    var input := ArchiveInput(id, FinalCompleted, CompletedEvent, at, false, None, None);
    var row := CompletedRow(db.rows[id], now);
    ReleasesKeepsTables(WithRow(db, id, row, Event(id, CompletedEvent, Some(db.rows[id].status), Some(Completed), now)), db.rows[id].slot, true, mid);
    ArchiveEffect(mid, input, after);
  }
}
