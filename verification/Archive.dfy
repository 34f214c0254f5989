/** Archiving: the history row, the events that complete the log, and the removal of the operational row. */
module Archive {
  import opened Types
  import opened Store
  import opened SlotState
  import opened Lifecycle
  import opened Trails

  /** `reason` is the closing event the archive reason maps to. */
  datatype ArchiveInput = ArchiveInput(
    id: DeliveryId,
    final: FinalStatus,
    reason: EventKind,
    at: int,
    deleteRow: bool,
    expected: Option<Status>,
    updatedBefore: Option<int>)

  datatype ArchiveOutcome = RowMissing | Refused | Archived(deleted: bool)

  function ArchiveVerdict(db: Db, input: ArchiveInput): ArchiveOutcome {
    if input.id !in db.rows then RowMissing
    else if input.expected.Some? && db.rows[input.id].status != input.expected.value then Refused
    else if input.updatedBefore.Some? && db.rows[input.id].updatedAt > input.updatedBefore.value then Refused
    else Archived(input.deleteRow)
  }

  /** Location of the slot the delivery holds, else of its own unit config. */
  function ScopeLocation(db: Db, row: Delivery): Option<LocationId> {
    if row.slot.Some? && row.slot.value in db.slots && db.slots[row.slot.value].config in db.configs
    then Some(db.configs[db.slots[row.slot.value].config])
    else if row.config.Some? && row.config.value in db.configs then Some(db.configs[row.config.value])
    else None
  }

  /** ensureRegisteredEvent */
  function EnsureRegistered(log: seq<Event>, id: DeliveryId, row: Delivery): seq<Event> {
    if TrailOf(log, id).registered > 0 then log
    else log + [Event(id, RegisteredEvent, None, Some(Registered), row.createdAt)]
  }

  /** ensureCloseEvent counts events of the wanted kind only. */
  function EnsureClosed(log: seq<Event>, id: DeliveryId, reason: EventKind, status: Status, at: int): seq<Event> {
    if reason in TrailOf(log, id).closings then log
    else log + [Event(id, reason, None, Some(status), at)]
  }

  function ClosedLog(db: Db, input: ArchiveInput): seq<Event>
    requires input.id in db.rows
  {
    var row := db.rows[input.id];
    EnsureClosed(EnsureRegistered(db.log, input.id, row), input.id, input.reason, row.status, input.at)
  }

  /** The history row: created whole, or refreshed in the columns the update branch lists. */
  function HistoryRow(db: Db, input: ArchiveInput): History
    requires input.id in db.rows
  {
    var row := db.rows[input.id];
    var calls := TrailOf(ClosedLog(db, input), input.id).calls;
    if input.id in db.history then
      db.history[input.id].(location := ScopeLocation(db, row), final := input.final, completed := row.completed, callCount := calls)
    else
      History(input.final, ScopeLocation(db, row), row.plate, row.requested, row.createdAt, row.completed, row.slot, calls)
  }

  /** Events and history row, before the operational row is deleted. */
  function ArchiveWrites(db: Db, input: ArchiveInput): Db
    requires input.id in db.rows
  {
    db.(log := ClosedLog(db, input), history := db.history[input.id := HistoryRow(db, input)])
  }

  function ArchivedLog(db: Db, input: ArchiveInput): Db
    requires input.id in db.rows
  {
    var written := ArchiveWrites(db, input);
    written.(log := written.log + [Event(input.id, ArchivedEvent, Some(db.rows[input.id].status), None, input.at)])
  }

  /** `mid` is the state after the slot is reconciled, which here ignores manual statuses. */
  ghost predicate DeletesVia(db: Db, input: ArchiveInput, mid: Db, after: Db)
    requires input.id in db.rows
  {
    && Releases(ArchivedLog(db, input), db.rows[input.id].slot, false, mid)
    && after == mid.(rows := mid.rows - {input.id})
  }

  /** `after` is an outcome of archiveDeliveryInTransaction. */
  ghost predicate Archives(db: Db, input: ArchiveInput, after: Db) {
    match ArchiveVerdict(db, input)
    case Archived(true) => exists mid :: DeletesVia(db, input, mid, after)
    case Archived(false) => after == ArchiveWrites(db, input)
    case _ => after == db
  }

  method ArchiveDelivery(t: Tables, input: ArchiveInput) returns (outcome: ArchiveOutcome)
    modifies t
    ensures outcome == ArchiveVerdict(old(t.Snapshot()), input)
    ensures Archives(old(t.Snapshot()), input, t.Snapshot())
  {
    var id := input.id;
    if id !in t.rows {
      return RowMissing;
    }
    var row := t.rows[id];
    if input.expected.Some? && row.status != input.expected.value {
      return Refused;
    }
    if input.updatedBefore.Some? && row.updatedAt > input.updatedBefore.value {
      return Refused;
    }
    WriteHistory(t, input);
    if input.deleteRow {
      DeleteRow(t, input, old(t.Snapshot()));
    }
    return Archived(input.deleteRow);
  }

  method WriteHistory(t: Tables, input: ArchiveInput)
    requires input.id in t.rows
    modifies t
    ensures t.Snapshot() == ArchiveWrites(old(t.Snapshot()), input)
  {
    var id, row := input.id, t.rows[input.id];
    var location := ScopeLocation(t.Snapshot(), row);
    if TrailOf(t.log, id).registered == 0 {
      t.log := t.log + [Event(id, RegisteredEvent, None, Some(Registered), row.createdAt)];
    }
    if input.reason !in TrailOf(t.log, id).closings {
      t.log := t.log + [Event(id, input.reason, None, Some(row.status), input.at)];
    }
    var calls := TrailOf(t.log, id).calls;
    var entry := if id in t.history
      then t.history[id].(location := location, final := input.final, completed := row.completed, callCount := calls)
      else History(input.final, location, row.plate, row.requested, row.createdAt, row.completed, row.slot, calls);
    t.history := t.history[id := entry];
  }

  method DeleteRow(t: Tables, input: ArchiveInput, ghost db: Db)
    requires input.id in db.rows && t.Snapshot() == ArchiveWrites(db, input)
    modifies t
    ensures exists mid :: DeletesVia(db, input, mid, t.Snapshot())
  {
    var row := t.rows[input.id];
    t.log := t.log + [Event(input.id, ArchivedEvent, Some(row.status), None, input.at)];
    assert t.Snapshot() == ArchivedLog(db, input);
    ReleaseSlot(t, row.slot, false);
    ghost var mid := t.Snapshot();
    t.rows := t.rows - {input.id};
    assert DeletesVia(db, input, mid, t.Snapshot());
  }

  /** Archiving touches one delivery: its row, its history row, its events. */
  lemma ArchiveEffect(db: Db, input: ArchiveInput, after: Db)
    requires Archives(db, input, after) && ArchiveVerdict(db, input).Archived?
    ensures after.history == db.history[input.id := HistoryRow(db, input)]
    ensures after.rows == if input.deleteRow then db.rows - {input.id} else db.rows
    ensures after.log == if input.deleteRow then ArchivedLog(db, input).log else ClosedLog(db, input)
    ensures after.configs == db.configs && after.slots.Keys == db.slots.Keys
  {
    if input.deleteRow {
      var mid :| DeletesVia(db, input, mid, after);
      ReleasesKeepsTables(ArchivedLog(db, input), db.rows[input.id].slot, false, mid);
    }
  }

  /** The location an archived delivery is filed under, in the columns: that of the slot it held or, when that is unknown,
      that of its own unit config. */
  lemma ArchivedAt(db: Db, input: ArchiveInput, after: Db, location: LocationId)
    requires Archives(db, input, after) && ArchiveVerdict(db, input).Archived?
    ensures input.id in after.history
    ensures
      var row := db.rows[input.id];
      after.history[input.id].location == Some(location) <==>
        if row.slot.Some? && row.slot.value in db.slots && db.slots[row.slot.value].config in db.configs
        then db.configs[db.slots[row.slot.value].config] == location
        else row.config.Some? && row.config.value in db.configs && db.configs[row.config.value] == location
  {
    ArchiveEffect(db, input, after);
  }

  /** Which rows are archived, in the columns: those there with the expected status, if one is expected, and not updated
      after the given time, if one is given. */
  lemma ArchivedExactly(db: Db, input: ArchiveInput)
    ensures ArchiveVerdict(db, input) == Archived(input.deleteRow) <==>
              && input.id in db.rows
              && (input.expected == None || input.expected == Some(db.rows[input.id].status))
              && (input.updatedBefore == None || db.rows[input.id].updatedAt <= input.updatedBefore.value)
    ensures ArchiveVerdict(db, input) == RowMissing <==> input.id !in db.rows
  {
  }

  /** What archiving logs: the REGISTERED event if the log has none of the delivery, the closing event if it has none of that
      kind, and the ARCHIVED event if the row goes. */
  lemma ArchiveLogs(db: Db, input: ArchiveInput, after: Db)
    requires Archives(db, input, after) && ArchiveVerdict(db, input).Archived? && IsClosing(input.reason)
    ensures
      var id, row := input.id, db.rows[input.id];
      var registered := if Positions(db.log, id, {RegisteredEvent}) != {} then []
                        else [Event(id, RegisteredEvent, None, Some(Registered), row.createdAt)];
      var closed := if Positions(db.log, id, {input.reason}) != {} then []
                    else [Event(id, input.reason, None, Some(row.status), input.at)];
      var archived := if input.deleteRow then [Event(id, ArchivedEvent, Some(row.status), None, input.at)] else [];
      after.log == db.log + registered + closed + archived
  {
    ArchiveEffect(db, input, after);
    RegisteredOnce(db.log, input.id, db.rows[input.id], input.reason);
    hide Archives, Positions, TrailOf, EnsureRegistered;
    ClosedOnce(EnsureRegistered(db.log, input.id, db.rows[input.id]), input.id, input.reason, db.rows[input.id].status, input.at);
  }

  lemma RegisteredOnce(log: seq<Event>, id: DeliveryId, row: Delivery, reason: EventKind)
    requires IsClosing(reason)
    ensures
      var all := EnsureRegistered(log, id, row);
      && all == log + (if Positions(log, id, {RegisteredEvent}) != {} then []
                       else [Event(id, RegisteredEvent, None, Some(Registered), row.createdAt)])
      && (Positions(all, id, {reason}) != {} <==> Positions(log, id, {reason}) != {})
  {
    CountersCount(log, id);
    var e := Event(id, RegisteredEvent, None, Some(Registered), row.createdAt);
    TrailSnoc(log, e, id);
    ClosingsAre(log, id, reason);
    ClosingsAre(log + [e], id, reason);
    hide TrailOf, Positions;
  }

  lemma ClosedOnce(log: seq<Event>, id: DeliveryId, reason: EventKind, status: Status, at: int)
    requires IsClosing(reason)
    ensures EnsureClosed(log, id, reason, status, at)
            == log + (if Positions(log, id, {reason}) != {} then [] else [Event(id, reason, None, Some(status), at)])
  {
    ClosingsAre(log, id, reason);
    hide TrailOf, Positions;
  }
}
