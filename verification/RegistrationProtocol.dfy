/** registerDelivery when transactions interleave.  Each registration is split at its advisory locks, reads, row lock,
    count and commit; every other service's change of a row is one step under that row's lock.  Advisory lock numbers
    that collide only make more registrations wait for each other; keys are locked as they are. */
module RegistrationProtocol {
  import opened Types
  import opened Arithmetic
  import opened Calendar

  type TxId = nat

  datatype Row = Row(
    plate: Plate,
    config: ConfigId,
    vehicle: Vehicle,
    requested: Option<int>,
    createdAt: int,
    status: Status,
    checkedIn: bool)

  /** A registration.  `cap` is its daily capacity, None when no time window is enabled; `quick` a verified one. */
  datatype Request = Request(plate: Plate, config: ConfigId, vehicle: Vehicle, requested: int, quick: bool, cap: Option<int>)

  /** duplicateRegistrationLockKey */
  datatype PlateKey = PlateKey(location: Option<LocationId>, day: int, plate: Plate)

  /** The lock key of the day's capacity; the unit is the config's. */
  datatype DayLock = DayLock(config: ConfigId, vehicle: Vehicle, day: int)

  datatype Txn =
    | Idle
    | PlateLocked(req: Request)
    | Matched(req: Request, d: DeliveryId)
    | Waited(req: Request, d: DeliveryId)
    | Decided(req: Request, existing: Option<DeliveryId>)
    | Guarded(req: Request, existing: Option<DeliveryId>)
    | Counted(req: Request, existing: Option<DeliveryId>, booked: nat)

  datatype State = State(
    rows: map<DeliveryId, Row>,
    used: set<DeliveryId>,
    locations: map<ConfigId, LocationId>,
    plateLock: map<PlateKey, TxId>,
    dayLock: map<DayLock, TxId>,
    rowLock: map<DeliveryId, TxId>,
    txns: map<TxId, Txn>)

  function TxnOf(st: State, tx: TxId): Txn { if tx in st.txns then st.txns[tx] else Idle }

  function LocationOf(st: State, config: ConfigId): Option<LocationId> {
    if config in st.locations then Some(st.locations[config]) else None
  }

  /** The day a row counts for: of its requested time, else of its creation. */
  function RowDay(row: Row): int { VnDay(if row.requested.Some? then row.requested.value else row.createdAt) }

  function KeyOfRow(st: State, row: Row): PlateKey { PlateKey(LocationOf(st, row.config), RowDay(row), row.plate) }

  function KeyOf(st: State, req: Request): PlateKey { PlateKey(LocationOf(st, req.config), VnDay(req.requested), req.plate) }

  function DayOfRequest(req: Request): DayLock { DayLock(req.config, req.vehicle, VnDay(req.requested)) }

  /** findDuplicateRegistration */
  function Matches(st: State, key: PlateKey): set<DeliveryId> {
    set d | d in st.rows && !IsTerminal(st.rows[d].status) && KeyOfRow(st, st.rows[d]) == key
  }

  predicate IsBooked(status: Status) {
    status == Registered || status == Waiting || IsActive(status)
  }

  /** Rows the daily capacity counts. */
  function Booked(st: State, day: DayLock): set<DeliveryId> {
    set d | d in st.rows && IsBooked(st.rows[d].status) && st.rows[d].requested.Some?
            && DayLock(st.rows[d].config, st.rows[d].vehicle, VnDay(st.rows[d].requested.value)) == day
  }

  datatype Move =
    | LockPlate(req: Request)
    | FindMatches
    | LockExisting
    | Recheck
    | LockDay
    | CountDay
    | Commit(d: DeliveryId, now: int)
    | Rollback
    | Change(d: DeliveryId, status: Status)
    | Remove(d: DeliveryId)

  /** Status changes of the other services. */
  predicate Forward(from: Status, next: Status) {
    (from == Registered && next == Waiting) || (from == Waiting && next == Called)
    || (from == Called && (next == Called || next == Receiving || next == AutoWarehouseReceiving))
    || (IsActive(from) && next == Completed) || (!IsTerminal(from) && next == Cancelled)
  }

  /** A new row, or an existing one for another config or vehicle, needs room on its day. */
  predicate NeedsRoom(st: State, req: Request, existing: Option<DeliveryId>) {
    !req.quick && req.cap.Some?
    && !(existing.Some? && existing.value in st.rows
         && st.rows[existing.value].config == req.config && st.rows[existing.value].vehicle == req.vehicle)
  }

  predicate Enabled(st: State, tx: TxId, move: Move) {
    var t := TxnOf(st, tx);
    match move
    case LockPlate(req) => t.Idle? && KeyOf(st, req) !in st.plateLock
    case FindMatches => t.PlateLocked?
    case LockExisting => t.Matched? && t.d !in st.rowLock
    case Recheck => t.Waited?
    case LockDay => t.Decided? && NeedsRoom(st, t.req, t.existing) && DayOfRequest(t.req) !in st.dayLock
    case CountDay => t.Guarded? && t.req.cap.Some?
    case Commit(d, now) =>
      && (t.Counted? || (t.Decided? && !NeedsRoom(st, t.req, t.existing)))
      && (if t.existing.Some? then t.existing.value == d && d in st.rows else d !in st.used)
    case Rollback => true
    case Change(d, status) => d in st.rows && d !in st.rowLock && Forward(st.rows[d].status, status)
    case Remove(d) => d in st.rows && d !in st.rowLock
  }

  function Advance(st: State, tx: TxId, t: Txn): State { st.(txns := st.txns[tx := t]) }

  function End(st: State, tx: TxId): State {
    st.(plateLock := map k | k in st.plateLock && st.plateLock[k] != tx :: st.plateLock[k],
        dayLock := map k | k in st.dayLock && st.dayLock[k] != tx :: st.dayLock[k],
        rowLock := map d | d in st.rowLock && st.rowLock[d] != tx :: st.rowLock[d],
        txns := st.txns[tx := Idle])
  }

  function Put(st: State, d: DeliveryId, row: Row): State { st.(rows := st.rows[d := row], used := st.used + {d}) }

  function Any(s: set<DeliveryId>): (d: DeliveryId)
    requires |s| == 1
    ensures s == {d}
  {
    var d :| d in s;
    OnlyOne(s, d);
    d
  }

  lemma OnlyOne(s: set<DeliveryId>, d: DeliveryId)
    requires |s| == 1 && d in s
    ensures s == {d}
  {
    assert |s - {d}| == 0;
  }

  function RowOf(st: State, req: Request, existing: Option<DeliveryId>, now: int): Row {
    if existing.Some? && existing.value in st.rows then
      st.rows[existing.value].(plate := req.plate, config := req.config, vehicle := req.vehicle, requested := Some(req.requested))
    else Row(req.plate, req.config, req.vehicle, Some(req.requested), now, Registered, false)
  }

  function Next(st: State, tx: TxId, move: Move): State
    requires Enabled(st, tx, move)
  {
    var t := TxnOf(st, tx);
    match move
    case LockPlate(req) => Advance(st, tx, PlateLocked(req)).(plateLock := st.plateLock[KeyOf(st, req) := tx])
    case FindMatches =>
      var matches := Matches(st, KeyOf(st, t.req));
      if |matches| > 1 then End(st, tx) // DuplicateRegistrationData
      else if |matches| == 1 then Advance(st, tx, Matched(t.req, Any(matches)))
      else Advance(st, tx, Decided(t.req, None))
    case LockExisting => Advance(st, tx, Waited(t.req, t.d)).(rowLock := st.rowLock[t.d := tx])
    case Recheck =>
      if t.d !in st.rows || IsTerminal(st.rows[t.d].status) then Advance(st, tx, Decided(t.req, None))
      else if st.rows[t.d].status != Registered || st.rows[t.d].checkedIn then End(st, tx) // Duplicate
      else Advance(st, tx, Decided(t.req, Some(t.d)))
    case LockDay => Advance(st, tx, Guarded(t.req, t.existing)).(dayLock := st.dayLock[DayOfRequest(t.req) := tx])
    case CountDay =>
      var booked := |Booked(st, DayOfRequest(t.req))|;
      if booked >= t.req.cap.value then End(st, tx) // SlotFullError
      else Advance(st, tx, Counted(t.req, t.existing, booked))
    case Commit(d, now) => End(Put(st, d, RowOf(st, t.req, t.existing, now)), tx)
    case Rollback => End(st, tx)
    case Change(d, status) => Put(st, d, st.rows[d].(status := status, checkedIn := st.rows[d].checkedIn || status == Waiting))
    case Remove(d) => st.(rows := st.rows - {d})
  }

  /** A rollback is possible anywhere; it changes no row and leaves the transaction without locks. */
  lemma RollbackUndoes(st: State, tx: TxId)
    ensures Enabled(st, tx, Rollback)
    ensures
      var after := Next(st, tx, Rollback);
      && after.rows == st.rows && TxnOf(after, tx) == Idle
      && tx !in after.plateLock.Values && tx !in after.dayLock.Values && tx !in after.rowLock.Values
      && (forall k :: k in st.plateLock && st.plateLock[k] != tx ==> k in after.plateLock && after.plateLock[k] == st.plateLock[k])
      && (forall k :: k in st.dayLock && st.dayLock[k] != tx ==> k in after.dayLock && after.dayLock[k] == st.dayLock[k])
      && (forall d :: d in st.rowLock && st.rowLock[d] != tx ==> d in after.rowLock && after.rowLock[d] == st.rowLock[d])
  {
  }

  // ---- one live registration ----------------------------------------------------------------

  predicate HoldsPlate(st: State, tx: TxId, key: PlateKey) { key in st.plateLock && st.plateLock[key] == tx }
  predicate HoldsDay(st: State, tx: TxId, day: DayLock) { day in st.dayLock && st.dayLock[day] == tx }
  predicate HoldsRow(st: State, tx: TxId, d: DeliveryId) { d in st.rowLock && st.rowLock[d] == tx }

  /** A row, if it is still there, belongs to the key; deleted ids are not used again. */
  predicate OfKey(st: State, d: DeliveryId, key: PlateKey) {
    d in st.used && (d in st.rows ==> KeyOfRow(st, st.rows[d]) == key)
  }

  predicate ExistingOk(st: State, tx: TxId, req: Request, existing: Option<DeliveryId>) {
    && HoldsPlate(st, tx, KeyOf(st, req))
    && match existing
       case None => Matches(st, KeyOf(st, req)) == {}
       case Some(d) =>
         && HoldsRow(st, tx, d) && d in st.rows && OfKey(st, d, KeyOf(st, req))
         && Matches(st, KeyOf(st, req)) <= {d} && st.rows[d].status == Registered && !st.rows[d].checkedIn
  }

  predicate TxnOk(st: State, tx: TxId, t: Txn) {
    match t
    case Idle => true
    case PlateLocked(req) => HoldsPlate(st, tx, KeyOf(st, req))
    case Matched(req, d) =>
      HoldsPlate(st, tx, KeyOf(st, req)) && OfKey(st, d, KeyOf(st, req)) && Matches(st, KeyOf(st, req)) <= {d}
    case Waited(req, d) =>
      HoldsPlate(st, tx, KeyOf(st, req)) && OfKey(st, d, KeyOf(st, req)) && Matches(st, KeyOf(st, req)) <= {d} && HoldsRow(st, tx, d)
    case Decided(req, existing) => ExistingOk(st, tx, req, existing)
    case Guarded(req, existing) =>
      ExistingOk(st, tx, req, existing) && HoldsDay(st, tx, DayOfRequest(req)) && NeedsRoom(st, req, existing)
    case Counted(req, existing, booked) =>
      ExistingOk(st, tx, req, existing) && HoldsDay(st, tx, DayOfRequest(req)) && NeedsRoom(st, req, existing)
  }

  predicate OneMatch(st: State, key: PlateKey) { |Matches(st, key)| <= 1 }

  ghost predicate Unique(st: State) { forall key :: OneMatch(st, key) }

  ghost predicate Inv(st: State) {
    Unique(st) && st.rows.Keys <= st.used && forall tx :: TxnOk(st, tx, TxnOf(st, tx))
  }

  /** What a step of `tx` leaves to another transaction `o`: its position and locks, its locked rows, the keys of rows,
      and no new match of a key it has locked. */
  ghost predicate Leaves(st: State, after: State, o: TxId) {
    && TxnOf(after, o) == TxnOf(st, o) && after.locations == st.locations && st.used <= after.used
    && (forall k :: HoldsPlate(st, o, k) ==> HoldsPlate(after, o, k) && Matches(after, k) <= Matches(st, k))
    && (forall k :: HoldsDay(st, o, k) ==> HoldsDay(after, o, k))
    && (forall d :: HoldsRow(st, o, d) ==> HoldsRow(after, o, d) && (d in st.rows ==> d in after.rows && after.rows[d] == st.rows[d]))
    && (forall d :: d in st.used && d in after.rows ==> d in st.rows && KeyOfRow(after, after.rows[d]) == KeyOfRow(st, st.rows[d]))
  }

  lemma LeavesTxnOk(st: State, after: State, o: TxId)
    requires Leaves(st, after, o) && TxnOk(st, o, TxnOf(st, o))
    ensures TxnOk(after, o, TxnOf(after, o))
  {
    var t := TxnOf(st, o);
    hide Matches, KeyOfRow, RowDay;
    if !t.Idle? {
      assert KeyOf(after, t.req) == KeyOf(st, t.req);
      assert HoldsPlate(st, o, KeyOf(st, t.req));
    }
  }

  lemma EndKeepsLocks(st: State, tx: TxId, o: TxId)
    requires o != tx
    ensures LeavesLocks(st, End(st, tx), o)
  {
  }

  lemma SameRows(st: State, after: State)
    requires after.rows == st.rows && after.locations == st.locations
    ensures forall k :: Matches(after, k) == Matches(st, k)
    ensures forall row :: KeyOfRow(after, row) == KeyOfRow(st, row)
    ensures forall req :: KeyOf(after, req) == KeyOf(st, req)
  {
  }

  predicate Quiet(move: Move) { !move.Commit? && !move.Change? && !move.Remove? }

  /** Rows stay; `tx` ended or took one free lock. */
  ghost predicate Stepped(st: State, after: State, tx: TxId) {
    after == End(st, tx)
    || (&& after == st.(txns := st.txns[tx := TxnOf(after, tx)], plateLock := after.plateLock, dayLock := after.dayLock, rowLock := after.rowLock)
        && (after.plateLock == st.plateLock || exists k: PlateKey :: k !in st.plateLock && after.plateLock == st.plateLock[k := tx])
        && (after.dayLock == st.dayLock || exists k: DayLock :: k !in st.dayLock && after.dayLock == st.dayLock[k := tx])
        && (after.rowLock == st.rowLock || exists d: DeliveryId :: d !in st.rowLock && after.rowLock == st.rowLock[d := tx]))
  }

  lemma QuietSteps(st: State, tx: TxId, move: Move)
    requires Enabled(st, tx, move) && Quiet(move)
    ensures Stepped(st, Next(st, tx, move), tx)
  {
    hide Matches, Booked, KeyOf, DayOfRequest, NeedsRoom, IsTerminal, End, Any;
    if move.LockPlate? || move.LockExisting? || move.LockDay? {
      LockSteps(st, tx, move);
    }
  }

  lemma LockSteps(st: State, tx: TxId, move: Move)
    requires Enabled(st, tx, move) && (move.LockPlate? || move.LockExisting? || move.LockDay?)
    ensures Stepped(st, Next(st, tx, move), tx)
  {
    hide Matches, Booked, KeyOf, DayOfRequest, NeedsRoom, IsTerminal, End, Any;
  }

  lemma SteppedLeaves(st: State, after: State, tx: TxId, o: TxId)
    requires Stepped(st, after, tx) && o != tx
    ensures Leaves(st, after, o)
  {
    SteppedRows(st, after, tx);
    SteppedLocks(st, after, tx, o);
    SameRows(st, after);
    hide *;
    LeavesIs(st, after, o);
  }

  lemma LeavesIs(st: State, after: State, o: TxId)
    requires after.rows == st.rows && after.used == st.used && after.locations == st.locations && LeavesLocks(st, after, o)
    requires forall k :: Matches(after, k) == Matches(st, k)
    requires forall row :: KeyOfRow(after, row) == KeyOfRow(st, row)
    ensures Leaves(st, after, o)
  {
    hide Matches, KeyOfRow;
  }

  ghost predicate LeavesLocks(st: State, after: State, o: TxId) {
    && TxnOf(after, o) == TxnOf(st, o)
    && (forall k :: HoldsPlate(st, o, k) ==> HoldsPlate(after, o, k))
    && (forall k :: HoldsDay(st, o, k) ==> HoldsDay(after, o, k))
    && (forall d :: HoldsRow(st, o, d) ==> HoldsRow(after, o, d))
  }

  lemma SteppedLocks(st: State, after: State, tx: TxId, o: TxId)
    requires Stepped(st, after, tx) && o != tx
    ensures LeavesLocks(st, after, o)
  {
    EndKeepsLocks(st, tx, o);
    hide End;
  }

  /** The transaction's own position after a step that changes no row. */
  lemma FindKeepsOwn(st: State, tx: TxId)
    requires Enabled(st, tx, FindMatches) && TxnOk(st, tx, TxnOf(st, tx)) && st.rows.Keys <= st.used
    ensures TxnOk(Next(st, tx, FindMatches), tx, TxnOf(Next(st, tx, FindMatches), tx))
  {
    SameRows(st, Next(st, tx, FindMatches));
    var matches := Matches(st, KeyOf(st, TxnOf(st, tx).req));
    if |matches| == 1 {
      assert Any(matches) in matches;
    }
  }

  lemma QuietKeepsOwn(st: State, tx: TxId, move: Move)
    requires Enabled(st, tx, move) && Quiet(move) && TxnOk(st, tx, TxnOf(st, tx)) && st.rows.Keys <= st.used
    ensures TxnOk(Next(st, tx, move), tx, TxnOf(Next(st, tx, move), tx))
  {
    if move.FindMatches? {
      FindKeepsOwn(st, tx);
    } else if move.Recheck? {
      RecheckKeepsOwn(st, tx);
    } else if move.LockDay? || move.CountDay? {
      DayKeepsOwn(st, tx, move);
    } else {
      SameRows(st, Next(st, tx, move));
      hide Matches, Booked, KeyOfRow;
    }
  }

  lemma DayKeepsOwn(st: State, tx: TxId, move: Move)
    requires Enabled(st, tx, move) && (move.LockDay? || move.CountDay?) && TxnOk(st, tx, TxnOf(st, tx))
    ensures TxnOk(Next(st, tx, move), tx, TxnOf(Next(st, tx, move), tx))
  {
    SameRows(st, Next(st, tx, move));
    hide Matches, Booked, KeyOfRow, NeedsRoom;
  }

  lemma RecheckKeepsOwn(st: State, tx: TxId)
    requires Enabled(st, tx, Recheck) && TxnOk(st, tx, TxnOf(st, tx)) && st.rows.Keys <= st.used
    ensures TxnOk(Next(st, tx, Recheck), tx, TxnOf(Next(st, tx, Recheck), tx))
  {
    SameRows(st, Next(st, tx, Recheck));
  }

  lemma QuietKeepsInv(st: State, tx: TxId, move: Move)
    requires Inv(st) && Enabled(st, tx, move) && Quiet(move)
    ensures Inv(Next(st, tx, move))
  {
    var after := Next(st, tx, move);
    QuietSteps(st, tx, move);
    SteppedRows(st, after, tx);
    SameRows(st, after);
    hide Next, Enabled, Matches, TxnOk, Stepped;
    forall key ensures OneMatch(after, key) { assert OneMatch(st, key); }
    forall o ensures TxnOk(after, o, TxnOf(after, o)) {
      assert TxnOk(st, o, TxnOf(st, o));
      if o == tx {
        QuietKeepsOwn(st, tx, move);
      } else {
        SteppedLeaves(st, after, tx, o);
        LeavesTxnOk(st, after, o);
      }
    }
  }

  lemma SteppedRows(st: State, after: State, tx: TxId)
    requires Stepped(st, after, tx)
    ensures after.rows == st.rows && after.used == st.used && after.locations == st.locations
  {
  }

  // ---- steps that change a row --------------------------------------------------------------

  /** A step of another service adds no match of any key. */
  lemma OtherServiceLeaves(st: State, tx: TxId, move: Move, o: TxId)
    requires Enabled(st, tx, move) && (move.Change? || move.Remove?) && st.rows.Keys <= st.used
    ensures Leaves(st, Next(st, tx, move), o)
    ensures forall k :: Matches(Next(st, tx, move), k) <= Matches(st, k)
  {
  }

  lemma OtherServiceKeepsInv(st: State, tx: TxId, move: Move)
    requires Inv(st) && Enabled(st, tx, move) && (move.Change? || move.Remove?)
    ensures Inv(Next(st, tx, move))
  {
    var after := Next(st, tx, move);
    assert after.rows.Keys <= after.used;
    OtherServiceLeaves(st, tx, move, tx);
    forall key ensures OneMatch(after, key) {
      assert OneMatch(st, key);
      SubsetSize(Matches(after, key), Matches(st, key));
    }
    hide Next, Enabled, Matches, TxnOk;
    forall o ensures TxnOk(after, o, TxnOf(after, o)) {
      assert TxnOk(st, o, TxnOf(st, o));
      OtherServiceLeaves(st, tx, move, o);
      LeavesTxnOk(st, after, o);
    }
  }

  /** What the commit of a registration does to the matches. */
  lemma CommitMatches(st: State, tx: TxId, move: Move, k: PlateKey)
    requires Enabled(st, tx, move) && move.Commit? && TxnOk(st, tx, TxnOf(st, tx)) && st.rows.Keys <= st.used
    ensures
      var after := Next(st, tx, move);
      if k == KeyOf(st, TxnOf(st, tx).req) then Matches(after, k) <= {move.d} else Matches(after, k) == Matches(st, k)
  {
    hide VnDay;
  }

  lemma CommitLeaves(st: State, tx: TxId, move: Move, o: TxId)
    requires Enabled(st, tx, move) && move.Commit? && TxnOk(st, tx, TxnOf(st, tx)) && st.rows.Keys <= st.used && o != tx
    ensures Leaves(st, Next(st, tx, move), o)
  {
    var after := Next(st, tx, move);
    CommitLocks(st, tx, move, o);
    CommitRow(st, tx, move);
    hide Next, Enabled, Matches, KeyOf, ExistingOk;
    forall k | HoldsPlate(st, o, k) ensures Matches(after, k) <= Matches(st, k) {
      CommitMatches(st, tx, move, k);
      OwnPlate(st, tx);
    }
    hide KeyOfRow;
  }

  lemma OwnPlate(st: State, tx: TxId)
    requires TxnOk(st, tx, TxnOf(st, tx)) && !TxnOf(st, tx).Idle?
    ensures HoldsPlate(st, tx, KeyOf(st, TxnOf(st, tx).req))
  {
    hide Matches, KeyOf;
  }

  lemma CommitLocks(st: State, tx: TxId, move: Move, o: TxId)
    requires Enabled(st, tx, move) && move.Commit? && o != tx
    ensures LeavesLocks(st, Next(st, tx, move), o)
  {
    var t := TxnOf(st, tx);
    EndKeepsLocks(Put(st, move.d, RowOf(st, t.req, t.existing, move.now)), tx, o);
    hide End, NeedsRoom;
  }

  /** The commit writes one row: a new id, or the row it has locked, which keeps its key. */
  lemma CommitRow(st: State, tx: TxId, move: Move)
    requires Enabled(st, tx, move) && move.Commit? && TxnOk(st, tx, TxnOf(st, tx)) && st.rows.Keys <= st.used
    ensures
      var after := Next(st, tx, move);
      && after.locations == st.locations && after.used == st.used + {move.d} && !TxnOf(st, tx).Idle?
      && move.d in after.rows && after.rows == st.rows[move.d := after.rows[move.d]]
      && (move.d !in st.used
          || (move.d in st.rows && HoldsRow(st, tx, move.d) && KeyOfRow(after, after.rows[move.d]) == KeyOfRow(st, st.rows[move.d])))
      && forall row :: KeyOfRow(after, row) == KeyOfRow(st, row)
  {
    hide VnDay, NeedsRoom, Matches;
  }

  lemma CommitKeepsInv(st: State, tx: TxId, move: Move)
    requires Inv(st) && Enabled(st, tx, move) && move.Commit?
    ensures Inv(Next(st, tx, move))
  {
    var after := Next(st, tx, move);
    assert TxnOk(st, tx, TxnOf(st, tx));
    assert after.rows.Keys <= after.used && TxnOf(after, tx) == Idle;
    hide Next, Enabled, Matches, KeyOf;
    forall key ensures OneMatch(after, key) {
      assert OneMatch(st, key);
      CommitMatches(st, tx, move, key);
      SubsetSize(Matches(after, key), if key == KeyOf(st, TxnOf(st, tx).req) then {move.d} else Matches(st, key));
    }
    forall o ensures TxnOk(after, o, TxnOf(after, o)) {
      if o != tx {
        assert TxnOk(st, o, TxnOf(st, o));
        CommitLeaves(st, tx, move, o);
        LeavesTxnOk(st, after, o);
      }
    }
  }

  lemma MoveKeepsInv(st: State, tx: TxId, move: Move)
    requires Inv(st) && Enabled(st, tx, move)
    ensures Inv(Next(st, tx, move))
  {
    hide Inv, Next, Enabled;
    if Quiet(move) {
      QuietKeepsInv(st, tx, move);
    } else if move.Commit? {
      CommitKeepsInv(st, tx, move);
    } else {
      OtherServiceKeepsInv(st, tx, move);
    }
  }

  // ---- runs ---------------------------------------------------------------------------------

  ghost predicate IsRun(states: seq<State>, moves: seq<(TxId, Move)>) {
    && |states| == |moves| + 1
    && forall i :: 0 <= i < |moves| ==>
         Enabled(states[i], moves[i].0, moves[i].1) && states[i + 1] == Next(states[i], moves[i].0, moves[i].1)
  }

  /** No transaction is under way, and no plate is registered twice at one place on one day. */
  ghost predicate Start(st: State) {
    st.txns == map[] && st.rows.Keys <= st.used && Unique(st)
  }

  lemma {:induction false} RunKeepsInv(states: seq<State>, moves: seq<(TxId, Move)>, n: nat)
    requires IsRun(states, moves) && Start(states[0]) && n <= |moves|
    ensures Inv(states[n])
  {
    hide Next, Enabled, Unique, OneMatch;
    if n > 0 {
      RunKeepsInv(states, moves, n - 1);
      MoveKeepsInv(states[n - 1], moves[n - 1].0, moves[n - 1].1);
    }
  }

  /** In every state of every interleaving, a plate has at most one row per place and Vietnam day that is neither COMPLETED
      nor CANCELLED.  The place is that of the unit config, the day that of the requested time or else of the creation. */
  lemma OneLiveRegistration(states: seq<State>, moves: seq<(TxId, Move)>, n: nat, a: DeliveryId, b: DeliveryId)
    requires IsRun(states, moves) && Start(states[0]) && n <= |moves|
    requires a in states[n].rows && b in states[n].rows
    requires
      var x, y, places := states[n].rows[a], states[n].rows[b], states[n].locations;
      && x.status !in {Completed, Cancelled} && y.status !in {Completed, Cancelled} && x.plate == y.plate
      && (if x.config in places && y.config in places then places[x.config] == places[y.config] else x.config !in places && y.config !in places)
      && VnDay(if x.requested.Some? then x.requested.value else x.createdAt)
         == VnDay(if y.requested.Some? then y.requested.value else y.createdAt)
    ensures a == b
  {
    RunKeepsInv(states, moves, n);
    var key := KeyOfRow(states[n], states[n].rows[a]);
    assert OneMatch(states[n], key);
    if a != b {
      SubsetSize({a, b}, Matches(states[n], key));
    }
  }

  /** So the branch for several matches is never taken. */
  lemma ManyMatchesIsUnreachable(states: seq<State>, moves: seq<(TxId, Move)>, n: nat)
    requires IsRun(states, moves) && Start(states[0]) && n < |moves| && moves[n].1.FindMatches?
    ensures |Matches(states[n], KeyOf(states[n], TxnOf(states[n], moves[n].0).req))| <= 1
    ensures TxnOf(states[n + 1], moves[n].0) != Idle
  {
    RunKeepsInv(states, moves, n);
    assert OneMatch(states[n], KeyOf(states[n], TxnOf(states[n], moves[n].0).req));
  }

  // ---- what a registration is refused for ---------------------------------------------------

  /** In the columns: the row is of the request's plate, place and day, and is neither COMPLETED nor CANCELLED. */
  predicate Duplicates(st: State, row: Row, req: Request) {
    && row.plate == req.plate && row.status !in {Completed, Cancelled}
    && (if row.config in st.locations && req.config in st.locations then st.locations[row.config] == st.locations[req.config]
        else row.config !in st.locations && req.config !in st.locations)
    && VnDay(if row.requested.Some? then row.requested.value else row.createdAt) == VnDay(req.requested)
  }

  lemma MatchesAreDuplicates(st: State, req: Request, d: DeliveryId)
    ensures d in Matches(st, KeyOf(st, req)) <==> d in st.rows && Duplicates(st, st.rows[d], req)
  {
    hide VnDay;
  }

  /** What the search for a duplicate finds in any reachable state: no row and the registration is new, or the one row that
      duplicates it. */
  lemma SearchFinds(st: State, tx: TxId)
    requires Inv(st) && Enabled(st, tx, FindMatches)
    ensures
      var req, t := TxnOf(st, tx).req, TxnOf(Next(st, tx, FindMatches), tx);
      || (t == Decided(req, None) && forall d :: d in st.rows ==> !Duplicates(st, st.rows[d], req))
      || (t.Matched? && t.req == req && t.d in st.rows && Duplicates(st, st.rows[t.d], req)
          && forall d :: d in st.rows && d != t.d ==> !Duplicates(st, st.rows[d], req))
  {
    var req := TxnOf(st, tx).req;
    var key := KeyOf(st, req);
    assert OneMatch(st, key);
    forall d ensures d in Matches(st, key) <==> d in st.rows && Duplicates(st, st.rows[d], req) {
      MatchesAreDuplicates(st, req, d);
    }
    hide Matches, Duplicates, Inv, KeyOf;
    if |Matches(st, key)| == 1 {
      assert Matches(st, key) == {Any(Matches(st, key))};
    }
  }

  /** What the reread under the row lock decides: a row that is still REGISTERED and not checked in is taken over, one that
      is gone, COMPLETED or CANCELLED makes the registration new, any other refuses it. */
  lemma RereadDecides(st: State, tx: TxId)
    requires Enabled(st, tx, Recheck)
    ensures
      var t, after := TxnOf(st, tx), TxnOf(Next(st, tx, Recheck), tx);
      && (after == Decided(t.req, Some(t.d)) <==> t.d in st.rows && st.rows[t.d].status == Registered && !st.rows[t.d].checkedIn)
      && (after == Decided(t.req, None) <==> t.d in st.rows ==> st.rows[t.d].status in {Completed, Cancelled})
      && (after == Idle <==>
            t.d in st.rows && st.rows[t.d].status !in {Completed, Cancelled} && !(st.rows[t.d].status == Registered && !st.rows[t.d].checkedIn))
  {
  }

  // ---- the day's capacity -------------------------------------------------------------------

  /** Where a registration carries a capacity for this day, config and vehicle, it is at most `limit`. */
  predicate Capped(req: Request, day: DayLock, limit: int) {
    DayOfRequest(req) == day && !req.quick && req.cap.Some? ==> req.cap.value <= limit
  }

  /** Whoever has counted the day finds room in it. */
  predicate HasRoom(st: State, t: Txn, day: DayLock, limit: int) {
    !t.Idle? ==> Capped(t.req, day, limit) && (CountedOn(t, day) ==> |Booked(st, day)| < limit)
  }

  predicate CountedOn(t: Txn, day: DayLock) { t.Counted? && DayOfRequest(t.req) == day }

  ghost predicate AllTimed(st: State) { forall d :: d in st.rows ==> st.rows[d].requested.Some? }

  ghost predicate AllHaveRoom(st: State, day: DayLock, limit: int) {
    forall tx :: HasRoom(st, TxnOf(st, tx), day, limit)
  }

  ghost predicate CapInv(st: State, day: DayLock, limit: int) {
    |Booked(st, day)| <= limit && AllTimed(st) && AllHaveRoom(st, day, limit)
  }

  /** The existing row is of the same config and vehicle, so that the day's count does not change. */
  predicate SameBooking(st: State, req: Request, existing: Option<DeliveryId>) {
    existing.Some? && existing.value in st.rows
    && st.rows[existing.value].config == req.config && st.rows[existing.value].vehicle == req.vehicle
  }

  /** The commit adds a row to the day's bookings that nobody counted: quick-verified, or without a capacity because no
      time window is enabled, and new to this config and vehicle. */
  predicate AddsUncounted(st: State, tx: TxId, move: Move, day: DayLock) {
    var t := TxnOf(st, tx);
    move.Commit? && t.Decided? && DayOfRequest(t.req) == day && (t.req.quick || t.req.cap.None?) && !SameBooking(st, t.req, t.existing)
  }

  /** The holder of the day's lock has counted and is about to add. */
  predicate Pending(st: State, day: DayLock) { day in st.dayLock && CountedOn(TxnOf(st, st.dayLock[day]), day) }

  /** An uncounted commit finds the day with room for its row and for the one that is about to be added. */
  predicate CommitFits(st: State, tx: TxId, move: Move, day: DayLock, limit: int) {
    AddsUncounted(st, tx, move, day) ==> |Booked(st, day)| + (if Pending(st, day) then 1 else 0) < limit
  }

  lemma CommitRows(st: State, tx: TxId, move: Move)
    requires Enabled(st, tx, move) && move.Commit?
    ensures var t := TxnOf(st, tx); Next(st, tx, move).rows == st.rows[move.d := RowOf(st, t.req, t.existing, move.now)]
  {
    hide NeedsRoom;
  }

  /** Who adds a booking: a transaction that counted the day, or one that adds uncounted. */
  predicate Adds(st: State, tx: TxId, move: Move, day: DayLock) {
    move.Commit? && (CountedOn(TxnOf(st, tx), day) || AddsUncounted(st, tx, move, day))
  }

  /** What a commit does to a day's bookings. */
  lemma CommitBooked(st: State, tx: TxId, move: Move, day: DayLock)
    requires Enabled(st, tx, move) && move.Commit? && TxnOk(st, tx, TxnOf(st, tx)) && AllTimed(st) && st.rows.Keys <= st.used
    ensures
      if Adds(st, tx, move, day) then move.d !in Booked(st, day) && Booked(Next(st, tx, move), day) == Booked(st, day) + {move.d}
      else Booked(Next(st, tx, move), day) <= Booked(st, day)
  {
    CommitRows(st, tx, move);
    CommitTarget(st, tx, move);
    hide VnDay, Next, Enabled, TxnOk;
    if Adds(st, tx, move, day) {
      AddedBooking(st, Next(st, tx, move), tx, move, day);
    } else {
      NoAddedBooking(st, Next(st, tx, move), tx, move, day);
    }
  }

  /** The row a commit writes: a new id, or the registered row it has locked, of the same day. */
  predicate Targets(st: State, t: Txn, d: DeliveryId) {
    (t.Decided? || t.Counted?)
    && match t.existing
       case None => d !in st.rows
       case Some(e) => e == d && d in st.rows && st.rows[d].status == Registered && RowDay(st.rows[d]) == VnDay(t.req.requested)
  }

  lemma CommitTarget(st: State, tx: TxId, move: Move)
    requires Enabled(st, tx, move) && move.Commit? && TxnOk(st, tx, TxnOf(st, tx)) && st.rows.Keys <= st.used
    ensures var t := TxnOf(st, tx); Targets(st, t, move.d) && (t.Counted? <==> NeedsRoom(st, t.req, t.existing))
  {
    hide VnDay, Matches;
  }

  lemma AddedBooking(st: State, after: State, tx: TxId, move: Move, day: DayLock)
    requires move.Commit? && Targets(st, TxnOf(st, tx), move.d) && AllTimed(st) && Adds(st, tx, move, day)
    requires var t := TxnOf(st, tx); t.Counted? <==> NeedsRoom(st, t.req, t.existing)
    requires var t := TxnOf(st, tx); after.rows == st.rows[move.d := RowOf(st, t.req, t.existing, move.now)]
    ensures move.d !in Booked(st, day) && Booked(after, day) == Booked(st, day) + {move.d}
  {
    hide VnDay;
  }

  lemma NoAddedBooking(st: State, after: State, tx: TxId, move: Move, day: DayLock)
    requires move.Commit? && Targets(st, TxnOf(st, tx), move.d) && AllTimed(st) && !Adds(st, tx, move, day)
    requires var t := TxnOf(st, tx); t.Counted? <==> NeedsRoom(st, t.req, t.existing)
    requires var t := TxnOf(st, tx); after.rows == st.rows[move.d := RowOf(st, t.req, t.existing, move.now)]
    ensures Booked(after, day) <= Booked(st, day)
  {
    hide VnDay;
  }

  /** A commit takes the day's count past the limit exactly when the day is full and the commit adds a row uncounted. */
  lemma CommitOverbooks(st: State, tx: TxId, move: Move, day: DayLock, limit: int)
    requires Inv(st) && CapInv(st, day, limit) && Enabled(st, tx, move) && move.Commit?
    ensures |Booked(Next(st, tx, move), day)| > limit <==> |Booked(st, day)| == limit && AddsUncounted(st, tx, move, day)
  {
    assert TxnOk(st, tx, TxnOf(st, tx)) && HasRoom(st, TxnOf(st, tx), day, limit);
    CommitBooked(st, tx, move, day);
    hide Next, Enabled, Booked, DayOfRequest, TxnOk;
    if !Adds(st, tx, move, day) {
      SubsetSize(Booked(Next(st, tx, move), day), Booked(st, day));
    }
  }

  lemma CommitKeepsCap(st: State, tx: TxId, move: Move, day: DayLock, limit: int)
    requires Inv(st) && CapInv(st, day, limit) && Enabled(st, tx, move) && move.Commit? && CommitFits(st, tx, move, day, limit)
    ensures CapInv(Next(st, tx, move), day, limit)
  {
    var after := Next(st, tx, move);
    CommitOverbooks(st, tx, move, day, limit);
    CommitRows(st, tx, move);
    assert AllTimed(after);
    hide Next, Enabled, Booked, DayOfRequest, HasRoom, TxnOk, AllTimed;
    forall o ensures HasRoom(after, TxnOf(after, o), day, limit) {
      assert TxnOk(st, tx, TxnOf(st, tx)) && TxnOk(st, o, TxnOf(st, o));
      assert HasRoom(st, TxnOf(st, tx), day, limit) && HasRoom(st, TxnOf(st, o), day, limit);
      CommitRoom(st, tx, move, day, limit, o);
    }
  }

  lemma CommitRoom(st: State, tx: TxId, move: Move, day: DayLock, limit: int, o: TxId)
    requires Enabled(st, tx, move) && move.Commit? && AllTimed(st) && st.rows.Keys <= st.used && CommitFits(st, tx, move, day, limit)
    requires TxnOk(st, tx, TxnOf(st, tx)) && HasRoom(st, TxnOf(st, tx), day, limit)
    requires TxnOk(st, o, TxnOf(st, o)) && HasRoom(st, TxnOf(st, o), day, limit)
    ensures HasRoom(Next(st, tx, move), TxnOf(Next(st, tx, move), o), day, limit)
  {
    CommitBooked(st, tx, move, day);
    CommitPositions(st, tx, move);
    CountedHolds(st, tx, day);
    CountedHolds(st, o, day);
    hide Next, Enabled, Booked, DayOfRequest, TxnOk, AddsUncounted;
    if !Adds(st, tx, move, day) {
      SubsetSize(Booked(Next(st, tx, move), day), Booked(st, day));
    }
  }

  lemma CountedHolds(st: State, tx: TxId, day: DayLock)
    requires TxnOk(st, tx, TxnOf(st, tx))
    ensures CountedOn(TxnOf(st, tx), day) ==> HoldsDay(st, tx, day)
  {
    hide ExistingOk, DayOfRequest;
  }

  lemma CommitPositions(st: State, tx: TxId, move: Move)
    requires Enabled(st, tx, move) && move.Commit?
    ensures forall o :: TxnOf(Next(st, tx, move), o) == if o == tx then Idle else TxnOf(st, o)
  {
    hide NeedsRoom;
  }

  lemma OtherServiceKeepsCap(st: State, tx: TxId, move: Move, day: DayLock, limit: int)
    requires CapInv(st, day, limit) && Enabled(st, tx, move) && (move.Change? || move.Remove?)
    ensures CapInv(Next(st, tx, move), day, limit)
  {
    var after := Next(st, tx, move);
    OtherServiceBooked(st, tx, move, day);
    assert AllTimed(after) && after.txns == st.txns;
    hide Next, Enabled, Booked;
    SubsetSize(Booked(after, day), Booked(st, day));
    forall o ensures HasRoom(after, TxnOf(after, o), day, limit) {
      assert HasRoom(st, TxnOf(st, o), day, limit);
    }
  }

  lemma OtherServiceBooked(st: State, tx: TxId, move: Move, day: DayLock)
    requires Enabled(st, tx, move) && (move.Change? || move.Remove?)
    ensures Booked(Next(st, tx, move), day) <= Booked(st, day)
  {
  }

  lemma QuietRoom(st: State, tx: TxId, move: Move, day: DayLock, limit: int)
    requires Enabled(st, tx, move) && Quiet(move) && HasRoom(st, TxnOf(st, tx), day, limit) && TxnOk(st, tx, TxnOf(st, tx))
    requires move.LockPlate? ==> Capped(move.req, day, limit)
    requires Booked(Next(st, tx, move), day) == Booked(st, day)
    ensures HasRoom(Next(st, tx, move), TxnOf(Next(st, tx, move), tx), day, limit)
  {
    hide Booked, DayOfRequest, Matches, KeyOf, End, ExistingOk;
    EndIsIdle(st, tx);
  }

  lemma EndIsIdle(st: State, tx: TxId)
    ensures TxnOf(End(st, tx), tx) == Idle
  {
  }

  lemma QuietKeepsCap(st: State, tx: TxId, move: Move, day: DayLock, limit: int)
    requires Inv(st) && CapInv(st, day, limit) && Enabled(st, tx, move) && Quiet(move)
    requires move.LockPlate? ==> Capped(move.req, day, limit)
    ensures CapInv(Next(st, tx, move), day, limit)
  {
    var after := Next(st, tx, move);
    QuietSteps(st, tx, move);
    SteppedRows(st, after, tx);
    assert Booked(after, day) == Booked(st, day);
    assert TxnOk(st, tx, TxnOf(st, tx));
    hide Next, Enabled, Booked, Stepped, TxnOk;
    forall o ensures HasRoom(after, TxnOf(after, o), day, limit) {
      assert HasRoom(st, TxnOf(st, o), day, limit);
      if o == tx {
        QuietRoom(st, tx, move, day, limit);
      } else {
        SteppedLocks(st, after, tx, o);
      }
    }
  }

  /** The capacities of the day are at most `limit`, and uncounted commits fit. */
  ghost predicate Orderly(states: seq<State>, moves: seq<(TxId, Move)>, day: DayLock, limit: int) {
    && |moves| <= |states|
    && forall i :: 0 <= i < |moves| ==>
         && (moves[i].1.LockPlate? ==> Capped(moves[i].1.req, day, limit))
         && CommitFits(states[i], moves[i].0, moves[i].1, day, limit)
  }

  lemma MoveKeepsCap(st: State, tx: TxId, move: Move, day: DayLock, limit: int)
    requires Inv(st) && CapInv(st, day, limit) && Enabled(st, tx, move)
    requires (move.LockPlate? ==> Capped(move.req, day, limit)) && CommitFits(st, tx, move, day, limit)
    ensures CapInv(Next(st, tx, move), day, limit)
  {
    hide Inv, CapInv, Next, Enabled, Capped, CommitFits;
    if Quiet(move) {
      QuietKeepsCap(st, tx, move, day, limit);
    } else if move.Commit? {
      CommitKeepsCap(st, tx, move, day, limit);
    } else {
      OtherServiceKeepsCap(st, tx, move, day, limit);
    }
  }

  lemma {:induction false} RunKeepsCap(states: seq<State>, moves: seq<(TxId, Move)>, n: nat, day: DayLock, limit: int)
    requires IsRun(states, moves) && Orderly(states, moves, day, limit) && n <= |moves|
    requires Inv(states[0]) && CapInv(states[0], day, limit)
    ensures Inv(states[n]) && CapInv(states[n], day, limit)
  {
    hide Next, Enabled, Inv, CapInv, Capped, CommitFits;
    if n > 0 {
      RunKeepsCap(states, moves, n - 1, day, limit);
      MoveKeepsInv(states[n - 1], moves[n - 1].0, moves[n - 1].1);
      MoveKeepsCap(states[n - 1], moves[n - 1].0, moves[n - 1].1, day, limit);
    }
  }

  lemma StartHasRoom(st: State, day: DayLock, limit: int)
    requires Start(st) && AllTimed(st) && |Booked(st, day)| <= limit
    ensures Inv(st) && CapInv(st, day, limit)
  {
    hide OneMatch, Booked;
  }

  /** The day's bookings in the columns: rows of its config and vehicle with a requested time on its Vietnam day that are
      neither closed nor cancelled. */
  lemma BookedIs(st: State, day: DayLock)
    ensures Booked(st, day) == set d | d in st.rows
              && st.rows[d].config == day.config && st.rows[d].vehicle == day.vehicle
              && st.rows[d].requested.Some? && VnDay(st.rows[d].requested.value) == day.day
              && st.rows[d].status !in {Completed, Cancelled, Expired, Incompleted}
  {
    hide VnDay;
  }

  /** The count decides: the transaction ends there exactly when that many rows have reached its capacity, and goes on
      with the number otherwise. */
  lemma CountDecides(st: State, tx: TxId)
    requires Enabled(st, tx, CountDay)
    ensures
      var req := TxnOf(st, tx).req;
      var booked := |set d | d in st.rows
              && st.rows[d].config == req.config && st.rows[d].vehicle == req.vehicle
              && st.rows[d].requested.Some? && VnDay(st.rows[d].requested.value) == VnDay(req.requested)
              && st.rows[d].status !in {Completed, Cancelled, Expired, Incompleted}|;
      TxnOf(Next(st, tx, CountDay), tx)
      == if booked >= req.cap.value then Idle else Counted(req, TxnOf(st, tx).existing, booked)
  {
    BookedIs(st, DayOfRequest(TxnOf(st, tx).req));
    hide VnDay, Booked;
  }

  /** In every run in which a day's uncounted commits fit, its booked count never exceeds the largest of the capacities
      its registrations carry. */
  lemma DayIsNeverOverbooked(states: seq<State>, moves: seq<(TxId, Move)>, n: nat, day: DayLock, limit: int)
    requires IsRun(states, moves) && Start(states[0]) && n <= |moves|
    requires forall i :: 0 <= i < |moves| && moves[i].1.LockPlate? ==>
               var req := moves[i].1.req;
               (req.config == day.config && req.vehicle == day.vehicle && VnDay(req.requested) == day.day && req.cap.Some? && !req.quick
                ==> req.cap.value <= limit)
    requires forall i :: 0 <= i < |moves| ==> CommitFits(states[i], moves[i].0, moves[i].1, day, limit)
    requires AllTimed(states[0]) && |Booked(states[0], day)| <= limit
    ensures n < |states| && |Booked(states[n], day)| <= limit
    ensures
      var rows := states[n].rows;
      |set d | d in rows && rows[d].config == day.config && rows[d].vehicle == day.vehicle
               && rows[d].requested.Some? && VnDay(rows[d].requested.value) == day.day
               && rows[d].status !in {Completed, Cancelled, Expired, Incompleted}| <= limit
  {
    hide Booked, IsRun, Inv, VnDay, CommitFits;
    RunLength(states, moves);
    assert Orderly(states, moves, day, limit);
    StartHasRoom(states[0], day, limit);
    RunKeepsCap(states, moves, n, day, limit);
    BookedIs(states[n], day);
  }

  lemma RunLength(states: seq<State>, moves: seq<(TxId, Move)>)
    requires IsRun(states, moves)
    ensures |states| == |moves| + 1
  {
    hide Next, Enabled;
  }

  // ---- exactly which uncounted commits are harmless -----------------------------------------

  /** No orderly run that goes on from the move overbooks the day. */
  ghost predicate Harmless(st: State, tx: TxId, move: Move, day: DayLock, limit: int)
    requires Enabled(st, tx, move)
  {
    forall states, moves :: IsRun(states, moves) && states[0] == Next(st, tx, move) && Orderly(states, moves, day, limit)
      ==> |Booked(states[|moves|], day)| <= limit
  }

  /** The pending commit of whoever counted the day. */
  lemma PendingCommit(st: State, h: TxId, day: DayLock) returns (move: Move)
    requires st.rows.Keys <= st.used && AllTimed(st) && TxnOk(st, h, TxnOf(st, h)) && CountedOn(TxnOf(st, h), day)
    ensures move.Commit? && Enabled(st, h, move) && Adds(st, h, move, day) && !AddsUncounted(st, h, move, day)
    ensures |Booked(Next(st, h, move), day)| == |Booked(st, day)| + 1
  {
    hide Booked, VnDay, Matches;
    var existing := TxnOf(st, h).existing;
    var d := FreshNat(st.used);
    move := Commit(if existing.Some? then existing.value else d, 0);
    CommitBooked(st, h, move, day);
  }

  /** A commit that adds uncounted without fitting overbooks the day, by itself or through the pending commit. */
  lemma UnfitCommitOverbooks(st: State, tx: TxId, move: Move, day: DayLock, limit: int)
    returns (states: seq<State>, moves: seq<(TxId, Move)>)
    requires Inv(st) && CapInv(st, day, limit) && Enabled(st, tx, move) && !CommitFits(st, tx, move, day, limit)
    ensures IsRun(states, moves) && Orderly(states, moves, day, limit) && states[0] == Next(st, tx, move)
    ensures |Booked(states[|moves|], day)| > limit
  {
    var after := Next(st, tx, move);
    assert TxnOk(st, tx, TxnOf(st, tx));
    CommitBooked(st, tx, move, day);
    hide Next, Enabled, Booked, TxnOk, HasRoom;
    states, moves := [after], [];
    if |Booked(after, day)| <= limit {
      var h := st.dayLock[day];
      StillCounted(st, tx, move, day, h);
      var last := PendingCommit(after, h, day);
      OneStepRun(after, h, last, day, limit);
      states, moves := [after, Next(after, h, last)], [(h, last)];
    }
  }

  lemma OneStepRun(st: State, h: TxId, move: Move, day: DayLock, limit: int)
    requires Enabled(st, h, move) && move.Commit? && !AddsUncounted(st, h, move, day)
    ensures IsRun([st, Next(st, h, move)], [(h, move)]) && Orderly([st, Next(st, h, move)], [(h, move)], day, limit)
  {
    hide Next, Enabled, AddsUncounted;
  }

  /** The holder who has counted is where it was after another transaction's commit. */
  lemma StillCounted(st: State, tx: TxId, move: Move, day: DayLock, h: TxId)
    requires Inv(st) && AllTimed(st) && Enabled(st, tx, move) && move.Commit? && h != tx && CountedOn(TxnOf(st, h), day)
    ensures
      var after := Next(st, tx, move);
      after.rows.Keys <= after.used && AllTimed(after) && TxnOk(after, h, TxnOf(after, h)) && CountedOn(TxnOf(after, h), day)
  {
    CommitKeepsInv(st, tx, move);
    CommitPositions(st, tx, move);
    CommitRows(st, tx, move);
    hide Next, Enabled, TxnOk, DayOfRequest;
  }

  /** A new registration that is quick-verified or has no capacity commits and adds a booking whatever the count; so does
      one that moves an existing row to another config or vehicle. */
  lemma UncountedIgnoresTheCapacity(st: State, tx: TxId, day: DayLock, d: DeliveryId, now: int)
    requires TxnOk(st, tx, TxnOf(st, tx)) && AllTimed(st) && st.rows.Keys <= st.used && AddsUncounted(st, tx, Commit(d, now), day)
    requires if TxnOf(st, tx).existing.Some? then TxnOf(st, tx).existing.value == d else d !in st.used
    ensures Enabled(st, tx, Commit(d, now))
    ensures |Booked(Next(st, tx, Commit(d, now)), day)| == |Booked(st, day)| + 1
  {
    hide Booked, VnDay, Matches;
    CommitBooked(st, tx, Commit(d, now), day);
  }

  /** An uncounted commit is harmless exactly when it fits: when the day has room for one, or for two while the holder
      of the day's lock has counted. */
  lemma UncountedCommitExact(st: State, tx: TxId, move: Move, day: DayLock, limit: int)
    requires Inv(st) && CapInv(st, day, limit) && Enabled(st, tx, move) && AddsUncounted(st, tx, move, day)
    ensures CommitFits(st, tx, move, day, limit) <==> Harmless(st, tx, move, day, limit)
  {
    hide Inv, CapInv, Next, Enabled, CommitFits, Booked;
    if CommitFits(st, tx, move, day, limit) {
      MoveKeepsInv(st, tx, move);
      MoveKeepsCap(st, tx, move, day, limit);
      forall states, moves | IsRun(states, moves) && states[0] == Next(st, tx, move) && Orderly(states, moves, day, limit)
        ensures |Booked(states[|moves|], day)| <= limit
      {
        RunKeepsCap(states, moves, |moves|, day, limit);
        CapInvIsWithin(states[|moves|], day, limit);
      }
    } else {
      var states, moves := UnfitCommitOverbooks(st, tx, move, day, limit);
    }
  }

  lemma CapInvIsWithin(st: State, day: DayLock, limit: int)
    requires CapInv(st, day, limit)
    ensures |Booked(st, day)| <= limit
  {
  }
}
