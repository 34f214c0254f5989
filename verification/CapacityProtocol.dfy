/** Slot capacity when transactions interleave.  Each transaction is split at its lock, count, write and commit;
    counts read committed rows, writes become visible at commit.  Reconciling locks further slots inside these
    transactions; leaving those locks out only allows more interleavings. */
module CapacityProtocol {
  import opened Types
  import opened Arithmetic

  type TxId = nat

  datatype Row = Row(status: Status, slot: Option<SlotId>)

  /** Where a transaction stands, and what it has read. */
  datatype Txn =
    | Idle
    // the dispatcher: assignNextDeliveryToSlot
    | SlotLocked(s: SlotId)
    | Counted(s: SlotId, count: nat)
    | Picked(s: SlotId, count: nat, d: DeliveryId)
    | Assigned(s: SlotId, count: nat, d: DeliveryId)
    // the manual call
    | CallRowLocked(d: DeliveryId)
    | CallRead(d: DeliveryId, row: Row)
    | CallSlotLocked(d: DeliveryId, row: Row, s: SlotId)
    | CallCounted(d: DeliveryId, row: Row, s: SlotId, others: nat)
    | CallWritten(d: DeliveryId, row: Row, s: SlotId, others: nat)
    // check-in, complete, cancel, close, archive
    | RowLocked(d: DeliveryId)
    | RowWritten(d: DeliveryId, next: Option<Row>)
    // start receiving: a plain read, then an unconditional update
    | StartRead(d: DeliveryId)

  datatype State = State(
    rows: map<DeliveryId, Row>,
    capacity: map<SlotId, int>,
    slotLock: map<SlotId, TxId>,
    rowLock: map<DeliveryId, TxId>,
    txns: map<TxId, Txn>)

  function Active(st: State, s: SlotId): set<DeliveryId> {
    set d | d in st.rows && st.rows[d].slot == Some(s) && IsActive(st.rows[d].status)
  }

  function TxnOf(st: State, tx: TxId): Txn {
    if tx in st.txns then st.txns[tx] else Idle
  }

  datatype Move =
    | LockSlot(s: SlotId) | Count | Pick(d: DeliveryId) | Assign | CommitAssign
    | LockCallRow(d: DeliveryId) | ReadCallRow | LockCallSlot(s: SlotId) | CountOthers | WriteCall | CommitCall
    | LockRow(d: DeliveryId) | WriteRow(next: Option<Row>) | CommitRow
    | Insert(d: DeliveryId)
    | ReadStart(d: DeliveryId) | WriteStart(autoWarehouse: bool)
    | Rollback

  function Advance(st: State, tx: TxId, t: Txn): State {
    st.(txns := st.txns[tx := t])
  }

  /** Locks of `tx` are released and its writes, if any, are dropped. */
  function End(st: State, tx: TxId): State {
    st.(slotLock := map s | s in st.slotLock && st.slotLock[s] != tx :: st.slotLock[s],
        rowLock := map d | d in st.rowLock && st.rowLock[d] != tx :: st.rowLock[d],
        txns := st.txns[tx := Idle])
  }

  function Put(st: State, d: DeliveryId, row: Row): State {
    st.(rows := st.rows[d := row])
  }

  /** Changes the row transactions make, with the status test each makes under its row lock. */
  predicate RowChange(row: Row, next: Option<Row>) {
    match next
    case None => // daily close and archiving delete the row
      row.status == Registered || row.status == Receiving || row.status == AutoWarehouseReceiving || IsTerminal(row.status)
    case Some(n) =>
      && n.slot == row.slot
      && ((row.status == Registered && n.status == Waiting)
          || (IsActive(row.status) && n.status == Completed)
          || (row.status != Completed && row.status != Cancelled && row.status != Expired && n.status == Cancelled))
  }

  /** The guard of a move. */
  predicate Enabled(st: State, tx: TxId, move: Move) {
    var t := TxnOf(st, tx);
    match move
    case LockSlot(s) => t.Idle? && s in st.capacity && s !in st.slotLock
    case Count => t.SlotLocked?
    case Pick(d) => t.Counted? && d in st.rows && st.rows[d].status == Waiting && d !in st.rowLock // SKIP LOCKED
    case Assign => t.Picked?
    case CommitAssign => t.Assigned?
    case LockCallRow(d) => t.Idle? && d in st.rows && d !in st.rowLock
    case ReadCallRow => t.CallRowLocked? && t.d in st.rows
    case LockCallSlot(s) => t.CallRead? && s in st.capacity && s !in st.slotLock
    case CountOthers => t.CallSlotLocked?
    case WriteCall => t.CallCounted?
    case CommitCall => t.CallWritten?
    case LockRow(d) => t.Idle? && d in st.rows && d !in st.rowLock
    case WriteRow(next) => t.RowLocked? && t.d in st.rows && RowChange(st.rows[t.d], next)
    case CommitRow => t.RowWritten?
    case Insert(d) => t.Idle? && d !in st.rows
    case ReadStart(d) => t.Idle? && d in st.rows && st.rows[d].status == Called
    case WriteStart(_) => t.StartRead? && t.d !in st.rowLock // the update waits for the row lock
    case Rollback => true
  }

  function Next(st: State, tx: TxId, move: Move): State
    requires Enabled(st, tx, move)
  {
    var t := TxnOf(st, tx);
    match move
    case LockSlot(s) => Advance(st, tx, SlotLocked(s)).(slotLock := st.slotLock[s := tx])
    case Count =>
      var n := |Active(st, t.s)|;
      if t.s in st.capacity && n < st.capacity[t.s] then Advance(st, tx, Counted(t.s, n)) else End(st, tx)
    case Pick(d) => Advance(st, tx, Picked(t.s, t.count, d)).(rowLock := st.rowLock[d := tx])
    case Assign => Advance(st, tx, Assigned(t.s, t.count, t.d))
    case CommitAssign => End(Put(st, t.d, Row(Called, Some(t.s))), tx)
    case LockCallRow(d) => Advance(st, tx, CallRowLocked(d)).(rowLock := st.rowLock[d := tx])
    case ReadCallRow =>
      var row := st.rows[t.d];
      if row.status == Waiting || row.status == Called then Advance(st, tx, CallRead(t.d, row)) else End(st, tx)
    case LockCallSlot(s) => Advance(st, tx, CallSlotLocked(t.d, t.row, s)).(slotLock := st.slotLock[s := tx])
    case CountOthers =>
      var n := |Active(st, t.s) - {t.d}|;
      if t.row == Row(Called, Some(t.s)) then End(st, tx) // recall: no row changes
      else if t.s in st.capacity && n < st.capacity[t.s] then Advance(st, tx, CallCounted(t.d, t.row, t.s, n)) else End(st, tx)
    case WriteCall => Advance(st, tx, CallWritten(t.d, t.row, t.s, t.others))
    case CommitCall => End(Put(st, t.d, Row(Called, Some(t.s))), tx)
    case LockRow(d) => Advance(st, tx, RowLocked(d)).(rowLock := st.rowLock[d := tx])
    case WriteRow(next) => Advance(st, tx, RowWritten(t.d, next))
    case CommitRow =>
      End(if t.next.Some? then Put(st, t.d, t.next.value) else st.(rows := st.rows - {t.d}), tx)
    case Insert(d) => Put(st, d, Row(Registered, None))
    case ReadStart(d) => Advance(st, tx, StartRead(d))
    case WriteStart(autoWarehouse) =>
      var status := if autoWarehouse then AutoWarehouseReceiving else Receiving;
      End(if t.d in st.rows then Put(st, t.d, Row(status, st.rows[t.d].slot)) else st, tx)
    case Rollback => End(st, tx)
  }

  /** A rollback is possible anywhere; it changes no row and leaves the transaction without locks. */
  lemma RollbackUndoes(st: State, tx: TxId)
    ensures Enabled(st, tx, Rollback)
    ensures
      var after := Next(st, tx, Rollback);
      && after.rows == st.rows && TxnOf(after, tx) == Idle && tx !in after.slotLock.Values && tx !in after.rowLock.Values
      && (forall s :: s in st.slotLock && st.slotLock[s] != tx ==> s in after.slotLock && after.slotLock[s] == st.slotLock[s])
      && (forall d :: d in st.rowLock && st.rowLock[d] != tx ==> d in after.rowLock && after.rowLock[d] == st.rowLock[d])
  {
  }

  // ---- the invariant ------------------------------------------------------------------------

  predicate HoldsSlot(st: State, tx: TxId, s: SlotId) { s in st.slotLock && st.slotLock[s] == tx }
  predicate HoldsRow(st: State, tx: TxId, d: DeliveryId) { d in st.rowLock && st.rowLock[d] == tx && d in st.rows }

  /** The locks a transaction holds where it stands, and the rows it has read under them. */
  predicate TxnPlace(st: State, tx: TxId, t: Txn) {
    match t
    case SlotLocked(s) => HoldsSlot(st, tx, s)
    case Counted(s, _) => HoldsSlot(st, tx, s)
    case Picked(s, _, d) => HoldsSlot(st, tx, s) && HoldsRow(st, tx, d) && st.rows[d].status == Waiting
    case Assigned(s, _, d) => HoldsSlot(st, tx, s) && HoldsRow(st, tx, d) && st.rows[d].status == Waiting
    case CallRowLocked(d) => HoldsRow(st, tx, d)
    case CallRead(d, row) => HoldsRow(st, tx, d) && st.rows[d] == row && Callable(row)
    case CallSlotLocked(d, row, s) => HoldsSlot(st, tx, s) && HoldsRow(st, tx, d) && st.rows[d] == row && Callable(row)
    case CallCounted(d, row, s, _) => HoldsSlot(st, tx, s) && HoldsRow(st, tx, d) && CallableInto(st.rows[d], s)
    case CallWritten(d, row, s, _) => HoldsSlot(st, tx, s) && HoldsRow(st, tx, d) && CallableInto(st.rows[d], s)
    case RowLocked(d) => HoldsRow(st, tx, d)
    case RowWritten(d, next) => HoldsRow(st, tx, d) && RowChange(st.rows[d], next)
    case _ => true
  }

  predicate Callable(row: Row) { row.status == Waiting || row.status == Called }

  predicate CallableInto(row: Row, s: SlotId) { Callable(row) && row != Row(Called, Some(s)) }

  /** The transaction has counted slot `t.s` and goes on to add to it. */
  predicate PastCount(t: Txn) { t.Counted? || t.Picked? || t.Assigned? || t.CallCounted? || t.CallWritten? }

  predicate HasRoom(st: State, s: SlotId) { s in st.capacity && |Active(st, s)| < st.capacity[s] }

  /** Whoever has counted a slot can still add to it. */
  predicate TxnOk(st: State, tx: TxId, t: Txn) {
    TxnPlace(st, tx, t) && (PastCount(t) ==> HasRoom(st, t.s))
  }

  ghost predicate WithinCapacity(st: State) {
    forall s :: s in st.capacity ==> |Active(st, s)| <= st.capacity[s]
  }

  ghost predicate Inv(st: State) {
    WithinCapacity(st) && forall tx :: TxnOk(st, tx, TxnOf(st, tx))
  }

  /** The holder of the lock on a slot has counted it and goes on to add to it. */
  predicate Pending(st: State, s: SlotId) {
    s in st.slotLock && PastCount(TxnOf(st, st.slotLock[s])) && TxnOf(st, st.slotLock[s]).s == s
  }

  /** A start-receiving update whose delivery stopped being active since it was read. */
  predicate StaleStart(st: State, tx: TxId, move: Move) {
    move.WriteStart? && TxnOf(st, tx).StartRead? && TxnOf(st, tx).d in st.rows && !IsActive(st.rows[TxnOf(st, tx).d].status)
  }

  /** A stale start finds its slot with room for the delivery it revives and for the one that is about to be added. */
  predicate StartFits(st: State, tx: TxId, move: Move) {
    StaleStart(st, tx, move) ==>
      var slot := st.rows[TxnOf(st, tx).d].slot;
      slot.Some? && slot.value in st.capacity ==>
        |Active(st, slot.value)| + (if Pending(st, slot.value) then 1 else 0) < st.capacity[slot.value]
  }

  // ---- preservation -------------------------------------------------------------------------

  /** A change of one row that adds it to no slot leaves every reading of the other transactions valid. */
  lemma RowLossKeepsOthers(st: State, d: DeliveryId, after: State, other: TxId)
    requires TxnOk(st, other, TxnOf(st, other)) && !HoldsRow(st, other, d)
    requires TxnOf(after, other) == TxnOf(st, other) && after.capacity == st.capacity
    requires forall s :: HoldsSlot(st, other, s) ==> HoldsSlot(after, other, s) && Active(after, s) <= Active(st, s)
    requires forall o :: HoldsRow(st, other, o) ==> HoldsRow(after, other, o)
    requires forall o :: o != d && o in st.rows ==> o in after.rows && after.rows[o] == st.rows[o]
    ensures TxnOk(after, other, TxnOf(after, other))
  {
    var t := TxnOf(st, other);
    if PastCount(t) {
      SubsetSize(Active(after, t.s), Active(st, t.s));
    }
  }

  /** Moves that change no row. */
  predicate Silent(move: Move) {
    !move.CommitAssign? && !move.CommitCall? && !move.CommitRow? && !move.Insert? && !move.WriteStart?
  }

  lemma EndKeepsOthers(st: State, tx: TxId, other: TxId)
    requires other != tx
    ensures TxnOf(End(st, tx), other) == TxnOf(st, other)
    ensures forall s :: HoldsSlot(st, other, s) <==> HoldsSlot(End(st, tx), other, s)
    ensures forall d :: HoldsRow(st, other, d) <==> HoldsRow(End(st, tx), other, d)
  {
  }

  /** Rows and capacities are the same, and transaction `other` stands where it stood with its locks. */
  ghost predicate SameFor(st: State, after: State, other: TxId) {
    && after.rows == st.rows && after.capacity == st.capacity
    && TxnOf(after, other) == TxnOf(st, other)
    && (forall s :: HoldsSlot(st, other, s) ==> HoldsSlot(after, other, s))
    && (forall d :: HoldsRow(st, other, d) ==> HoldsRow(after, other, d))
  }

  lemma SameKeepsTxn(st: State, after: State, other: TxId)
    requires SameFor(st, after, other) && TxnOk(st, other, TxnOf(st, other))
    ensures TxnOk(after, other, TxnOf(after, other))
  {
    SameActive(st, after);
  }

  lemma SameActive(st: State, after: State)
    requires after.rows == st.rows
    ensures forall s :: Active(after, s) == Active(st, s)
  {
  }

  /** Rows stay; `tx` gave up its locks or took free ones, and only `tx` moved. */
  ghost predicate Stepped(st: State, after: State, tx: TxId) {
    after == End(st, tx)
    || (&& after.rows == st.rows && after.capacity == st.capacity && after.txns == st.txns[tx := TxnOf(after, tx)]
        && (after.slotLock == st.slotLock || exists s: SlotId :: s !in st.slotLock && after.slotLock == st.slotLock[s := tx])
        && (after.rowLock == st.rowLock || exists d: DeliveryId :: d !in st.rowLock && after.rowLock == st.rowLock[d := tx]))
  }

  predicate DispatchMove(move: Move) {
    move.LockSlot? || move.Count? || move.Pick? || move.Assign?
  }

  predicate CallMove(move: Move) {
    move.LockCallRow? || move.ReadCallRow? || move.LockCallSlot? || move.CountOthers? || move.WriteCall?
  }

  lemma DispatchSteps(st: State, tx: TxId, move: Move)
    requires Enabled(st, tx, move) && DispatchMove(move)
    ensures Stepped(st, Next(st, tx, move), tx)
  {
  }

  lemma CallSteps(st: State, tx: TxId, move: Move)
    requires Enabled(st, tx, move) && CallMove(move)
    ensures Stepped(st, Next(st, tx, move), tx)
  {
    var after := Next(st, tx, move);
    if move.LockCallRow? {
      assert after.rowLock == st.rowLock[move.d := tx];
    } else if move.LockCallSlot? {
      assert after.slotLock == st.slotLock[move.s := tx];
    } else if move.WriteCall? {
      assert after.txns == st.txns[tx := TxnOf(after, tx)];
    }
  }

  lemma SilentSteps(st: State, tx: TxId, move: Move)
    requires Enabled(st, tx, move) && Silent(move)
    ensures Stepped(st, Next(st, tx, move), tx)
  {
    if DispatchMove(move) {
      DispatchSteps(st, tx, move);
    } else if CallMove(move) {
      CallSteps(st, tx, move);
    }
  }

  lemma SteppedIsSame(st: State, after: State, tx: TxId, other: TxId)
    requires Stepped(st, after, tx) && other != tx
    ensures SameFor(st, after, other)
  {
    EndKeepsOthers(st, tx, other);
  }

  lemma DispatchKeepsOwn(st: State, tx: TxId, move: Move)
    requires Enabled(st, tx, move) && DispatchMove(move) && TxnOk(st, tx, TxnOf(st, tx))
    ensures TxnOk(Next(st, tx, move), tx, TxnOf(Next(st, tx, move), tx))
  {
    SameActive(st, Next(st, tx, move));
  }

  lemma CountKeepsOwn(st: State, tx: TxId)
    requires Enabled(st, tx, CountOthers) && TxnOk(st, tx, TxnOf(st, tx))
    ensures TxnOk(Next(st, tx, CountOthers), tx, TxnOf(Next(st, tx, CountOthers), tx))
  {
    var t, after := TxnOf(st, tx), Next(st, tx, CountOthers);
    CountIs(st, tx);
    SameActive(st, after);
    OthersAreAll(st, t.d, t.row, t.s);
    hide Next, Enabled, Active;
    if after == End(st, tx) {
      IdleIsOk(after, tx);
    } else {
      hide End;
      assert TxnPlace(after, tx, TxnOf(after, tx));
    }
  }

  lemma CountIs(st: State, tx: TxId)
    requires Enabled(st, tx, CountOthers)
    ensures
      var t, after := TxnOf(st, tx), Next(st, tx, CountOthers);
      var others := |Active(st, t.s) - {t.d}|;
      after
      == if t.row != Row(Called, Some(t.s)) && t.s in st.capacity && others < st.capacity[t.s]
         then Advance(st, tx, CallCounted(t.d, t.row, t.s, others))
         else End(st, tx)
  {
    hide Active, End;
  }

  /** A delivery that is to be called into a slot is not among its occupants. */
  lemma OthersAreAll(st: State, d: DeliveryId, row: Row, s: SlotId)
    requires d in st.rows && st.rows[d] == row && Callable(row)
    ensures row != Row(Called, Some(s)) ==> Active(st, s) - {d} == Active(st, s)
  {
  }

  lemma CallKeepsOwn(st: State, tx: TxId, move: Move)
    requires Enabled(st, tx, move) && CallMove(move) && TxnOk(st, tx, TxnOf(st, tx))
    ensures TxnOk(Next(st, tx, move), tx, TxnOf(Next(st, tx, move), tx))
  {
    if move.CountOthers? {
      CountKeepsOwn(st, tx);
    } else {
      SameActive(st, Next(st, tx, move));
      hide Active;
    }
  }

  lemma SilentKeepsOwn(st: State, tx: TxId, move: Move)
    requires Enabled(st, tx, move) && Silent(move) && TxnOk(st, tx, TxnOf(st, tx))
    ensures TxnOk(Next(st, tx, move), tx, TxnOf(Next(st, tx, move), tx))
  {
    if DispatchMove(move) {
      DispatchKeepsOwn(st, tx, move);
    } else if CallMove(move) {
      CallKeepsOwn(st, tx, move);
    }
  }

  lemma SilentKeepsTxn(st: State, tx: TxId, move: Move, other: TxId)
    requires TxnOk(st, tx, TxnOf(st, tx)) && TxnOk(st, other, TxnOf(st, other)) && Enabled(st, tx, move) && Silent(move)
    ensures TxnOk(Next(st, tx, move), other, TxnOf(Next(st, tx, move), other))
  {
    if other == tx {
      SilentKeepsOwn(st, tx, move);
    } else {
      SilentSteps(st, tx, move);
      SteppedIsSame(st, Next(st, tx, move), tx, other);
      SameKeepsTxn(st, Next(st, tx, move), other);
    }
  }

  lemma SilentKeepsInv(st: State, tx: TxId, move: Move)
    requires Inv(st) && Enabled(st, tx, move) && Silent(move)
    ensures Inv(Next(st, tx, move))
  {
    var after := Next(st, tx, move);
    SilentSteps(st, tx, move);
    SameActive(st, after);
    assert TxnOk(st, tx, TxnOf(st, tx));
    forall other ensures TxnOk(after, other, TxnOf(after, other)) {
      assert TxnOk(st, other, TxnOf(st, other));
      SilentKeepsTxn(st, tx, move, other);
    }
  }

  lemma EnterOccupants(st: State, tx: TxId, d: DeliveryId, s: SlotId, o: SlotId)
    ensures Active(End(Put(st, d, Row(Called, Some(s))), tx), o) == if o == s then (Active(st, s) - {d}) + {d} else Active(st, o) - {d}
  {
  }

  lemma EnterKeepsOther(st: State, tx: TxId, d: DeliveryId, s: SlotId, other: TxId)
    requires other != tx && TxnOk(st, other, TxnOf(st, other)) && HoldsSlot(st, tx, s) && HoldsRow(st, tx, d)
    ensures var after := End(Put(st, d, Row(Called, Some(s))), tx); TxnOk(after, other, TxnOf(after, other))
  {
    var put := Put(st, d, Row(Called, Some(s)));
    EndKeepsOthers(put, tx, other);
    forall o ensures HoldsSlot(st, other, o) ==> Active(End(put, tx), o) <= Active(st, o) {
      EnterOccupants(st, tx, d, s, o);
    }
    RowLossKeepsOthers(st, d, End(put, tx), other);
  }

  /** A commit that puts `d` into slot `s`, by the transaction that holds the lock on `s` and on `d`. */
  lemma EnterKeepsInv(st: State, tx: TxId, d: DeliveryId, s: SlotId)
    requires Inv(st) && HoldsSlot(st, tx, s) && HoldsRow(st, tx, d) && s in st.capacity
    requires |Active(st, s) - {d}| < st.capacity[s]
    ensures Inv(End(Put(st, d, Row(Called, Some(s))), tx))
  {
    var after := End(Put(st, d, Row(Called, Some(s))), tx);
    forall o | o in after.capacity ensures |Active(after, o)| <= after.capacity[o] {
      EnterOccupants(st, tx, d, s, o);
      SubsetSize(Active(st, o) - {d}, Active(st, o));
    }
    forall other ensures TxnOk(after, other, TxnOf(after, other)) {
      assert TxnOk(st, other, TxnOf(st, other));
      if other != tx {
        EnterKeepsOther(st, tx, d, s, other);
      }
    }
  }

  /** A commit that changes one row and adds it to no slot. */
  lemma LossKeepsInv(st: State, tx: TxId, d: DeliveryId, put: State)
    requires Inv(st) && put == st.(rows := put.rows)
    requires forall other :: other != tx ==> !HoldsRow(st, other, d)
    requires forall o :: o != d ==> (o in put.rows <==> o in st.rows) && (o in st.rows ==> put.rows[o] == st.rows[o])
    requires d in put.rows && IsActive(put.rows[d].status) ==> d in st.rows && IsActive(st.rows[d].status) && put.rows[d].slot == st.rows[d].slot
    ensures Inv(End(put, tx))
  {
    var after := End(put, tx);
    forall o ensures Active(after, o) <= Active(st, o) {}
    forall o | o in after.capacity ensures |Active(after, o)| <= after.capacity[o] {
      SubsetSize(Active(after, o), Active(st, o));
    }
    forall other ensures TxnOk(after, other, TxnOf(after, other)) {
      assert TxnOk(st, other, TxnOf(st, other));
      if other != tx {
        EndKeepsOthers(put, tx, other);
        RowLossKeepsOthers(st, d, after, other);
      }
    }
  }

  /** Every move keeps the invariant, a stale start if it fits. */
  lemma MoveKeepsInv(st: State, tx: TxId, move: Move)
    requires Inv(st) && Enabled(st, tx, move) && StartFits(st, tx, move)
    ensures Inv(Next(st, tx, move))
  {
    if StaleStart(st, tx, move) {
      StaleStartKeepsInv(st, tx, move);
    } else if move.Insert? {
      InsertKeepsInv(st, tx, move.d);
    } else if move.WriteStart? {
      FreshStartKeepsInv(st, tx, move);
    } else if Silent(move) {
      SilentKeepsInv(st, tx, move);
    } else {
      CommitKeepsInv(st, tx, move);
    }
  }

  lemma CommitKeepsInv(st: State, tx: TxId, move: Move)
    requires Inv(st) && Enabled(st, tx, move) && (move.CommitAssign? || move.CommitCall? || move.CommitRow?)
    ensures Inv(Next(st, tx, move))
  {
    var t := TxnOf(st, tx);
    assert TxnOk(st, tx, t);
    if move.CommitRow? {
      LossKeepsInv(st, tx, t.d, if t.next.Some? then Put(st, t.d, t.next.value) else st.(rows := st.rows - {t.d}));
    } else {
      SubsetSize(Active(st, t.s) - {t.d}, Active(st, t.s));
      EnterKeepsInv(st, tx, t.d, t.s);
    }
  }

  lemma InsertKeepsInv(st: State, tx: TxId, d: DeliveryId)
    requires Inv(st) && d !in st.rows
    ensures Inv(Put(st, d, Row(Registered, None)))
  {
    var after := Put(st, d, Row(Registered, None));
    forall s ensures Active(after, s) == Active(st, s) {}
    forall other ensures TxnOk(after, other, TxnOf(after, other)) {
      assert TxnOk(st, other, TxnOf(st, other));
      RowLossKeepsOthers(st, d, after, other);
    }
  }

  lemma FreshStartKeepsInv(st: State, tx: TxId, move: Move)
    requires Inv(st) && Enabled(st, tx, move) && move.WriteStart? && !StaleStart(st, tx, move)
    ensures Inv(Next(st, tx, move))
  {
    var d := TxnOf(st, tx).d;
    var status := if move.autoWarehouse then AutoWarehouseReceiving else Receiving;
    LossKeepsInv(st, tx, d, if d in st.rows then Put(st, d, Row(status, st.rows[d].slot)) else st);
  }

  lemma RevivedOccupants(st: State, tx: TxId, move: Move, s: SlotId)
    requires Enabled(st, tx, move) && StaleStart(st, tx, move)
    ensures
      var d := TxnOf(st, tx).d;
      Active(Next(st, tx, move), s) == if st.rows[d].slot == Some(s) then Active(st, s) + {d} else Active(st, s)
    ensures TxnOf(st, tx).d !in Active(st, s)
  {
  }

  /** What a stale start leaves to the other transactions: their places, and every row but the one it revives. */
  lemma StaleStartLeaves(st: State, tx: TxId, move: Move, other: TxId)
    requires Enabled(st, tx, move) && StaleStart(st, tx, move) && other != tx && TxnPlace(st, other, TxnOf(st, other))
    ensures
      var after := Next(st, tx, move);
      && TxnOf(after, other) == TxnOf(st, other) && TxnPlace(after, other, TxnOf(after, other)) && after.capacity == st.capacity
  {
    var d := TxnOf(st, tx).d;
    var status := if move.autoWarehouse then AutoWarehouseReceiving else Receiving;
    EndKeepsOthers(Put(st, d, Row(status, st.rows[d].slot)), tx, other);
    hide End;
  }

  lemma StaleStartKeepsTxn(st: State, tx: TxId, move: Move, other: TxId)
    requires Enabled(st, tx, move) && StaleStart(st, tx, move) && StartFits(st, tx, move)
    requires other != tx && TxnOk(st, other, TxnOf(st, other))
    ensures TxnOk(Next(st, tx, move), other, TxnOf(Next(st, tx, move), other))
  {
    StaleStartLeaves(st, tx, move, other);
    var t := TxnOf(st, other);
    if PastCount(t) {
      RevivedOccupants(st, tx, move, t.s);
      hide Next, Enabled, Active;
    }
  }

  lemma StaleStartKeepsInv(st: State, tx: TxId, move: Move)
    requires Inv(st) && Enabled(st, tx, move) && StaleStart(st, tx, move) && StartFits(st, tx, move)
    ensures Inv(Next(st, tx, move))
  {
    var after := Next(st, tx, move);
    StaleStartEnds(st, tx, move);
    hide Next, Enabled, TxnOk, Active;
    forall s | s in after.capacity ensures |Active(after, s)| <= after.capacity[s] {
      RevivedOccupants(st, tx, move, s);
    }
    forall other ensures TxnOk(after, other, TxnOf(after, other)) {
      if other == tx {
        IdleIsOk(after, tx);
      } else {
        assert TxnOk(st, other, TxnOf(st, other));
        StaleStartKeepsTxn(st, tx, move, other);
      }
    }
  }

  lemma StaleStartEnds(st: State, tx: TxId, move: Move)
    requires Enabled(st, tx, move) && StaleStart(st, tx, move)
    ensures TxnOf(Next(st, tx, move), tx) == Idle && Next(st, tx, move).capacity == st.capacity
  {
  }

  lemma IdleIsOk(st: State, tx: TxId)
    ensures TxnOk(st, tx, Idle)
  {
  }

  // ---- runs ---------------------------------------------------------------------------------

  ghost predicate IsRun(states: seq<State>, moves: seq<(TxId, Move)>) {
    && |states| == |moves| + 1
    && forall i :: 0 <= i < |moves| ==>
         Enabled(states[i], moves[i].0, moves[i].1) && states[i + 1] == Next(states[i], moves[i].0, moves[i].1)
  }

  ghost predicate AllStartsFit(states: seq<State>, moves: seq<(TxId, Move)>) {
    |moves| <= |states| && forall i :: 0 <= i < |moves| ==> StartFits(states[i], moves[i].0, moves[i].1)
  }

  /** Nobody holds a lock and no slot is overfull. */
  ghost predicate Quiet(st: State) {
    st.txns == map[] && WithinCapacity(st)
  }

  lemma QuietIsInv(st: State)
    requires Quiet(st)
    ensures Inv(st)
  {
  }

  lemma {:induction false} RunKeepsInv(states: seq<State>, moves: seq<(TxId, Move)>, n: nat)
    requires IsRun(states, moves) && AllStartsFit(states, moves) && Inv(states[0]) && n <= |moves|
    ensures Inv(states[n])
  {
    hide Inv, Next, Enabled, StartFits;
    if n > 0 {
      RunKeepsInv(states, moves, n - 1);
      MoveKeepsInv(states[n - 1], moves[n - 1].0, moves[n - 1].1);
    }
  }

  lemma OccupantsOf(st: State, s: SlotId)
    ensures Active(st, s) == set d | d in st.rows && st.rows[d].slot == Some(s) && st.rows[d].status in {Called, Receiving, AutoWarehouseReceiving}
  {
  }

  /** What the dispatcher's count decides: it goes on exactly when the slot has room. */
  lemma CountDecides(st: State, tx: TxId)
    requires Enabled(st, tx, Count)
    ensures
      var t := TxnOf(st, tx);
      var occupants := set d | d in st.rows && st.rows[d].slot == Some(t.s) && st.rows[d].status in {Called, Receiving, AutoWarehouseReceiving};
      TxnOf(Next(st, tx, Count), tx)
      == if t.s in st.capacity && |occupants| < st.capacity[t.s] then Counted(t.s, |occupants|) else Idle
  {
    var t := TxnOf(st, tx);
    OccupantsOf(st, t.s);
    hide Active;
  }

  /** What the count of a call by hand decides: it goes on exactly when the slot does not hold the delivery already and has
      room beside it. */
  lemma CountOthersDecides(st: State, tx: TxId)
    requires Enabled(st, tx, CountOthers)
    ensures
      var t := TxnOf(st, tx);
      var others := set d | d in st.rows && d != t.d && st.rows[d].slot == Some(t.s)
                            && st.rows[d].status in {Called, Receiving, AutoWarehouseReceiving};
      TxnOf(Next(st, tx, CountOthers), tx)
      == if !(t.row.status == Called && t.row.slot == Some(t.s)) && t.s in st.capacity && |others| < st.capacity[t.s]
         then CallCounted(t.d, t.row, t.s, |others|)
         else Idle
  {
    var t := TxnOf(st, tx);
    var others := set d | d in st.rows && d != t.d && st.rows[d].slot == Some(t.s)
                          && st.rows[d].status in {Called, Receiving, AutoWarehouseReceiving};
    assert others == Active(st, t.s) - {t.d};
    CountIs(st, tx);
    hide Next, Enabled, Active;
  }

  /** Capacity under interleaving: in every state of every run in which each stale start fits, every slot has at most
      maxCapacity active deliveries. */
  lemma CapacityIsNeverExceeded(states: seq<State>, moves: seq<(TxId, Move)>, n: nat, s: SlotId)
    requires IsRun(states, moves) && AllStartsFit(states, moves) && Quiet(states[0]) && n <= |moves|
    requires s in states[n].capacity
    ensures |Active(states[n], s)| <= states[n].capacity[s]
    ensures
      var rows := states[n].rows;
      |set d | d in rows && rows[d].slot == Some(s) && rows[d].status in {Called, Receiving, AutoWarehouseReceiving}|
      <= states[n].capacity[s]
  {
    OccupantsOf(states[n], s);
    QuietIsInv(states[0]);
    RunKeepsInv(states, moves, n);
    hide IsRun, AllStartsFit, TxnOk, Active;
  }

  /** The lock discipline behind it: only a transaction that holds the lock on a slot adds an occupant to it. */
  lemma OnlyTheLockHolderAdds(st: State, tx: TxId, move: Move, s: SlotId)
    requires Inv(st) && Enabled(st, tx, move) && !StaleStart(st, tx, move)
    ensures Active(Next(st, tx, move), s) <= Active(st, s) || HoldsSlot(st, tx, s)
  {
    var t := TxnOf(st, tx);
    assert TxnOk(st, tx, t);
    if move.CommitAssign? || move.CommitCall? {
      EnterOccupants(st, tx, t.d, t.s, s);
    } else {
      OtherMovesAddNobody(st, tx, move, s);
    }
  }

  lemma OtherMovesAddNobody(st: State, tx: TxId, move: Move, s: SlotId)
    requires TxnOk(st, tx, TxnOf(st, tx)) && Enabled(st, tx, move) && !StaleStart(st, tx, move)
    requires !move.CommitAssign? && !move.CommitCall?
    ensures Active(Next(st, tx, move), s) <= Active(st, s)
  {
    if Silent(move) {
      SilentSteps(st, tx, move);
    }
  }

  function Last(states: seq<State>): State
    requires |states| > 0
  {
    states[|states| - 1]
  }

  lemma Extend(states: seq<State>, moves: seq<(TxId, Move)>, tx: TxId, move: Move)
    returns (more: seq<State>, longer: seq<(TxId, Move)>)
    requires IsRun(states, moves) && Enabled(Last(states), tx, move)
    ensures IsRun(more, longer) && more[0] == states[0] && Last(more) == Next(Last(states), tx, move)
    ensures more == states + [Next(Last(states), tx, move)] && longer == moves + [(tx, move)]
    ensures AllStartsFit(states, moves) && !move.WriteStart? ==> AllStartsFit(more, longer)
  {
    hide Enabled, Next;
    more, longer := states + [Next(Last(states), tx, move)], moves + [(tx, move)];
  }

  // ---- exactly which starts are harmless ----------------------------------------------------

  /** No run that goes on from the move, and whose later stale starts fit, overfills a slot. */
  ghost predicate Harmless(st: State, tx: TxId, move: Move)
    requires Enabled(st, tx, move)
  {
    forall states, moves :: IsRun(states, moves) && states[0] == Next(st, tx, move) && AllStartsFit(states, moves)
      ==> WithinCapacity(Last(states))
  }

  lemma Overfull(st: State, s: SlotId)
    requires s in st.capacity && |Active(st, s)| > st.capacity[s]
    ensures !WithinCapacity(st)
  {
  }

  /** The pending commit into a full slot overfills it. */
  lemma CommitOverfills(states: seq<State>, moves: seq<(TxId, Move)>, h: TxId, s: SlotId)
    returns (more: seq<State>, longer: seq<(TxId, Move)>)
    requires IsRun(states, moves) && AllStartsFit(states, moves)
    requires var t := TxnOf(Last(states), h); (t.Assigned? || t.CallWritten?) && t.s == s && TxnPlace(Last(states), h, t)
    requires s in Last(states).capacity && |Active(Last(states), s)| >= Last(states).capacity[s]
    ensures IsRun(more, longer) && AllStartsFit(more, longer) && more[0] == states[0] && !WithinCapacity(Last(more))
  {
    var move := if TxnOf(Last(states), h).Assigned? then CommitAssign else CommitCall;
    CommitIntoFull(Last(states), h, s, move);
    more, longer := Extend(states, moves, h, move);
  }

  lemma CommitIntoFull(st: State, h: TxId, s: SlotId, move: Move)
    requires var t := TxnOf(st, h); (t.Assigned? || t.CallWritten?) && t.s == s && TxnPlace(st, h, t)
    requires move == if TxnOf(st, h).Assigned? then CommitAssign else CommitCall
    requires s in st.capacity && |Active(st, s)| >= st.capacity[s]
    ensures Enabled(st, h, move) && !WithinCapacity(Next(st, h, move))
  {
    var t := TxnOf(st, h);
    EnterOccupants(st, h, t.d, s, s);
    assert t.d !in Active(st, s);
    assert |Active(Next(st, h, move), s)| == |Active(st, s)| + 1;
    Overfull(Next(st, h, move), s);
  }

  /** One row change under its lock, undisturbed. */
  lemma RowSteps(st: State, z: TxId, d: DeliveryId, next: Row)
    requires d in st.rows && d !in st.rowLock && TxnOf(st, z) == Idle && RowChange(st.rows[d], Some(next))
    ensures
      && Enabled(st, z, LockRow(d))
      && Enabled(Next(st, z, LockRow(d)), z, WriteRow(Some(next)))
      && Enabled(Next(Next(st, z, LockRow(d)), z, WriteRow(Some(next))), z, CommitRow)
      && Next(Next(Next(st, z, LockRow(d)), z, WriteRow(Some(next))), z, CommitRow) == End(Put(st, d, next), z)
  {
    var locked := Advance(st, z, RowLocked(d)).(rowLock := st.rowLock[d := z]);
    var written := Advance(locked, z, RowWritten(d, Some(next)));
    LockIs(st, z, d);
    WriteIs(locked, z, d, next);
    CommitIs(written, z, d, next);
    hide Next, Enabled;
    SameEnd(Put(written, d, next), Put(st, d, next), z);
  }

  lemma LockIs(st: State, z: TxId, d: DeliveryId)
    requires d in st.rows && d !in st.rowLock && TxnOf(st, z) == Idle
    ensures Enabled(st, z, LockRow(d)) && Next(st, z, LockRow(d)) == Advance(st, z, RowLocked(d)).(rowLock := st.rowLock[d := z])
  {
  }

  lemma WriteIs(st: State, z: TxId, d: DeliveryId, next: Row)
    requires TxnOf(st, z) == RowLocked(d) && d in st.rows && RowChange(st.rows[d], Some(next))
    ensures Enabled(st, z, WriteRow(Some(next))) && Next(st, z, WriteRow(Some(next))) == Advance(st, z, RowWritten(d, Some(next)))
  {
    hide RowChange;
  }

  lemma CommitIs(st: State, z: TxId, d: DeliveryId, next: Row)
    requires TxnOf(st, z) == RowWritten(d, Some(next))
    ensures Enabled(st, z, CommitRow) && Next(st, z, CommitRow) == End(Put(st, d, next), z)
  {
    hide End;
  }

  lemma SameEnd(a: State, b: State, z: TxId)
    requires a.rows == b.rows && a.capacity == b.capacity && a.slotLock == b.slotLock && a.txns[z := Idle] == b.txns[z := Idle]
    requires forall d :: d in b.rowLock ==> d in a.rowLock && a.rowLock[d] == b.rowLock[d]
    requires forall d :: d in a.rowLock && d !in b.rowLock ==> a.rowLock[d] == z
    ensures End(a, z) == End(b, z)
  {
  }

  lemma RunRow(states: seq<State>, moves: seq<(TxId, Move)>, z: TxId, d: DeliveryId, next: Row)
    returns (more: seq<State>, longer: seq<(TxId, Move)>)
    requires IsRun(states, moves) && d in Last(states).rows && d !in Last(states).rowLock && TxnOf(Last(states), z) == Idle
    requires RowChange(Last(states).rows[d], Some(next))
    ensures IsRun(more, longer) && more[0] == states[0] && Last(more) == End(Put(Last(states), d, next), z)
    ensures AllStartsFit(states, moves) ==> AllStartsFit(more, longer)
  {
    RowSteps(Last(states), z, d, next);
    hide Next, Enabled, End, TxnOf;
    more, longer := Extend(states, moves, z, LockRow(d));
    more, longer := Extend(more, longer, z, WriteRow(Some(next)));
    more, longer := Extend(more, longer, z, CommitRow);
  }

  /** A delivery nobody has locked registers and checks in; nothing else changes for the holder of a slot. */
  lemma RunArrival(states: seq<State>, moves: seq<(TxId, Move)>, h: TxId, s: SlotId)
    returns (more: seq<State>, longer: seq<(TxId, Move)>, d: DeliveryId)
    requires IsRun(states, moves) && AllStartsFit(states, moves) && HoldsSlot(Last(states), h, s)
    ensures IsRun(more, longer) && AllStartsFit(more, longer) && more[0] == states[0]
    ensures d in Last(more).rows && Last(more).rows[d].status == Waiting && d !in Last(more).rowLock
    ensures TxnOf(Last(more), h) == TxnOf(Last(states), h) && HoldsSlot(Last(more), h, s)
    ensures Last(more).capacity == Last(states).capacity && Active(Last(more), s) == Active(Last(states), s)
  {
    var st := Last(states);
    d := FreshNat(st.rows.Keys + st.rowLock.Keys);
    var z := FreshNat(st.txns.Keys + {h});
    var registered := Put(st, d, Row(Registered, None));
    assert Enabled(st, z, Insert(d)) && Next(st, z, Insert(d)) == registered;
    more, longer := Extend(states, moves, z, Insert(d));
    more, longer := RunRow(more, longer, z, d, Row(Waiting, None));
    var arrived := Put(registered, d, Row(Waiting, None));
    EndKeepsOthers(arrived, z, h);
    ArrivalIsInactive(st, Last(more), d, s);
  }

  lemma ArrivalIsInactive(st: State, after: State, d: DeliveryId, s: SlotId)
    requires d !in st.rows && after.rows == st.rows[d := Row(Waiting, None)]
    ensures Active(after, s) == Active(st, s)
  {
  }

  /** Whoever has counted a slot that is now full can overfill it, if need be with a delivery that arrives later. */
  lemma PendingOverfills(states: seq<State>, moves: seq<(TxId, Move)>, h: TxId, s: SlotId)
    returns (more: seq<State>, longer: seq<(TxId, Move)>)
    requires IsRun(states, moves) && AllStartsFit(states, moves)
    requires var t := TxnOf(Last(states), h); PastCount(t) && t.s == s && TxnPlace(Last(states), h, t)
    requires s in Last(states).capacity && |Active(Last(states), s)| >= Last(states).capacity[s]
    ensures IsRun(more, longer) && AllStartsFit(more, longer) && more[0] == states[0] && !WithinCapacity(Last(more))
  {
    var t := TxnOf(Last(states), h);
    if t.Counted? {
      var d;
      more, longer, d := RunArrival(states, moves, h, s);
      more, longer := PickedOverfills(more, longer, h, s, d);
    } else {
      more, longer := ChosenOverfills(states, moves, h, s);
    }
  }

  lemma PickedOverfills(states: seq<State>, moves: seq<(TxId, Move)>, h: TxId, s: SlotId, d: DeliveryId)
    returns (more: seq<State>, longer: seq<(TxId, Move)>)
    requires IsRun(states, moves) && AllStartsFit(states, moves) && TxnOf(Last(states), h).Counted? && TxnOf(Last(states), h).s == s
    requires HoldsSlot(Last(states), h, s) && d in Last(states).rows && Last(states).rows[d].status == Waiting && d !in Last(states).rowLock
    requires s in Last(states).capacity && |Active(Last(states), s)| >= Last(states).capacity[s]
    ensures IsRun(more, longer) && AllStartsFit(more, longer) && more[0] == states[0] && !WithinCapacity(Last(more))
  {
    more, longer := Extend(states, moves, h, Pick(d));
    SameActive(Last(states), Last(more));
    more, longer := ChosenOverfills(more, longer, h, s);
  }

  lemma ChosenOverfills(states: seq<State>, moves: seq<(TxId, Move)>, h: TxId, s: SlotId)
    returns (more: seq<State>, longer: seq<(TxId, Move)>)
    requires IsRun(states, moves) && AllStartsFit(states, moves)
    requires var t := TxnOf(Last(states), h); PastCount(t) && !t.Counted? && t.s == s && TxnPlace(Last(states), h, t)
    requires s in Last(states).capacity && |Active(Last(states), s)| >= Last(states).capacity[s]
    ensures IsRun(more, longer) && AllStartsFit(more, longer) && more[0] == states[0] && !WithinCapacity(Last(more))
  {
    var t := TxnOf(Last(states), h);
    more, longer := states, moves;
    if t.Picked? || t.CallCounted? {
      more, longer := Extend(states, moves, h, if t.Picked? then Assign else WriteCall);
      SameActive(Last(states), Last(more));
    }
    more, longer := CommitOverfills(more, longer, h, s);
  }

  /** A stale start that does not fit overfills its slot, by itself or through the pending commit. */
  lemma UnfitStartOverfills(st: State, tx: TxId, move: Move) returns (states: seq<State>, moves: seq<(TxId, Move)>)
    requires Inv(st) && Enabled(st, tx, move) && !StartFits(st, tx, move)
    ensures IsRun(states, moves) && AllStartsFit(states, moves) && states[0] == Next(st, tx, move) && !WithinCapacity(Last(states))
  {
    var s, after := st.rows[TxnOf(st, tx).d].slot.value, Next(st, tx, move);
    RevivedOccupants(st, tx, move, s);
    StaleStartEnds(st, tx, move);
    assert |Active(after, s)| == |Active(st, s)| + 1;
    states, moves := [after], [];
    if |Active(after, s)| > st.capacity[s] {
      Overfull(after, s);
    } else {
      var h := st.slotLock[s];
      assert TxnOk(st, h, TxnOf(st, h));
      StaleStartLeaves(st, tx, move, h);
      hide Next, Enabled, Active, TxnPlace;
      states, moves := PendingOverfills(states, moves, h, s);
    }
  }

  /** A stale start is harmless exactly when it fits: when its slot has room for one, or for two while the holder of the
      slot's lock is past its count. */
  lemma StaleStartExact(st: State, tx: TxId, move: Move)
    requires Inv(st) && Enabled(st, tx, move) && StaleStart(st, tx, move)
    ensures StartFits(st, tx, move) <==> Harmless(st, tx, move)
  {
    hide Inv, Next, Enabled, StartFits, StaleStart;
    if StartFits(st, tx, move) {
      MoveKeepsInv(st, tx, move);
      forall states, moves | IsRun(states, moves) && states[0] == Next(st, tx, move) && AllStartsFit(states, moves)
        ensures WithinCapacity(Last(states))
      {
        RunKeepsInv(states, moves, |moves|);
        InvIsWithin(Last(states));
      }
    } else {
      var states, moves := UnfitStartOverfills(st, tx, move);
    }
  }

  lemma InvIsWithin(st: State)
    requires Inv(st)
    ensures WithinCapacity(st)
  {
  }

  // ---- two runs -----------------------------------------------------------------------------

  /** Transaction `y` cancels delivery `a` while nobody holds a lock. */
  lemma RunCancel(states: seq<State>, moves: seq<(TxId, Move)>, y: TxId, a: DeliveryId, s: SlotId)
    returns (more: seq<State>, longer: seq<(TxId, Move)>)
    requires IsRun(states, moves) && Last(states).slotLock == map[] && Last(states).rowLock == map[]
    requires a in Last(states).rows && Last(states).rows[a] == Row(Called, Some(s)) && TxnOf(Last(states), y) == Idle
    ensures IsRun(more, longer) && more[0] == states[0]
    ensures Last(more) == Put(Last(states), a, Row(Cancelled, Some(s))).(txns := Last(states).txns[y := Idle])
  {
    more, longer := RunRow(states, moves, y, a, Row(Cancelled, Some(s)));
    assert Last(more).slotLock.Keys == {} && Last(more).rowLock.Keys == {};
    ReleasedAll(Put(Last(states), a, Row(Cancelled, Some(s))), Last(more), y);
  }

  /** The dispatcher's reads: the state is as before but for the two locks and the transaction's position. */
  function Chosen(st: State, y: TxId, b: DeliveryId, s: SlotId): State {
    st.(slotLock := st.slotLock[s := y], rowLock := st.rowLock[b := y], txns := st.txns[y := Picked(s, |Active(st, s)|, b)])
  }

  lemma ChooseSteps(st: State, y: TxId, b: DeliveryId, s: SlotId)
    requires s !in st.slotLock && b !in st.rowLock && b in st.rows && st.rows[b].status == Waiting && TxnOf(st, y) == Idle
    requires s in st.capacity && |Active(st, s)| < st.capacity[s]
    ensures
      && Enabled(st, y, LockSlot(s))
      && Enabled(Next(st, y, LockSlot(s)), y, Count)
      && Enabled(Next(Next(st, y, LockSlot(s)), y, Count), y, Pick(b))
      && Next(Next(Next(st, y, LockSlot(s)), y, Count), y, Pick(b)) == Chosen(st, y, b, s)
  {
    SameActive(st, Next(st, y, LockSlot(s)));
  }

  lemma RunChoose(states: seq<State>, moves: seq<(TxId, Move)>, y: TxId, b: DeliveryId, s: SlotId)
    returns (more: seq<State>, longer: seq<(TxId, Move)>)
    requires IsRun(states, moves) && s !in Last(states).slotLock && b !in Last(states).rowLock
    requires b in Last(states).rows && Last(states).rows[b].status == Waiting && TxnOf(Last(states), y) == Idle
    requires s in Last(states).capacity && |Active(Last(states), s)| < Last(states).capacity[s]
    ensures IsRun(more, longer) && more[0] == states[0]
    ensures Last(more) == Chosen(Last(states), y, b, s)
  {
    ChooseSteps(Last(states), y, b, s);
    more, longer := Extend(states, moves, y, LockSlot(s));
    more, longer := Extend(more, longer, y, Count);
    more, longer := Extend(more, longer, y, Pick(b));
  }

  /** Transaction `y` assigns waiting delivery `b` to slot `s`, which has room. */
  lemma RunAssign(states: seq<State>, moves: seq<(TxId, Move)>, y: TxId, b: DeliveryId, s: SlotId)
    returns (more: seq<State>, longer: seq<(TxId, Move)>)
    requires IsRun(states, moves) && Last(states).slotLock == map[] && Last(states).rowLock == map[]
    requires b in Last(states).rows && Last(states).rows[b].status == Waiting && TxnOf(Last(states), y) == Idle
    requires s in Last(states).capacity && |Active(Last(states), s)| < Last(states).capacity[s]
    ensures IsRun(more, longer) && more[0] == states[0]
    ensures Last(more) == Put(Last(states), b, Row(Called, Some(s))).(txns := Last(states).txns[y := Idle])
  {
    more, longer := RunChoose(states, moves, y, b, s);
    more, longer := Extend(more, longer, y, Assign);
    more, longer := Extend(more, longer, y, CommitAssign);
    ReleasedAll(Put(Last(states), b, Row(Called, Some(s))), Last(more), y);
  }

  /** The dispatch above ends with no lock left and nothing else changed. */
  lemma ReleasedAll(st: State, after: State, y: TxId)
    requires after.slotLock.Keys == {} && after.rowLock.Keys == {} && st.slotLock == map[] && st.rowLock == map[]
    requires after.rows == st.rows && after.capacity == st.capacity && after.txns == st.txns[y := Idle]
    ensures after == st.(txns := st.txns[y := Idle])
  {
    assert after.slotLock == map[] && after.rowLock == map[];
  }

  /** A run that shows it: delivery `a` was read as CALLED in a slot for one, is cancelled, `b` is called into the slot,
      and the pending update then revives `a`: two active deliveries in a slot of capacity one. */
  lemma StaleStartOverfills(st: State, a: DeliveryId, b: DeliveryId, s: SlotId, x: TxId, y: TxId)
    returns (states: seq<State>, moves: seq<(TxId, Move)>)
    requires Quiet(st) && st.slotLock == map[] && st.rowLock == map[] && x != y && a != b
    requires a in st.rows && st.rows[a] == Row(Called, Some(s)) && b in st.rows && st.rows[b] == Row(Waiting, None)
    requires s in st.capacity && st.capacity[s] == 1
    ensures IsRun(states, moves) && states[0] == st
    ensures s in Last(states).capacity && |Active(Last(states), s)| > Last(states).capacity[s]
  {
    states, moves := RunReplaced(st, a, b, s, x, y);
    states, moves := Extend(states, moves, x, WriteStart(false));
    SubsetSize({a, b}, Active(Last(states), s));
  }

  /** A slot that is not full does not save a stale start: `a` is read as CALLED in a slot for one and cancelled, `b` is
      chosen for the empty slot, the pending update revives `a` there, and then the dispatch of `b` commits. */
  lemma StaleStartOverfillsLater(st: State, a: DeliveryId, b: DeliveryId, s: SlotId, x: TxId, y: TxId)
    returns (states: seq<State>, moves: seq<(TxId, Move)>, k: nat)
    requires Quiet(st) && st.slotLock == map[] && st.rowLock == map[] && x != y && a != b
    requires a in st.rows && st.rows[a] == Row(Called, Some(s)) && b in st.rows && st.rows[b] == Row(Waiting, None)
    requires s in st.capacity && st.capacity[s] == 1
    ensures IsRun(states, moves) && states[0] == st
    ensures k < |moves| && moves[k] == (x, WriteStart(false)) && |Active(states[k], s)| == 0
    ensures s in Last(states).capacity && |Active(Last(states), s)| > Last(states).capacity[s]
  {
    states, moves := RunChosen(st, a, b, s, x, y);
    k := |moves|;
    states, moves := Extend(states, moves, x, WriteStart(false));
    states, moves := RunCommits(states, moves, y, b, s);
    SubsetSize({a, b}, Active(Last(states), s));
  }

  lemma RunChosen(st: State, a: DeliveryId, b: DeliveryId, s: SlotId, x: TxId, y: TxId)
    returns (states: seq<State>, moves: seq<(TxId, Move)>)
    requires Quiet(st) && st.slotLock == map[] && st.rowLock == map[] && x != y && a != b
    requires a in st.rows && st.rows[a] == Row(Called, Some(s)) && b in st.rows && st.rows[b] == Row(Waiting, None)
    requires s in st.capacity && st.capacity[s] == 1
    ensures IsRun(states, moves) && states[0] == st && |Active(Last(states), s)| == 0
    ensures Last(states).rows == st.rows[a := Row(Cancelled, Some(s))] && Last(states).capacity == st.capacity
    ensures TxnOf(Last(states), x) == StartRead(a) && TxnOf(Last(states), y) == Picked(s, 0, b) && Last(states).rowLock == map[b := y]
  {
    states, moves := Extend([st], [], x, ReadStart(a));
    states, moves := RunCancel(states, moves, y, a, s);
    EmptiedSlot(st, Last(states), a, s);
    var cancelled := Last(states);
    states, moves := RunChoose(states, moves, y, b, s);
    SameActive(cancelled, Last(states));
  }

  lemma RunCommits(states: seq<State>, moves: seq<(TxId, Move)>, y: TxId, b: DeliveryId, s: SlotId)
    returns (more: seq<State>, longer: seq<(TxId, Move)>)
    requires IsRun(states, moves) && TxnOf(Last(states), y).Picked? && TxnOf(Last(states), y).s == s && TxnOf(Last(states), y).d == b
    ensures IsRun(more, longer) && states <= more && moves <= longer
    ensures Last(more).rows == Last(states).rows[b := Row(Called, Some(s))] && Last(more).capacity == Last(states).capacity
  {
    more, longer := Extend(states, moves, y, Assign);
    more, longer := Extend(more, longer, y, CommitAssign);
  }

  lemma RunReplaced(st: State, a: DeliveryId, b: DeliveryId, s: SlotId, x: TxId, y: TxId)
    returns (states: seq<State>, moves: seq<(TxId, Move)>)
    requires Quiet(st) && st.slotLock == map[] && st.rowLock == map[] && x != y && a != b
    requires a in st.rows && st.rows[a] == Row(Called, Some(s)) && b in st.rows && st.rows[b] == Row(Waiting, None)
    requires s in st.capacity && st.capacity[s] == 1
    ensures IsRun(states, moves) && states[0] == st
    ensures Last(states).rows == st.rows[a := Row(Cancelled, Some(s))][b := Row(Called, Some(s))]
    ensures Last(states).capacity == st.capacity && Last(states).rowLock == map[] && TxnOf(Last(states), x) == StartRead(a)
  {
    states, moves := Extend([st], [], x, ReadStart(a));
    states, moves := RunCancel(states, moves, y, a, s);
    EmptiedSlot(st, Last(states), a, s);
    states, moves := RunAssign(states, moves, y, b, s);
  }

  lemma EmptiedSlot(st: State, after: State, a: DeliveryId, s: SlotId)
    requires WithinCapacity(st) && s in st.capacity && st.capacity[s] == 1
    requires a in st.rows && st.rows[a] == Row(Called, Some(s)) && after.rows == st.rows[a := Row(Cancelled, Some(s))]
    ensures |Active(after, s)| == 0
  {
    assert Active(after, s) == Active(st, s) - {a};
  }
}
