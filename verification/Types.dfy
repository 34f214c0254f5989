/** The tables of the yard: delivery registrations, slots, delivery history and the event log.
    Every other module speaks about these rows. */
module Types {

  datatype Option<+T> = None | Some(value: T)

  type DeliveryId = nat
  type SlotId = nat
  type ConfigId = nat
  type LocationId = nat
  type UnitCode = nat
  type Plate = string

  /** DeliveryStatus of the schema. */
  datatype Status =
    | Registered
    | Waiting
    | Called
    | Receiving
    | AutoWarehouseReceiving
    | Completed
    | Cancelled
    | Expired
    | Incompleted

  /** DeliveryHistoryFinalStatus of the schema. */
  datatype FinalStatus = FinalCompleted | FinalCancelled | FinalExpired | FinalIncompleted

  /** DeliveryHistoryEventType of the schema. */
  datatype EventKind =
    | RegisteredEvent
    | CheckedInEvent
    | AutoAssignedEvent
    | ManualCalledEvent
    | RecalledEvent
    | ReassignedSlotEvent
    | ReceivingStartedEvent
    | AutoWarehouseReceivingStartedEvent
    | CompletedEvent
    | CancelledEvent
    | ExpiredNoShowEvent
    | ExpiredWaitingEvent
    | IncompletedEvent
    | ArchivedEvent

  datatype SlotStatus = Available | Occupied | Reserved | Maintenance

  datatype Goods = FreshFood | AutoWarehouse | GeneralGoods | ThiCong

  datatype Vehicle = Truck | Motorbike

  /** A row of delivery_registrations.  Times are milliseconds since the epoch. */
  datatype Delivery = Delivery(
    plate: Plate,
    unit: UnitCode,
    config: Option<ConfigId>,
    goods: Goods,
    originalGoods: Option<Goods>,
    vehicle: Vehicle,
    requested: Option<int>,
    checkin: Option<int>,
    called: Option<int>,
    receivingStart: Option<int>,
    completed: Option<int>,
    status: Status,
    slot: Option<SlotId>,
    autoWarehouse: bool,
    ticket: Option<nat>,
    cancelReason: Option<string>,
    createdAt: int,
    updatedAt: int)

  /** A row of slots.  `code` is the rank of the slot's code in the collation order. */
  datatype Slot = Slot(
    code: nat,
    unit: UnitCode,
    vehicle: Vehicle,
    acceptedGoods: seq<Goods>,
    goodsPriority: seq<Goods>,
    autoAssign: bool,
    maxCapacity: int,
    status: SlotStatus,
    isActive: bool,
    current: Option<DeliveryId>,
    lastUsed: Option<int>,
    config: ConfigId)

  /** A row of delivery_history, keyed by the original delivery. */
  datatype History = History(
    final: FinalStatus,
    location: Option<LocationId>,
    plate: Plate,
    requested: Option<int>,
    registeredAt: int,
    completed: Option<int>,
    slot: Option<SlotId>,
    callCount: nat)

  /** A row of delivery_history_events. */
  datatype Event = Event(
    id: DeliveryId,
    kind: EventKind,
    from: Option<Status>,
    to: Option<Status>,
    at: int)

  /** The committed database. `configs` gives the business location of each unit config. */
  datatype Db = Db(
    rows: map<DeliveryId, Delivery>,
    slots: map<SlotId, Slot>,
    history: map<DeliveryId, History>,
    log: seq<Event>,
    configs: map<ConfigId, LocationId>)

  /** ACTIVE_SLOT_DELIVERY_STATUSES, which is also COMPLETABLE_STATUSES. */
  predicate IsActive(status: Status) {
    status == Called || status == Receiving || status == AutoWarehouseReceiving
  }

  /** COMPLETED and CANCELLED, the final statuses an operational row may carry. */
  predicate IsTerminal(status: Status) {
    status == Completed || status == Cancelled
  }

  /** MANUAL_SLOT_STATUSES */
  predicate IsManual(status: SlotStatus) {
    status == Maintenance || status == Reserved
  }

  predicate IsCall(kind: EventKind) {
    kind == AutoAssignedEvent || kind == ManualCalledEvent || kind == RecalledEvent || kind == ReassignedSlotEvent
  }

  predicate IsClosing(kind: EventKind) {
    kind == CompletedEvent || kind == CancelledEvent || kind == ExpiredNoShowEvent
    || kind == ExpiredWaitingEvent || kind == IncompletedEvent
  }

  /** The operational status a history row stands for. */
  function StatusOf(final: FinalStatus): Status {
    match final
    case FinalCompleted => Completed
    case FinalCancelled => Cancelled
    case FinalExpired => Expired
    case FinalIncompleted => Incompleted
  }

  /** Deliveries that occupy slot `s`. */
  function ActiveIn(db: Db, s: SlotId): set<DeliveryId> {
    set d | d in db.rows && db.rows[d].slot == Some(s) && IsActive(db.rows[d].status)
  }
}
