/** The mutable tables a transaction works on. */
module Store {
  import opened Types

  /** One committed copy of the tables; a transaction that succeeds leaves its writes here. */
  class Tables {
    var rows: map<DeliveryId, Delivery>
    var slots: map<SlotId, Slot>
    var history: map<DeliveryId, History>
    var log: seq<Event>
    const configs: map<ConfigId, LocationId>

    constructor (slots: map<SlotId, Slot>, configs: map<ConfigId, LocationId>)
      ensures Snapshot() == Db(map[], slots, map[], [], configs)
    {
      rows, this.slots, history, log := map[], slots, map[], [];
      this.configs := configs;
    }

    function Snapshot(): Db
      reads this
    {
      Db(rows, slots, history, log, configs)
    }
  }
}
