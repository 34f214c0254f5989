/** What the append-only event log says about one delivery. */
module Trails {
  import opened Types

  /** Replayed status, number of REGISTERED events, closing events in order, number of call events. */
  datatype Trail = Trail(status: Option<Status>, registered: nat, closings: seq<EventKind>, calls: nat)

  const NO_TRAIL: Trail := Trail(None, 0, [], 0)

  function Extend(t: Trail, e: Event): Trail {
    Trail(if e.to.Some? then e.to else t.status,
          t.registered + (if e.kind == RegisteredEvent then 1 else 0),
          if IsClosing(e.kind) then t.closings + [e.kind] else t.closings,
          t.calls + (if IsCall(e.kind) then 1 else 0))
  }

  function TrailOf(log: seq<Event>, id: DeliveryId): Trail {
    if log == [] then NO_TRAIL
    else
      var before, e := TrailOf(log[..|log| - 1], id), log[|log| - 1];
      if e.id == id then Extend(before, e) else before
  }

  /** Every non-null fromStatus is the status replayed so far. */
  predicate Replays(log: seq<Event>) {
    log == []
    || (var before, e := log[..|log| - 1], log[|log| - 1];
        Replays(before) && (e.from.Some? ==> TrailOf(before, e.id).status == e.from))
  }

  lemma TrailSnoc(log: seq<Event>, e: Event, id: DeliveryId)
    ensures TrailOf(log + [e], id) == if e.id == id then Extend(TrailOf(log, id), e) else TrailOf(log, id)
    ensures Replays(log + [e]) <==> Replays(log) && (e.from.Some? ==> TrailOf(log, e.id).status == e.from)
  {
    assert (log + [e])[..|log + [e]| - 1] == log;
  }

  /** The recursive definition says it of every position of the log. */
  lemma {:induction false} ReplaysEverywhere(log: seq<Event>, i: nat)
    requires Replays(log) && i < |log|
    ensures log[i].from.Some? ==> TrailOf(log[..i], log[i].id).status == log[i].from
    decreases |log|
  {
    if i < |log| - 1 {
      ReplaysEverywhere(log[..|log| - 1], i);
      assert log[..|log| - 1][..i] == log[..i];
    }
  }

  /** Position `i` is the last event of the delivery that has a toStatus. */
  ghost predicate IsLastStatus(log: seq<Event>, id: DeliveryId, i: int) {
    && 0 <= i < |log| && log[i].id == id && log[i].to.Some?
    && forall j :: i < j < |log| && log[j].id == id ==> log[j].to.None?
  }

  /** The replayed status is the toStatus of the last event of the delivery that has one. */
  lemma {:induction false} ReplayedStatusIsLast(log: seq<Event>, id: DeliveryId, i: nat)
    requires IsLastStatus(log, id, i)
    ensures TrailOf(log, id).status == log[i].to
    decreases |log|
  {
    if i < |log| - 1 {
      ReplayedStatusIsLast(log[..|log| - 1], id, i);
    }
  }

  lemma {:induction false} LastStatusExists(log: seq<Event>, id: DeliveryId) returns (i: nat)
    requires TrailOf(log, id).status.Some?
    ensures IsLastStatus(log, id, i)
    decreases |log|
  {
    var n := |log| - 1;
    if log[n].id == id && log[n].to.Some? {
      i := n;
    } else {
      i := LastStatusExists(log[..n], id);
    }
  }

  /** Where the log has events of the delivery of the given kinds. */
  function Positions(log: seq<Event>, id: DeliveryId, kinds: set<EventKind>): set<nat> {
    set i: nat | 0 <= i < |log| && log[i].id == id && log[i].kind in kinds
  }

  const CLOSING_KINDS: set<EventKind> := {CompletedEvent, CancelledEvent, ExpiredNoShowEvent, ExpiredWaitingEvent, IncompletedEvent}
  const CALL_KINDS: set<EventKind> := {AutoAssignedEvent, ManualCalledEvent, RecalledEvent, ReassignedSlotEvent}

  /** The counters are the numbers of matching log entries, as the count queries compute them. */
  lemma {:induction false} CountersCount(log: seq<Event>, id: DeliveryId)
    ensures TrailOf(log, id).registered == |Positions(log, id, {RegisteredEvent})|
    ensures |TrailOf(log, id).closings| == |Positions(log, id, CLOSING_KINDS)|
    ensures TrailOf(log, id).calls == |Positions(log, id, CALL_KINDS)|
    decreases |log|
  {
    if log == [] {
      assert forall kinds :: Positions(log, id, kinds) == {};
    } else {
      CountersCount(log[..|log| - 1], id);
      PositionsSnoc(log, id, {RegisteredEvent});
      PositionsSnoc(log, id, CLOSING_KINDS);
      PositionsSnoc(log, id, CALL_KINDS);
    }
  }

  /** A closing kind is among the closings exactly when the log has such an event. */
  lemma {:induction false} ClosingsAre(log: seq<Event>, id: DeliveryId, kind: EventKind)
    requires IsClosing(kind)
    ensures kind in TrailOf(log, id).closings <==> exists i: nat :: i in Positions(log, id, {kind})
    decreases |log|
  {
    if log != [] {
      var n := |log| - 1;
      ClosingsAre(log[..n], id, kind);
      assert Positions(log, id, {kind})
             == Positions(log[..n], id, {kind}) + (if log[n].id == id && log[n].kind == kind then {n} else {});
      if log[n].id == id && log[n].kind == kind {
        assert n in Positions(log, id, {kind});
      }
    }
  }

  lemma PositionsSnoc(log: seq<Event>, id: DeliveryId, kinds: set<EventKind>)
    requires log != []
    ensures
      var last := log[|log| - 1];
      |Positions(log, id, kinds)| == |Positions(log[..|log| - 1], id, kinds)| + (if last.id == id && last.kind in kinds then 1 else 0)
  {
    var n, last := |log| - 1, log[|log| - 1];
    assert Positions(log, id, kinds) == Positions(log[..n], id, kinds) + (if last.id == id && last.kind in kinds then {n} else {});
  }
}
