/** Reference-counted leases of tracking rooms on one socket.  Codes are trimmed and in upper case already. */
module TrackRoom {
  /** A lease: how many handles hold it, and the identity of its `connect` listener. */
  datatype Lease = Lease(count: int, join: nat)

  /** A handle is a closure with a `released` flag.  `lease` records where it came from; the code never looks at it. */
  datatype Handle = Handle(code: string, released: bool, lease: nat)

  datatype Listener = Listener(code: string, join: nat)

  /** What happens on the socket: messages sent, connection attempts, and the connection going up and down. */
  datatype Signal = Join(code: string) | Leave(code: string) | Connecting | Up | Down

  datatype State = State(
    rooms: map<string, Lease>,
    listeners: seq<Listener>,
    handles: seq<Handle>,
    signals: seq<Signal>,
    connected: bool,
    joins: nat)

  function Joins(listeners: seq<Listener>): seq<Signal> {
    if listeners == [] then [] else Joins(listeners[..|listeners| - 1]) + [Join(listeners[|listeners| - 1].code)]
  }

  /** socket.off of one listener */
  function Off(listeners: seq<Listener>, l: Listener): (r: seq<Listener>)
    ensures forall x :: x in r ==> x in listeners
    ensures forall x :: x in listeners && x != l ==> x in r
  {
    if listeners == [] then []
    else if listeners[0] == l then listeners[1..]
    else [listeners[0]] + Off(listeners[1..], l)
  }

  /** The state after retainTrackRoom(socket, code). */
  function Retained(st: State, code: string): State {
    if code in st.rooms then
      var lease := st.rooms[code];
      st.(rooms := st.rooms[code := lease.(count := lease.count + 1)], handles := st.handles + [Handle(code, false, lease.join)])
    else
      st.(rooms := st.rooms[code := Lease(1, st.joins)],
          listeners := st.listeners + [Listener(code, st.joins)],
          signals := st.signals + [if st.connected then Join(code) else Connecting],
          handles := st.handles + [Handle(code, false, st.joins)],
          joins := st.joins + 1)
  }

  /** The state after calling handle `i`. */
  function Released(st: State, i: nat): State
    requires i < |st.handles|
  {
    var h := st.handles[i];
    if h.released then st
    else
      var marked := st.(handles := st.handles[i := h.(released := true)]);
      if h.code !in st.rooms then marked
      else
        var lease := st.rooms[h.code].(count := st.rooms[h.code].count - 1);
        if lease.count > 0 then marked.(rooms := st.rooms[h.code := lease])
        else
          marked.(rooms := st.rooms - {h.code},
                  listeners := Off(st.listeners, Listener(h.code, lease.join)),
                  signals := st.signals + [Leave(h.code)])
  }

  /** The connection comes up and every listener joins its room, or goes down. */
  function Switched(st: State, up: bool): State {
    if up then st.(connected := true, signals := st.signals + [Up] + Joins(st.listeners))
    else st.(connected := false, signals := st.signals + [Down])
  }

  class Rooms {
    var rooms: map<string, Lease>
    var listeners: seq<Listener>
    var handles: seq<Handle>
    var signals: seq<Signal>
    var connected: bool
    var joins: nat

    constructor ()
      ensures Snapshot() == State(map[], [], [], [], false, 0)
    {
      rooms, listeners, handles, signals, connected, joins := map[], [], [], [], false, 0;
    }

    ghost function Snapshot(): State
      reads this
    {
      State(rooms, listeners, handles, signals, connected, joins)
    }

    /** retainTrackRoom */
    method Retain(code: string) returns (handle: nat)
      modifies this
      ensures Snapshot() == Retained(old(Snapshot()), code) && handle == |old(handles)|
    {
      var lease: Lease;
      if code in rooms {
        lease := rooms[code];
      } else {
        lease := Lease(0, joins);
        joins := joins + 1;
        listeners := listeners + [Listener(code, lease.join)];
        signals := signals + [if connected then Join(code) else Connecting];
      }
      lease := lease.(count := lease.count + 1);
      rooms := rooms[code := lease];
      handle := |handles|;
      handles := handles + [Handle(code, false, lease.join)];
    }

    /** Calling the function that retainTrackRoom returned. */
    method Release(handle: nat)
      requires handle < |handles|
      modifies this
      ensures Snapshot() == Released(old(Snapshot()), handle)
    {
      var h := handles[handle];
      if h.released { return; }
      handles := handles[handle := h.(released := true)];
      if h.code !in rooms { return; }
      var current := rooms[h.code].(count := rooms[h.code].count - 1);
      rooms := rooms[h.code := current];
      if current.count > 0 { return; }
      listeners := Off(listeners, Listener(h.code, current.join));
      signals := signals + [Leave(h.code)];
      rooms := rooms - {h.code};
    }
  }

  // ---- the invariant ------------------------------------------------------------------------

  function Held(handles: seq<Handle>, code: string): nat {
    if handles == [] then 0
    else Held(handles[..|handles| - 1], code) + (if handles[|handles| - 1].code == code && !handles[|handles| - 1].released then 1 else 0)
  }

  function Count(st: State, code: string): int { if code in st.rooms then st.rooms[code].count else 0 }

  /** Rooms the server has the socket in, as told by the signals; a lost connection leaves them all. */
  function Members(signals: seq<Signal>): set<string> {
    if signals == [] then {} else Told(Members(signals[..|signals| - 1]), signals[|signals| - 1])
  }

  function Told(members: set<string>, s: Signal): set<string> {
    match s
    case Join(code) => members + {code}
    case Leave(code) => members - {code}
    case Down => {}
    case _ => members
  }

  ghost predicate CountsHandles(st: State) {
    forall code :: Count(st, code) == Held(st.handles, code) && (code in st.rooms ==> st.rooms[code].count > 0)
  }

  ghost predicate ListensOnce(st: State) {
    && (forall l :: l in st.listeners <==> l.code in st.rooms && st.rooms[l.code].join == l.join)
    && (forall i, j :: 0 <= i < j < |st.listeners| ==> st.listeners[i] != st.listeners[j])
  }

  ghost predicate OwnLease(st: State) {
    && (forall i :: 0 <= i < |st.handles| && !st.handles[i].released ==>
          st.handles[i].code in st.rooms && st.rooms[st.handles[i].code].join == st.handles[i].lease)
    && (forall code :: code in st.rooms ==> st.rooms[code].join < st.joins)
  }

  ghost predicate ServerKnows(st: State) { Members(st.signals) == if st.connected then st.rooms.Keys else {} }

  ghost predicate Inv(st: State) { CountsHandles(st) && ListensOnce(st) && OwnLease(st) && ServerKnows(st) }

  // ---- preservation -------------------------------------------------------------------------

  lemma HeldSnoc(handles: seq<Handle>, h: Handle, code: string)
    ensures Held(handles + [h], code) == Held(handles, code) + (if h.code == code && !h.released then 1 else 0)
  {
    assert (handles + [h])[..|handles|] == handles;
  }

  lemma {:induction false} HeldRelease(handles: seq<Handle>, i: nat, code: string)
    requires i < |handles| && !handles[i].released
    ensures Held(handles[i := handles[i].(released := true)], code) == Held(handles, code) - (if handles[i].code == code then 1 else 0)
  {
    var after := handles[i := handles[i].(released := true)];
    var n := |handles| - 1;
    if i < n {
      HeldRelease(handles[..n], i, code);
      assert after[..n] == handles[..n][i := handles[i].(released := true)];
    } else {
      assert after[..n] == handles[..n];
    }
  }

  lemma {:induction false} HeldPositive(handles: seq<Handle>, i: nat)
    requires i < |handles| && !handles[i].released
    ensures Held(handles, handles[i].code) > 0
  {
    if i < |handles| - 1 {
      HeldPositive(handles[..|handles| - 1], i);
    }
  }

  lemma MembersSnoc(signals: seq<Signal>, s: Signal)
    ensures Members(signals + [s]) == Told(Members(signals), s)
  {
    assert (signals + [s])[..|signals|] == signals;
  }

  lemma {:induction false} MembersJoin(signals: seq<Signal>, listeners: seq<Listener>)
    ensures Members(signals + Joins(listeners)) == Members(signals) + set l | l in listeners :: l.code
  {
    if listeners == [] {
      assert signals + Joins(listeners) == signals;
    } else {
      var n := |listeners| - 1;
      MembersJoin(signals, listeners[..n]);
      assert signals + Joins(listeners) == signals + Joins(listeners[..n]) + [Join(listeners[n].code)];
      MembersSnoc(signals + Joins(listeners[..n]), Join(listeners[n].code));
      assert listeners == listeners[..n] + [listeners[n]];
    }
  }

  lemma RetainKeepsInv(st: State, code: string)
    requires Inv(st)
    ensures Inv(Retained(st, code))
  {
    RetainCounts(st, code);
    RetainListens(st, code);
    RetainTells(st, code);
    hide CountsHandles, ListensOnce, OwnLease, ServerKnows, Retained;
  }

  lemma RetainCounts(st: State, code: string)
    requires CountsHandles(st)
    ensures CountsHandles(Retained(st, code))
  {
    var after := Retained(st, code);
    var h := Handle(code, false, if code in st.rooms then st.rooms[code].join else st.joins);
    forall c ensures Count(after, c) == Held(after.handles, c) && (c in after.rooms ==> after.rooms[c].count > 0) {
      assert Count(st, c) == Held(st.handles, c) && (c in st.rooms ==> st.rooms[c].count > 0);
      HeldSnoc(st.handles, h, c);
    }
    hide Held;
  }

  lemma RetainTells(st: State, code: string)
    requires ServerKnows(st)
    ensures ServerKnows(Retained(st, code))
  {
    MembersSnoc(st.signals, if st.connected then Join(code) else Connecting);
    hide Members;
  }

  lemma RetainListens(st: State, code: string)
    requires ListensOnce(st) && OwnLease(st)
    ensures ListensOnce(Retained(st, code)) && OwnLease(Retained(st, code))
  {
    var after := Retained(st, code);
    forall l ensures l in after.listeners <==> l.code in after.rooms && after.rooms[l.code].join == l.join {
      assert l in after.listeners <==> l in st.listeners || (code !in st.rooms && l == Listener(code, st.joins));
    }
  }

  lemma {:induction false} OffRemoves(listeners: seq<Listener>, l: Listener)
    requires forall i, j :: 0 <= i < j < |listeners| ==> listeners[i] != listeners[j]
    ensures l !in Off(listeners, l)
    ensures forall i, j :: 0 <= i < j < |Off(listeners, l)| ==> Off(listeners, l)[i] != Off(listeners, l)[j]
  {
    if listeners != [] && listeners[0] != l {
      OffRemoves(listeners[1..], l);
      assert listeners[0] !in listeners[1..];
    }
  }

  lemma ReleaseKeepsInv(st: State, i: nat)
    requires Inv(st) && i < |st.handles|
    ensures Inv(Released(st, i))
  {
    var h, after := st.handles[i], Released(st, i);
    if !h.released {
      HeldPositive(st.handles, i);
      assert Count(st, h.code) > 0;
      forall c ensures Count(after, c) == Held(after.handles, c) {
        HeldRelease(st.handles, i, c);
      }
      if st.rooms[h.code].count == 1 {
        MembersSnoc(st.signals, Leave(h.code));
      }
      ReleaseListens(st, i);
      ReleaseOwns(st, i);
      hide Held, Members, Off, ListensOnce, OwnLease;
    }
  }

  lemma ReleaseListens(st: State, i: nat)
    requires ListensOnce(st) && OwnLease(st) && i < |st.handles| && !st.handles[i].released
    ensures ListensOnce(Released(st, i))
  {
    var h := st.handles[i];
    OffRemoves(st.listeners, Listener(h.code, st.rooms[h.code].join));
    hide Off;
  }

  lemma ReleaseOwns(st: State, i: nat)
    requires Inv(st) && i < |st.handles| && !st.handles[i].released
    ensures OwnLease(Released(st, i))
  {
    var h, after := st.handles[i], Released(st, i);
    HeldRelease(st.handles, i, h.code);
    assert Count(st, h.code) == Held(st.handles, h.code);
    forall j | 0 <= j < |after.handles| && !after.handles[j].released
      ensures after.handles[j].code in after.rooms && after.rooms[after.handles[j].code].join == after.handles[j].lease
    {
      if after.handles[j].code == h.code {
        HeldPositive(after.handles, j);
      }
    }
    hide Held, Off;
  }

  lemma SwitchKeepsInv(st: State, up: bool)
    requires Inv(st)
    ensures Inv(Switched(st, up))
  {
    var after := Switched(st, up);
    SwitchTells(st, up);
    hide Held, Members, Joins, ServerKnows;
    assert forall code :: Count(after, code) == Count(st, code);
  }

  lemma ListenersCoverRooms(st: State)
    requires ListensOnce(st)
    ensures (set l | l in st.listeners :: l.code) == st.rooms.Keys
  {
    forall code | code in st.rooms ensures code in set l | l in st.listeners :: l.code {
      assert Listener(code, st.rooms[code].join) in st.listeners;
    }
  }

  lemma SwitchTells(st: State, up: bool)
    requires ListensOnce(st) && ServerKnows(st)
    ensures ServerKnows(Switched(st, up))
  {
    if up {
      MembersSnoc(st.signals, Up);
      MembersJoin(st.signals + [Up], st.listeners);
      ListenersCoverRooms(st);
    } else {
      MembersSnoc(st.signals, Down);
    }
    hide Members, Joins, ListensOnce;
  }

  // ---- runs ---------------------------------------------------------------------------------

  datatype Step = DoRetain(code: string) | DoRelease(i: nat) | DoSwitch(up: bool)

  ghost predicate Next(st: State, step: Step, after: State) {
    match step
    case DoRetain(code) => after == Retained(st, code)
    case DoRelease(i) => i < |st.handles| && after == Released(st, i)
    case DoSwitch(up) => after == Switched(st, up)
  }

  ghost predicate IsRun(states: seq<State>, steps: seq<Step>) {
    && |states| == |steps| + 1 && states[0] == State(map[], [], [], [], false, 0)
    && forall i :: 0 <= i < |steps| ==> Next(states[i], steps[i], states[i + 1])
  }

  lemma {:induction false} RunKeepsInv(states: seq<State>, steps: seq<Step>, n: nat)
    requires IsRun(states, steps) && n <= |steps|
    ensures Inv(states[n])
  {
    hide Retained, Released, Switched;
    if n > 0 {
      RunKeepsInv(states, steps, n - 1);
      assert Next(states[n - 1], steps[n - 1], states[n]);
      match steps[n - 1] {
        case DoRetain(code) => RetainKeepsInv(states[n - 1], code);
        case DoRelease(i) => ReleaseKeepsInv(states[n - 1], i);
        case DoSwitch(up) => SwitchKeepsInv(states[n - 1], up);
      }
    }
  }

  /** In every run the count of a code is the number of its handles that are not released, and its `connect` listener is
      there exactly while that is positive. */
  lemma CountIsUnreleasedHandles(states: seq<State>, steps: seq<Step>, n: nat, code: string)
    requires IsRun(states, steps) && n <= |steps|
    ensures Count(states[n], code) == Held(states[n].handles, code)
    ensures (exists l :: l in states[n].listeners && l.code == code) <==> Held(states[n].handles, code) > 0
  {
    RunKeepsInv(states, steps, n);
    hide Held;
    var st := states[n];
    assert Count(st, code) == Held(st.handles, code);
    if code in st.rooms {
      assert Listener(code, st.rooms[code].join) in st.listeners;
    }
  }

  /** A call of a handle emits leave exactly when it is the last one not released, and changes nothing when it was
      released before. */
  lemma LeaveAtZero(states: seq<State>, steps: seq<Step>, n: nat, i: nat)
    requires IsRun(states, steps) && n <= |steps| && i < |states[n].handles|
    ensures
      var st, code := states[n], states[n].handles[i].code;
      && (Released(st, i).signals == st.signals + [Leave(code)] <==> !st.handles[i].released && Held(st.handles, code) == 1)
      && (st.handles[i].released ==> Released(st, i) == st)
  {
    RunKeepsInv(states, steps, n);
    hide Held, Off;
    var st := states[n];
    assert Count(st, st.handles[i].code) == Held(st.handles, st.handles[i].code);
    if !st.handles[i].released {
      HeldPositive(st.handles, i);
    }
  }

  /** How often leave was emitted for a code. */
  function Leaves(signals: seq<Signal>, code: string): nat {
    if signals == [] then 0
    else Leaves(signals[..|signals| - 1], code) + (if signals[|signals| - 1] == Leave(code) then 1 else 0)
  }

  lemma LeavesSnoc(signals: seq<Signal>, s: Signal, code: string)
    ensures Leaves(signals + [s], code) == Leaves(signals, code) + (if s == Leave(code) then 1 else 0)
  {
    assert (signals + [s])[..|signals|] == signals;
  }

  lemma {:induction false} JoinsAreNoLeaves(signals: seq<Signal>, listeners: seq<Listener>, code: string)
    ensures Leaves(signals + Joins(listeners), code) == Leaves(signals, code)
  {
    if listeners == [] {
      assert signals + Joins(listeners) == signals;
    } else {
      var n := |listeners| - 1;
      JoinsAreNoLeaves(signals, listeners[..n], code);
      assert signals + Joins(listeners) == signals + Joins(listeners[..n]) + [Join(listeners[n].code)];
      LeavesSnoc(signals + Joins(listeners[..n]), Join(listeners[n].code), code);
    }
  }

  /** The step calls the last handle of the code that is not released. */
  predicate LastRelease(st: State, step: Step, code: string) {
    step.DoRelease? && step.i < |st.handles| && st.handles[step.i].code == code && !st.handles[step.i].released
    && Held(st.handles, code) == 1
  }

  /** Leave is emitted for a code by the release of its last handle and by no other step: not by another release, a
      retain, or the connection going up or down. */
  lemma LeaveExactly(states: seq<State>, steps: seq<Step>, n: nat, code: string)
    requires IsRun(states, steps) && n < |steps|
    ensures Leaves(states[n + 1].signals, code)
            == Leaves(states[n].signals, code) + (if LastRelease(states[n], steps[n], code) then 1 else 0)
  {
    var st, step := states[n], steps[n];
    RunKeepsInv(states, steps, n);
    assert Next(st, step, states[n + 1]);
    hide Held, Off, Leaves, Members, IsRun;
    match step {
      case DoRetain(c) => LeavesSnoc(st.signals, if st.connected then Join(c) else Connecting, code);
      case DoRelease(i) => ReleaseLeaves(st, i, code);
      case DoSwitch(up) => SwitchLeaves(st, up, code);
    }
  }

  lemma ReleaseLeaves(st: State, i: nat, code: string)
    requires Inv(st) && i < |st.handles|
    ensures Leaves(Released(st, i).signals, code)
            == Leaves(st.signals, code) + (if LastRelease(st, DoRelease(i), code) then 1 else 0)
  {
    var h := st.handles[i];
    assert Count(st, h.code) == Held(st.handles, h.code);
    LeavesSnoc(st.signals, Leave(h.code), code);
    if !h.released {
      HeldPositive(st.handles, i);
    }
    hide Held, Off, Leaves, Members;
  }

  lemma SwitchLeaves(st: State, up: bool, code: string)
    ensures Leaves(Switched(st, up).signals, code) == Leaves(st.signals, code)
  {
    LeavesSnoc(st.signals, Up, code);
    LeavesSnoc(st.signals, Down, code);
    JoinsAreNoLeaves(st.signals + [Up], st.listeners, code);
    hide Leaves, Joins;
  }

  /** A handle of an earlier lease cannot touch a later one: if the room's lease is not the handle's, the handle was
      released, and calling it does nothing. */
  lemma OldHandlesAreSpent(states: seq<State>, steps: seq<Step>, n: nat, i: nat)
    requires IsRun(states, steps) && n <= |steps| && i < |states[n].handles|
    requires states[n].handles[i].code in states[n].rooms ==> states[n].rooms[states[n].handles[i].code].join != states[n].handles[i].lease
    ensures states[n].handles[i].released && Released(states[n], i) == states[n]
  {
    RunKeepsInv(states, steps, n);
    hide Held, Off, Members;
  }

  /** While the socket is connected the server has it in exactly the rooms that are held; a reconnect restores them. */
  lemma ServerHasTheHeldRooms(states: seq<State>, steps: seq<Step>, n: nat, code: string)
    requires IsRun(states, steps) && n <= |steps| && states[n].connected
    ensures code in Members(states[n].signals) <==> Held(states[n].handles, code) > 0
  {
    RunKeepsInv(states, steps, n);
    hide Held, Members;
    assert Count(states[n], code) == Held(states[n].handles, code);
  }
}
