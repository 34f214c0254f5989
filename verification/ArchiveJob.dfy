/** The archive job: completed rows are purged in batches of 500, cancelled ones archived one by one.
    Of the error list only its length is kept. */
module ArchiveJob {
  import opened Types
  import opened Arithmetic
  import opened Store
  import opened Archive
  import opened DailyClose
  import opened Yard
  import opened Runs

  const BATCH_SIZE: nat := 500

  predicate NoRepeats(s: seq<DeliveryId>) {
    forall i, j :: 0 <= i < j < |s| ==> s[i] != s[j]
  }

  function Members(s: seq<DeliveryId>): set<DeliveryId> {
    set id | id in s
  }

  lemma {:induction false} MembersOfDistinct(s: seq<DeliveryId>)
    requires NoRepeats(s)
    ensures |Members(s)| == |s|
    decreases |s|
  {
    if s != [] {
      var front, last := s[..|s| - 1], s[|s| - 1];
      MembersOfDistinct(front);
      assert s == front + [last];
      assert Members(s) == Members(front) + {last};
    }
  }

  /** Candidates whose history snapshot says COMPLETED, says something else, or is missing. */
  function ReadyIn(batch: set<DeliveryId>, h: map<DeliveryId, History>): set<DeliveryId> {
    set id | id in batch && id in h && h[id].final == FinalCompleted
  }

  function MismatchedIn(batch: set<DeliveryId>, h: map<DeliveryId, History>): set<DeliveryId> {
    set id | id in batch && id in h && h[id].final != FinalCompleted
  }

  lemma BatchSplits(batch: set<DeliveryId>, h: map<DeliveryId, History>)
    ensures |ReadyIn(batch, h)| + |MismatchedIn(batch, h)| + |batch - h.Keys| == |batch|
  {
    assert batch == ReadyIn(batch, h) + MismatchedIn(batch, h) + (batch - h.Keys);
  }

  /** Errors counted twice: those already recorded when the batch DELETE throws and the whole batch is recorded. */
  function CountedTwice(batch: set<DeliveryId>, h: map<DeliveryId, History>, queryThrows: bool, deleteThrows: bool): nat {
    if !queryThrows && deleteThrows && ReadyIn(batch, h) != {} then |MismatchedIn(batch, h)| else 0
  }

  function PurgeInput(id: DeliveryId, now: int): ArchiveInput {
    ArchiveInput(id, FinalCompleted, CompletedEvent, now, true, Some(Completed), None)
  }

  function CancelledInput(id: DeliveryId, now: int, cutoff: int): ArchiveInput {
    ArchiveInput(id, FinalCancelled, CancelledEvent, now, true, Some(Cancelled), Some(cutoff))
  }

  /** A step of the yard the job has taken, with the states before and after it. */
  datatype Transition = Transition(before: Db, op: Op, after: Db)

  function RemovedBy(tr: Transition): set<DeliveryId> { tr.before.rows.Keys - tr.after.rows.Keys }

  /** The step is a purge or one of the job's archive steps, and the rows it removed all have a history row with their final
      status. */
  ghost predicate IsRemoval(tr: Transition, cutoff: int) {
    && Step(tr.before, tr.op, tr.after) && (tr.op.OpPurge? || (tr.op.OpArchive? && JobInput(tr.op.input, cutoff)))
    && forall id :: id in RemovedBy(tr) ==> id in tr.after.history && StatusOf(tr.after.history[id].final) == tr.before.rows[id].status
  }

  /** One of the states the job's statements find. */
  ghost predicate Finds(world: nat -> Db, db: Db) { exists k: nat :: world(k) == db }

  ghost predicate AllRemovals(steps: seq<Transition>, world: nat -> Db, cutoff: int) {
    forall i :: 0 <= i < |steps| ==> IsRemoval(steps[i], cutoff) && Finds(world, steps[i].before)
  }

  function TotalRemoved(steps: seq<Transition>): nat {
    if steps == [] then 0 else TotalRemoved(steps[..|steps| - 1]) + |RemovedBy(steps[|steps| - 1])|
  }

  lemma TotalSnoc(steps: seq<Transition>, tr: Transition)
    ensures TotalRemoved(steps + [tr]) == TotalRemoved(steps) + |RemovedBy(tr)|
  {
    assert (steps + [tr])[..|steps|] == steps;
  }

  lemma {:induction false} TotalConcat(a: seq<Transition>, b: seq<Transition>)
    ensures TotalRemoved(a + b) == TotalRemoved(a) + TotalRemoved(b)
    decreases |b|
  {
    hide RemovedBy;
    if b == [] {
      assert a + b == a;
    } else {
      var n := |b| - 1;
      TotalConcat(a, b[..n]);
      assert (a + b)[..|a| + n] == a + b[..n];
    }
  }

  lemma RemovalsConcat(a: seq<Transition>, b: seq<Transition>, world: nat -> Db, cutoff: int)
    requires AllRemovals(a, world, cutoff) && AllRemovals(b, world, cutoff)
    ensures AllRemovals(a + b, world, cutoff) && TotalRemoved(a + b) == TotalRemoved(a) + TotalRemoved(b)
  {
    hide IsRemoval, Finds, TotalRemoved;
    TotalConcat(a, b);
  }

  /** The job's two kinds of archive input. */
  predicate JobInput(input: ArchiveInput, cutoff: int) {
    input == PurgeInput(input.id, input.at) || input == CancelledInput(input.id, input.at, cutoff)
  }

  lemma ArchiveIsRemoval(db: Db, input: ArchiveInput, after: Db, cutoff: int)
    requires JobInput(input, cutoff) && ArchiveVerdict(db, input) == Archived(true) && Archives(db, input, after)
    ensures IsRemoval(Transition(db, OpArchive(input), after), cutoff) && |RemovedBy(Transition(db, OpArchive(input), after))| == 1
  {
    ArchiveIsStep(db, input, after, cutoff);
    HistoryFinal(db, input);
    ArchiveEffect(db, input, after);
    JobVerdict(db, input, cutoff);
    hide *;
    RemovesOne(db, input.id, OpArchive(input), after, cutoff);
  }

  lemma JobVerdict(db: Db, input: ArchiveInput, cutoff: int)
    requires JobInput(input, cutoff) && ArchiveVerdict(db, input) == Archived(true)
    ensures input.id in db.rows && input.deleteRow && StatusOf(input.final) == db.rows[input.id].status
  {
  }

  lemma RemovesOne(db: Db, id: DeliveryId, op: Op, after: Db, cutoff: int)
    requires Step(db, op, after) && op.OpArchive? && JobInput(op.input, cutoff) && id in db.rows && after.rows == db.rows - {id}
    requires id in after.history && StatusOf(after.history[id].final) == db.rows[id].status
    ensures IsRemoval(Transition(db, op, after), cutoff) && |RemovedBy(Transition(db, op, after))| == 1
  {
    hide Step;
    assert db.rows.Keys - after.rows.Keys == {id};
  }

  lemma ArchiveIsStep(db: Db, input: ArchiveInput, after: Db, cutoff: int)
    requires JobInput(input, cutoff) && Archives(db, input, after)
    ensures Step(db, OpArchive(input), after)
  {
    hide Archives;
  }

  lemma HistoryFinal(db: Db, input: ArchiveInput)
    requires input.id in db.rows
    ensures HistoryRow(db, input).final == input.final
  {
    hide ClosedLog, ScopeLocation;
  }

  lemma PurgeIsRemoval(db: Db, ids: set<DeliveryId>, after: Db, cutoff: int)
    requires after == Purge(db, ids)
    ensures IsRemoval(Transition(db, OpPurge(ids), after), cutoff)
  {
  }

  /** What the job removes: each of its steps is a step of the yard taken in a state it found, and every row that is gone
      after it was COMPLETED, or CANCELLED and not updated after the cutoff, and is in the history as such. */
  lemma RemovalsMean(steps: seq<Transition>, world: nat -> Db, i: nat, id: DeliveryId, cutoff: int)
    requires AllRemovals(steps, world, cutoff) && i < |steps|
    ensures Step(steps[i].before, steps[i].op, steps[i].after) && exists k: nat :: world(k) == steps[i].before
    ensures id in steps[i].before.rows && id !in steps[i].after.rows ==>
              && id in steps[i].after.history
              && (|| (steps[i].before.rows[id].status == Completed && steps[i].after.history[id].final == FinalCompleted)
                  || (steps[i].before.rows[id].status == Cancelled && steps[i].after.history[id].final == FinalCancelled
                      && steps[i].before.rows[id].updatedAt <= cutoff))
  {
    var tr := steps[i];
    assert IsRemoval(tr, cutoff) && Finds(world, tr.before);
    if id in tr.before.rows && id !in tr.after.rows {
      assert id in RemovedBy(tr);
      StepRemoves(tr, id, cutoff);
    }
  }

  lemma StepRemoves(tr: Transition, id: DeliveryId, cutoff: int)
    requires IsRemoval(tr, cutoff) && id in tr.before.rows && id !in tr.after.rows
    ensures tr.before.rows[id].status == Completed || (tr.before.rows[id].status == Cancelled && tr.before.rows[id].updatedAt <= cutoff)
  {
    if tr.op.OpArchive? {
      ArchiveRemoves(tr.before, tr.op.input, tr.after, id, cutoff);
    } else {
      assert Purgeable(tr.before, id);
    }
  }

  lemma ArchiveRemoves(db: Db, input: ArchiveInput, after: Db, id: DeliveryId, cutoff: int)
    requires JobInput(input, cutoff) && Archives(db, input, after) && id in db.rows && id !in after.rows
    ensures db.rows[id].status == Completed || (db.rows[id].status == Cancelled && db.rows[id].updatedAt <= cutoff)
  {
    if ArchiveVerdict(db, input).Archived? {
      ArchiveEffect(db, input, after);
      ArchivedExactly(db, input);
    }
    hide ArchiveVerdict, Archives;
  }

  /** One archive transaction of the job, in the state other transactions left; it fails when it throws or deletes nothing. */
  method ArchiveOne(t: Tables, left: Db, input: ArchiveInput, throws: bool) returns (done: bool)
    requires left.configs == t.configs && input.deleteRow
    modifies t
    ensures done <==> !throws && ArchiveVerdict(left, input) == Archived(true)
    ensures if done then Archives(left, input, t.Snapshot()) else t.Snapshot() == left
  {
    OtherTransactions(t, left);
    if throws {
      return false;
    }
    var outcome := ArchiveDelivery(t, input);
    return outcome == Archived(true);
  }

  lemma OneRemoval(tr: Transition, world: nat -> Db, k: nat, cutoff: int)
    requires IsRemoval(tr, cutoff) && world(k) == tr.before && |RemovedBy(tr)| == 1
    ensures AllRemovals([tr], world, cutoff) && TotalRemoved([tr]) == 1
  {
    hide IsRemoval, RemovedBy;
    TotalSnoc([], tr);
    assert [] + [tr] == [tr];
  }

  /** The same with the step it took. */
  method ArchiveStep(t: Tables, world: nat -> Db, k: nat, input: ArchiveInput, throws: bool, ghost cutoff: int)
    returns (done: bool, ghost steps: seq<Transition>)
    requires world(k).configs == t.configs && JobInput(input, cutoff)
    modifies t
    ensures AllRemovals(steps, world, cutoff) && TotalRemoved(steps) == if done then 1 else 0
  {
    hide IsRemoval, Archives, ArchiveVerdict;
    NoRemovals(world, cutoff);
    steps := [];
    done := ArchiveOne(t, world(k), input, throws);
    if done {
      ArchiveIsRemoval(world(k), input, t.Snapshot(), cutoff);
      steps := [Transition(world(k), OpArchive(input), t.Snapshot())];
      OneRemoval(steps[0], world, k, cutoff);
    }
  }

  /** A loop of archive transactions over candidates without a history row. */
  method ArchiveEach(t: Tables, ids: set<DeliveryId>, world: nat -> Db, k: nat, faults: set<DeliveryId>, now: int, ghost cutoff: int)
    returns (succeeded: nat, failed: nat, ghost steps: seq<Transition>)
    requires forall j :: world(j).configs == t.configs
    modifies t
    ensures succeeded + failed == |ids|
    ensures AllRemovals(steps, world, cutoff) && succeeded == TotalRemoved(steps)
  {
    hide AllRemovals, TotalRemoved;
    NoRemovals(world, cutoff);
    succeeded, failed, steps := 0, 0, [];
    var todo := ids;
    while todo != {}
      invariant todo <= ids && succeeded + failed + |todo| == |ids|
      invariant AllRemovals(steps, world, cutoff) && succeeded == TotalRemoved(steps)
      decreases |todo|
    {
      var id :| id in todo;
      var done, more := ArchiveStep(t, world, k + |todo|, PurgeInput(id, now), id in faults, cutoff);
      RemovalsConcat(steps, more, world, cutoff);
      steps := steps + more;
      if done {
        succeeded := succeeded + 1;
      } else {
        failed := failed + 1;
      }
      todo := todo - {id};
    }
  }

  /** The batch DELETE: rows of `ready` that are still completed and still have a completed history. */
  method PurgeBatch(t: Tables, left: Db, ready: set<DeliveryId>) returns (deleted: set<DeliveryId>)
    requires left.configs == t.configs
    modifies t
    ensures t.Snapshot() == Purge(left, ready)
    ensures deleted == left.rows.Keys - t.rows.Keys && deleted <= ready
  {
    OtherTransactions(t, left);
    var db := t.Snapshot();
    deleted := set id | id in ready && Purgeable(db, id);
    t.rows := map id | id in t.rows && !(id in ready && Purgeable(db, id)) :: t.rows[id];
  }

  /** The DELETE as a step. */
  lemma PurgeStep(world: nat -> Db, left: Db, ready: set<DeliveryId>, after: Db, deleted: set<DeliveryId>, cutoff: int)
    returns (steps: seq<Transition>)
    requires Finds(world, left) && after == Purge(left, ready) && deleted == left.rows.Keys - after.rows.Keys
    ensures AllRemovals(steps, world, cutoff) && TotalRemoved(steps) == |deleted|
  {
    var tr := Transition(left, OpPurge(ready), after);
    PurgeIsRemoval(left, ready, after, cutoff);
    hide IsRemoval;
    TotalSnoc([], tr);
    steps := [tr];
    assert [] + [tr] == [tr];
  }

  /** The DELETE and the count of what it left: ready rows that are still there are errors. */
  method PurgeReady(t: Tables, ghost world: nat -> Db, left: Db, ready: set<DeliveryId>, ghost cutoff: int)
    returns (succeeded: nat, failed: nat, ghost steps: seq<Transition>)
    requires left.configs == t.configs && Finds(world, left)
    modifies t
    ensures succeeded + failed == |ready|
    ensures AllRemovals(steps, world, cutoff) && succeeded == TotalRemoved(steps)
  {
    hide AllRemovals, TotalRemoved, Purge;
    var deleted := PurgeBatch(t, left, ready);
    steps := PurgeStep(world, left, ready, t.Snapshot(), deleted, cutoff);
    SubsetSplits(deleted, ready);
    succeeded, failed := |deleted|, |ready - deleted|;
  }

  lemma NoRemovals(world: nat -> Db, cutoff: int)
    ensures AllRemovals([], world, cutoff) && TotalRemoved([]) == 0
  {
    hide IsRemoval;
  }

  /** One batch.  Every candidate is counted once, except that a throwing DELETE counts mismatches again; the successes are
      the rows removed. */
  method ArchiveBatch(
    t: Tables, batch: set<DeliveryId>, world: nat -> Db, k: nat, queryThrows: bool, deleteThrows: bool, faults: set<DeliveryId>, now: int, ghost cutoff: int)
    returns (succeeded: nat, failed: nat, ghost steps: seq<Transition>)
    requires forall j :: world(j).configs == t.configs
    modifies t
    ensures succeeded + failed == |batch| + CountedTwice(batch, world(k).history, queryThrows, deleteThrows)
    ensures AllRemovals(steps, world, cutoff) && succeeded == TotalRemoved(steps)
  {
    hide AllRemovals, TotalRemoved, ReadyIn, MismatchedIn;
    NoRemovals(world, cutoff);
    OtherTransactions(t, world(k));
    if queryThrows {
      return 0, |batch|, [];
    }
    var h := t.history;
    var ready, mismatched := ReadyIn(batch, h), MismatchedIn(batch, h);
    BatchSplits(batch, h);
    succeeded, failed, steps := 0, 0, [];
    if ready != {} {
      if deleteThrows {
        return 0, |mismatched| + |batch|, [];
      }
      succeeded, failed, steps := PurgeReady(t, world, world(k + 1), ready, cutoff);
    }
    var more, wrong, later := ArchiveEach(t, batch - h.Keys, world, k + 2, faults, now, cutoff);
    RemovalsConcat(steps, later, world, cutoff);
    succeeded, failed, steps := succeeded + more, |mismatched| + failed + wrong, steps + later;
  }

  /** Faults and world states of batch `b`. */
  datatype BatchWorld = BatchWorld(at: nat, queryThrows: bool, deleteThrows: bool)

  /** Errors counted twice in the batches from `offset` on. */
  function TotalCountedTwice(completed: seq<DeliveryId>, offset: nat, world: nat -> Db, plan: nat -> BatchWorld): nat
    decreases |completed| - offset
  {
    if offset >= |completed| then 0
    else
      var end := if offset + BATCH_SIZE < |completed| then offset + BATCH_SIZE else |completed|;
      var w := plan(offset);
      CountedTwice(Members(completed[offset..end]), world(w.at).history, w.queryThrows, w.deleteThrows)
      + TotalCountedTwice(completed, end, world, plan)
  }

  /** The whole job over the candidates it read before: its steps are steps of the yard, and it counts as succeeded the
      rows they removed into the history.  `world` gives the states its queries and transactions find,
      `plan` says for each batch which of them it starts from and which of its statements throw. */
  method ArchiveDeliveries(
    t: Tables, completed: seq<DeliveryId>, cancelled: seq<DeliveryId>, world: nat -> Db, plan: nat -> BatchWorld,
    faults: set<DeliveryId>, now: int, cutoff: int)
    returns (processed: nat, succeeded: nat, failed: nat, ghost steps: seq<Transition>)
    requires forall j :: world(j).configs == t.configs
    requires NoRepeats(completed)
    modifies t
    ensures processed == |completed| + |cancelled|
    ensures succeeded + failed == processed + TotalCountedTwice(completed, 0, world, plan)
    ensures AllRemovals(steps, world, cutoff) && succeeded == TotalRemoved(steps)
  {
    hide AllRemovals, TotalRemoved, CountedTwice;
    NoRemovals(world, cutoff);
    succeeded, failed, steps := 0, 0, [];
    var offset := 0;
    while offset < |completed|
      invariant 0 <= offset <= |completed|
      invariant succeeded + failed + TotalCountedTwice(completed, offset, world, plan) == offset + TotalCountedTwice(completed, 0, world, plan)
      invariant AllRemovals(steps, world, cutoff) && succeeded == TotalRemoved(steps)
    {
      var end := if offset + BATCH_SIZE < |completed| then offset + BATCH_SIZE else |completed|;
      var batch, w := Members(completed[offset..end]), plan(offset);
      MembersOfDistinct(completed[offset..end]);
      var more, wrong, later := ArchiveBatch(t, batch, world, w.at, w.queryThrows, w.deleteThrows, faults, now, cutoff);
      RemovalsConcat(steps, later, world, cutoff);
      succeeded, failed, offset, steps := succeeded + more, failed + wrong, end, steps + later;
    }
    for i := 0 to |cancelled|
      invariant succeeded + failed == |completed| + i + TotalCountedTwice(completed, 0, world, plan)
      invariant AllRemovals(steps, world, cutoff) && succeeded == TotalRemoved(steps)
    {
      var done, more := ArchiveStep(t, world, i, CancelledInput(cancelled[i], now, cutoff), cancelled[i] in faults, cutoff);
      RemovalsConcat(steps, more, world, cutoff);
      steps := steps + more;
      if done {
        succeeded := succeeded + 1;
      } else {
        failed := failed + 1;
      }
    }
    processed := |completed| + |cancelled|;
  }

  /** The double count is real: a throwing DELETE and one mismatched history in the batch give one error too many. */
  lemma MismatchIsCountedTwice(batch: set<DeliveryId>, h: map<DeliveryId, History>, good: DeliveryId, bad: DeliveryId)
    requires good in batch && good in h && h[good].final == FinalCompleted
    requires bad in batch && bad in h && h[bad].final != FinalCompleted
    ensures CountedTwice(batch, h, false, true) > 0
  {
    assert good in ReadyIn(batch, h) && bad in MismatchedIn(batch, h);
  }

  /** Exactly when a batch is counted twice. */
  lemma CountedTwiceExactly(batch: set<DeliveryId>, h: map<DeliveryId, History>, queryThrows: bool, deleteThrows: bool)
    ensures CountedTwice(batch, h, queryThrows, deleteThrows) > 0 <==>
              && !queryThrows && deleteThrows
              && (exists id :: id in batch && id in h && h[id].final == FinalCompleted)
              && (exists id :: id in batch && id in h && h[id].final != FinalCompleted)
  {
    forall id | id in batch && id in h ensures id in ReadyIn(batch, h) || id in MismatchedIn(batch, h) {}
    assert MismatchedIn(batch, h) == {} <==> !exists id :: id in MismatchedIn(batch, h);
  }

  /** No batch is counted twice unless its DELETE throws and the snapshot holds a mismatched history. */
  lemma {:induction false} CountedOnce(completed: seq<DeliveryId>, offset: nat, world: nat -> Db, plan: nat -> BatchWorld)
    requires forall b, id :: id in completed && plan(b).deleteThrows ==> id !in MismatchedIn({id}, world(plan(b).at).history)
    ensures TotalCountedTwice(completed, offset, world, plan) == 0
    decreases |completed| - offset
  {
    if offset < |completed| {
      var end := if offset + BATCH_SIZE < |completed| then offset + BATCH_SIZE else |completed|;
      var batch, w := Members(completed[offset..end]), plan(offset);
      if w.deleteThrows {
        forall id | id in batch ensures id !in MismatchedIn(batch, world(w.at).history) {
          assert id in completed;
          assert id !in MismatchedIn({id}, world(w.at).history);
        }
        assert MismatchedIn(batch, world(w.at).history) == {};
      }
      CountedOnce(completed, end, world, plan);
    }
  }

  /** In a run of the yard a completed delivery never has a history row with another final status ... */
  lemma CompletedNeverMismatches(dbs: seq<Db>, ops: seq<Op>, m: nat, n: nat, id: DeliveryId)
    requires IsRun(dbs, ops) && m <= n <= |ops| && Recorded(dbs[0])
    requires id in dbs[m].rows && dbs[m].rows[id].status == Completed
    ensures id !in MismatchedIn({id}, dbs[n].history)
  {
    NothingIsLost(dbs, ops, m, n, id);
    RunKeepsRecords(dbs, ops, n);
    assert RecordOk(dbs[n], id);
  }

  /** ... so the job counts every candidate exactly once whenever all its states belong to one run in which the
      candidates had been completed, whatever throws. */
  lemma JobCountsOnce(
    dbs: seq<Db>, ops: seq<Op>, m: nat, completed: seq<DeliveryId>, world: nat -> Db, plan: nat -> BatchWorld, when: nat -> nat)
    requires IsRun(dbs, ops) && m <= |ops| && Recorded(dbs[0])
    requires forall id :: id in completed ==> id in dbs[m].rows && dbs[m].rows[id].status == Completed
    requires forall k :: m <= when(k) <= |ops| && world(k) == dbs[when(k)]
    ensures TotalCountedTwice(completed, 0, world, plan) == 0
  {
    forall b, id | id in completed && plan(b).deleteThrows ensures id !in MismatchedIn({id}, world(plan(b).at).history) {
      CompletedNeverMismatches(dbs, ops, m, when(plan(b).at), id);
    }
    CountedOnce(completed, 0, world, plan);
  }
}
