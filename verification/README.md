# Verification of the delivery yard

A delivery yard registers trucks and motorbikes, checks them in, calls them into unloading slots, receives and completes
(or cancels) their deliveries, and at the end of the day expires, archives and removes them. This project models that
system in Dafny and proves what it keeps over whole runs and under interleaving. It stands beside the repository; every
property is about the model, which follows the code's branches, constants and error cases.

`dafny verify dfyconfig.toml` checks everything.

## How it is organised

The yard as one state machine over four tables (registrations, slots, history, event log):

- `Types.dfy`, `Tables.dfy`: the rows and the mutable tables (class `Store.Tables`, with `Snapshot()` as its value).
- `SlotState.dfy`, `Calls.dfy`, `AutoAssign.dfy`, `Lifecycle.dfy`, `ManualCall.dfy`, `DirectAssign.dfy`, `Archive.dfy`,
  `DailyClose.dfy`, `ArchiveJob.dfy`: the services as methods that change the tables, each proved against a relation or
  function on states. Where the database leaves an order open (rows equal in every ORDER BY column) the relation allows each outcome.
- `Drain.dfy`, `HalfOptimal.dfy`, `GoodsOrder.dfy`: what a whole run of the dispatcher achieves.
- `Trail.dfy`, `Yard.dfy`, `Runs.dfy`, `RowShape.dfy`, `Coherence.dfy`: one step per service call, the invariants of every
  run.
- `CapacityProtocol.dfy`, `RegistrationProtocol.dfy`: the same services split at their locks, reads and commits, in every
  interleaving. Row and advisory locks are maps from what is locked to the transaction that holds it. `Coverage.dfy` shows
  that they leave out nothing a step of the yard does to a row.

Cores of their own: `Cbor.dfy` and `Cose.dfy` (the WebAuthn reader), `Decimal.dfy`, `Calendar.dfy` and `Sequences.dfy`
(Vietnam business days, registration codes, tickets), `Windows.dfy` (time windows and daily capacity), `RateLimit.dfy`,
`Cidr.dfy`, `Push.dfy` (push receipts of the service worker), `TrackRoom.dfy` (room leases). `Arithmetic.dfy` holds the facts
on sets and division that several of them use.

Inputs that the code reads from the clock, the network or other services are parameters: the current time, whether an
auto-warehouse vendor matches, which transactions throw, and what other transactions committed in between.

## Findings

Properties one would expect that the code does not have, each with a proof of exactly when it holds:

- `startReceiving` reads the status and writes it later without a lock. A write that comes after the delivery was closed
  revives it and can overfill its slot, at once or when a call that was already decided commits
  (`CapacityProtocol.StaleStartOverfills`, `CapacityProtocol.StaleStartOverfillsLater`). It is harmless exactly when the slot
  has room for one, or for two while the holder of its lock is past its count (`CapacityProtocol.StaleStartExact`).
- Moving a called delivery to another slot can leave the old slot stale until its next reconcile
  (`Coherence.MoveLeavesSourceStale`); `Coherence.SourceOfMove` says in which states it cannot. Direct assignment does not
  reconcile the old slot at all, and looks at no capacity (`DirectAssign.SourceOfAssignment`,
  `DirectAssign.AssignmentOverfills`).
- Archiving or closing a delivery clears a MAINTENANCE or RESERVED status of its slot (`Coherence.ManualStatusSurvives`).
- The archive job counts a candidate twice when its batch DELETE throws after a history mismatch; runs of the yard cannot
  reach that mismatch (`ArchiveJob.MismatchIsCountedTwice`, `ArchiveJob.JobCountsOnce`).
- Registration codes repeat after a hundred years (`Sequences.CodesAreEqual`), and two unit configs of one location give the
  same codes exactly when the last four characters of their ids agree (`Sequences.CodesOfTwoConfigs`).
- Two kinds of registration are not held to the day's capacity: quick-verified ones, and those whose goods have no
  enabled time window. A commit takes the day past its capacity exactly when the day is full and it adds such a row
  (`RegistrationProtocol.CommitOverbooks`); it is harmless exactly when the day has room for one, or for two while another
  transaction has counted (`RegistrationProtocol.UncountedCommitExact`).
- The key of an instant in the last seven hours of the Date range has a range without an end
  (`Calendar.InstantLiesInItsDay`).
- The CBOR reader accepts input that ends too early: missing bytes read as the number 0, a cut string is returned with the
  bytes that are there, and a missing one-byte length gives an empty string (`Cbor.MissingBytesReadAsZero`,
  `Cbor.CutStringIsAccepted`, `Cbor.MissingLengthIsAccepted`). Its offset then ends past the buffer or is lost: it ends within
  exactly when an encoding starts where the read did (`Cbor.EndsWithinExactly`).
- A push without a timestamp erases a stored one (`Push.TimesNeverDecrease`).

## Model

| member | source | states |
|---|---|---|
| `SlotState.FirstActive` | backend/src/services/slotState.ts:26-43 | The count is the number of active deliveries of the slot and the first one is last updated, then last called with nulls first, then last created |
| `SlotState.ReconcileSlotState` | backend/src/services/slotState.ts:45-94 | The slot row becomes what its active deliveries say, a manual status is kept when asked, nothing else changes, and the snapshot reports the written row; a missing slot changes nothing |
| `SlotState.ReconciledExactly` | backend/src/services/slotState.ts:63-86 | In the columns: OCCUPIED exactly when as many rows are CALLED, RECEIVING or AUTO_WAREHOUSE_RECEIVING in the slot as it has capacity for, MAINTENANCE and RESERVED stay when asked, and no other column but the current delivery changes |
| `SlotState.CurrentIsNewest` | backend/src/services/slotState.ts:30-37 | In the columns: a delivery may be current exactly when no other active one was updated later, then called later with nulls as latest, then created later |
| `SlotState.ReconcileAllSlots` | backend/src/services/slotState.ts:103-136 | Every selected slot becomes what one reconcile of it makes it and ends coherent, nothing else changes, and there is one snapshot per selected slot with its row, occupants and former manual status |
| `SlotState.ChosenExactly` | backend/src/services/slotState.ts:113-123 | In the columns: which slots are selected |
| `SlotState.SnapshotTells` | backend/src/services/slotState.ts:103-136 | In the columns: what each returned snapshot says of its slot |
| `SlotState.ReconcileMakesCoherent` | backend/src/services/slotState.ts:63-86 | From any state a slot that is not manual ends OCCUPIED exactly when its active count reaches its capacity, and its current delivery is null exactly when none is active |
| `SlotState.CoherentExactly` | backend/src/services/slotState.ts:63-86 | What the invariants below call coherent, in the columns: AVAILABLE with room, OCCUPIED without, and the current delivery one of those called or received there, or none when there is none |
| `SlotState.ReconcileIdempotent` | backend/src/services/slotState.ts:45-94 | The state after a reconcile is an outcome of reconciling again |
| `SlotState.ReconcileAgain` | backend/src/services/slotState.ts:45-94 | A second reconcile changes at most which of several rows tied on all three timestamps is named current, and nothing at all without ties |
| `GoodsOrder.CandidateGoodsArrangeAllowed` | backend/src/services/autoAssign.ts:117-133 | The dispatcher's goods order is a duplicate-free arrangement of exactly the goods the slot accepts |
| `GoodsOrder.EditorAgreesWithDispatcher` | frontend/src/features/backoffice/slotGoods.ts:5-10 | The slot editor's order and the dispatcher's are the same sequence for every slot configuration |
| `GoodsOrder.ListedGoodsFirst` | backend/src/services/autoAssign.ts:127-130 | Accepted goods named in the priority list come before those that are not, in the order of their first mention |
| `GoodsOrder.DefaultOrder` | backend/src/services/autoAssign.ts:37-42 | A slot that lists nothing takes fresh food, general goods, site works and auto-warehouse goods in that order |
| `Calls.Call` | backend/src/services/autoAssign.ts:203-230 | Calling a delivery reconciles the slot it held, sets status, time and slot, appends one event, stamps the slot and reconciles it |
| `Calls.CallMovesOccupancy` | backend/src/services/autoAssign.ts:211-214 | A call adds the delivery to the occupants of its slot, removes it from every other slot, and moves nobody else |
| `Calls.CallKeepsCoherence` | backend/src/services/manualCallDelivery.ts:207-236 | After a call the target slot is coherent, and so is every slot that was and that the delivery did not leave |
| `AutoAssign.FindNextWaitingDeliveryForSlot` | backend/src/services/autoAssign.ts:135-167 | Returns a delivery next in line for the slot as `Drain.NextIsFirstInLine` spells it out; none only if nothing waits that matches |
| `AutoAssign.AssignNextDeliveryToSlot` | backend/src/services/autoAssign.ts:169-239 | Calls that next delivery exactly when the slot is open to the unit, not manual, has spare capacity and a matching delivery waits; otherwise changes nothing |
| `AutoAssign.RankSlots` | backend/src/services/autoAssign.ts:311-340 | Lists exactly the in-scope automatic slots with spare capacity, most remaining capacity first and then by code |
| `AutoAssign.RunRound` | backend/src/services/autoAssign.ts:348-357 | One round calls one delivery, into the best ranked slot that has somebody waiting, or leaves a stable yard unchanged |
| `AutoAssign.TriggerAutoAssign` | backend/src/services/autoAssign.ts:306-366 | Terminates from any state, returns the number of rounds, and leaves no in-scope automatic slot with both spare capacity and a matching waiting delivery |
| `Drain.DrainCountsMoves` | backend/src/services/autoAssign.ts:307-363 | A drain of n rounds makes exactly n moves from WAITING to CALLED and changes no other delivery |
| `Drain.StableDrainIsIdle` | backend/src/index.ts:131-141 | From a stable yard a further call returns 0, as the startup loop expects |
| `Drain.NoOvertaking` | backend/src/services/autoAssign.ts:152-155 | Of two waiting deliveries with the same unit, unit config, vehicle and goods the one with the later check-in time, with none, or with the same and a later creation is called only after the other was called in the same drain |
| `Drain.NextIsFirstInLine` | backend/src/services/autoAssign.ts:143-156 | In the columns: the delivery given to an open slot waits, is of its unit, config, vehicle and goods, and no other such has better goods or, in the same goods, a smaller check-in time (none counts as last) or an equal one and an earlier creation; every such delivery may be the answer |
| `Drain.AssignableExactly` | backend/src/services/autoAssign.ts:169-199 | In the columns: a slot is given a delivery exactly when it is open and has room and one waits that it takes |
| `Drain.PickFitsItsSlot` | backend/src/services/autoAssign.ts:143-191 | Every pick of a drain is a WAITING delivery with the slot's unit, config, vehicle and accepted goods, into an active automatic slot of the unit and scope that is not RESERVED or MAINTENANCE and has room |
| `Drain.StableLeavesNobody` | backend/src/services/autoAssign.ts:306-366 | A yard is stable exactly when no delivery with those column values waits for such a slot |
| `Drain.RoomiestSlotFirst` | backend/src/services/autoAssign.ts:334-340 | No slot that would take somebody has more room than the one a round serves, nor the same room and a smaller code |
| `Drain.BestGoodsRank` | backend/src/services/autoAssign.ts:143-164 | Every pick of a drain has the best goods rank of all that then wait for its slot |
| `Drain.DrainOccupancy` | backend/src/services/autoAssign.ts:190-214 | Through a drain a slot's occupants are those it had and those called into it |
| `HalfOptimal.DrainIsHalfOptimal` | backend/src/services/autoAssign.ts:306-366 | One drain calls at least half as many deliveries as any assignment of the waiting ones to matching in-scope slots within their spare capacity |
| `HalfOptimal.HalfIsTight` | backend/src/services/autoAssign.ts:334-357 | Whenever the slot served first takes both of two deliveries and the other only the one called, the drain stops after one although both fit |
| `HalfOptimal.FactorTwoIsReached` | backend/src/services/autoAssign.ts:306-366 | The factor two is reached: a yard, a whole drain of it with one call, and a feasible plan for two |
| `Lifecycle.Register` | backend/src/modules/deliveries/deliveryService.ts:333-366 | A new registration writes a REGISTERED row and its event; a re-registration rewrites the form's columns of the existing row and records nothing |
| `Lifecycle.CheckInDelivery` | backend/src/services/checkInDelivery.ts:13-73 | Only a REGISTERED row of the expected unit goes to WAITING, with ticket, time, resolved goods and one event; every other case changes nothing and says why |
| `Lifecycle.CheckedInExactly` | backend/src/services/checkInDelivery.ts:13-73 | A row is checked in exactly when it is REGISTERED, of the expected unit, and its goods are known; it becomes auto-warehouse exactly when the vendor matches and otherwise keeps the goods first registered |
| `Lifecycle.StartReceivingDelivery` | backend/src/modules/deliveries/deliveryService.ts:640-660 | Only a CALLED row goes to RECEIVING, or AUTO_WAREHOUSE_RECEIVING for auto-warehouse goods, with one event |
| `Lifecycle.StartedExactly` | backend/src/modules/deliveries/deliveryService.ts:645-660 | A CALLED row goes to AUTO_WAREHOUSE_RECEIVING exactly when it is flagged, else to RECEIVING, with the event of that kind |
| `Lifecycle.CompleteDelivery` | backend/src/services/deliveryLifecycle.ts:42-78 | Only an active row goes to COMPLETED with one event and its slot reconciled; a second completion and every other status change nothing |
| `Lifecycle.CancelDelivery` | backend/src/services/deliveryLifecycle.ts:80-122 | Every row that is not COMPLETED, CANCELLED or EXPIRED goes to CANCELLED with its reason, one event and its slot reconciled |
| `Lifecycle.ClosedExactly` | backend/src/services/deliveryLifecycle.ts:13-95 | Completion takes exactly CALLED, RECEIVING and AUTO_WAREHOUSE_RECEIVING rows, cancellation all but COMPLETED, CANCELLED and EXPIRED ones |
| `ManualCall.ManualCallDelivery` | backend/src/services/manualCallDelivery.ts:84-248 | The outcome is decided by status, slot availability, home location, cross-unit emptiness, recall and capacity in that order; a call moves the delivery, a recall only records, the rest changes nothing; the reported count is the slot's active count afterwards |
| `ManualCall.CalledExactly` | backend/src/services/manualCallDelivery.ts:95-205 | Called or recalled exactly when the row is WAITING or CALLED, the slot active and not RESERVED or MAINTENANCE, both of one business location, a slot of another unit empty of others, and it is there already or there is room |
| `ManualCall.RefusedBecause` | backend/src/services/manualCallDelivery.ts:95-205 | For each refusal, the column test that fails |
| `ManualCall.CallIsLogged` | backend/src/services/manualCallDelivery.ts:207-236 | A call is logged once, as REASSIGNED_SLOT for a CALLED delivery and MANUAL_CALLED for a WAITING one |
| `ManualCall.ManualCallFits` | backend/src/services/manualCallDelivery.ts:145-205 | A manual call leaves the target within its capacity, and a call into another unit's slot finds it empty |
| `Archive.ArchiveDelivery` | backend/src/modules/history/archiveService.ts:85-212 | A row that fits the expectations gets its history row and missing events and is removed when asked; a changed row is refused and a missing one ignored, both without effect |
| `Archive.ArchiveEffect` | backend/src/modules/history/archiveService.ts:105-211 | Archiving touches one delivery: its row, its history row, its events |
| `Archive.ArchivedAt` | backend/src/modules/history/archiveService.ts:105-170 | The history row's location is that of the held slot's config or, when that is unknown, of the row's own config |
| `Archive.ArchivedExactly` | backend/src/modules/history/archiveService.ts:85-108 | A row is archived exactly when it has the expected status, if one is given, and was not updated after the given time |
| `Archive.ArchiveLogs` | backend/src/modules/history/archiveService.ts:25-83 | Archiving logs REGISTERED and the closing event when the log has none, and ARCHIVED when the row goes |
| `DailyClose.CloseOne` | backend/src/modules/scheduler/deliveryJobs.ts:96-125 | Under the lock a row that still qualifies is marked, archived and removed; one that no longer does is left |
| `DailyClose.ClosedExactly` | backend/src/modules/scheduler/deliveryJobs.ts:50-125 | A row is closed exactly when it is REGISTERED, RECEIVING or AUTO_WAREHOUSE_RECEIVING, its requested time (else its creation or check-in) lies in the day, and its config or its slot's is in scope; it is then filed as EXPIRED if it was REGISTERED and INCOMPLETED otherwise, and any other row is left alone |
| `DailyClose.CloseDailyDeliveries` | backend/src/modules/scheduler/deliveryJobs.ts:89-153 | Every candidate is counted once: failed exactly when its transaction throws, succeeded exactly when it then still qualifies, else skipped; a success leaves the tables its close leads to, any other candidate those it found |
| `DailyClose.ResultsMean` | backend/src/modules/scheduler/deliveryJobs.ts:94-153 | What the results say of each candidate, the state it was found in and the state it left |
| `ArchiveJob.ArchiveDeliveries` | backend/src/modules/scheduler/deliveryJobs.ts:178-263 | The job is a run of the yard's archive and purge steps; its successes are the rows those removed into the history, and successes and errors together are the candidates, plus the mismatches of batches whose DELETE throws |
| `ArchiveJob.RemovalsMean` | backend/src/modules/scheduler/deliveryJobs.ts:184-263 | The job removes COMPLETED rows and those CANCELLED and not updated after the cutoff, no others, each into the history as such, by steps of the yard taken in states it found |
| `ArchiveJob.PurgeBatch` | backend/src/modules/scheduler/deliveryJobs.ts:199-218 | The DELETE removes exactly the ready rows that are still COMPLETED with a COMPLETED history, and reports those |
| `ArchiveJob.MismatchIsCountedTwice` | backend/src/modules/scheduler/deliveryJobs.ts:193-240 | A batch with a mismatched history whose DELETE throws yields one error too many |
| `ArchiveJob.CountedTwiceExactly` | backend/src/modules/scheduler/deliveryJobs.ts:184-242 | A batch is counted twice exactly when its DELETE throws and it has both a candidate with a COMPLETED history and one with another |
| `ArchiveJob.CountedOnce` | backend/src/modules/scheduler/deliveryJobs.ts:184-242 | Without a mismatched history in a batch whose DELETE throws, every candidate is counted once |
| `ArchiveJob.JobCountsOnce` | backend/src/modules/scheduler/deliveryJobs.ts:184-263 | When all the job's states belong to one run of the yard, every candidate is counted once, whatever throws |
| `Trails.CountersCount` | backend/src/modules/history/historyRepository.ts:46-56 | Replay counters are the numbers of REGISTERED, closing and call events in the log |
| `Trails.ReplayedStatusIsLast` | backend/src/modules/history/historyRepository.ts:17-44 | The replayed status is the toStatus of the delivery's last event that has one |
| `Yard.StepKeepsRecords` | backend/src/modules/history/archiveService.ts:25-83 | Every service call keeps each delivery's row, history row and event log in agreement |
| `Yard.CompletionIsArchived` | backend/src/modules/deliveries/deliveryService.ts:738-745 | The archive call after a completion is a step of the yard; it leaves the COMPLETED row with a history row of that status and time beside it |
| `Runs.LogReplaysToLiveStatus` | backend/src/services/deliveryLifecycle.ts:61-68 | After any run from an empty system a row's status is the last toStatus logged for it, never EXPIRED or INCOMPLETED; it has one REGISTERED event and one closing event exactly when closed |
| `Runs.FromStatusIsReplayed` | backend/src/services/manualCallDelivery.ts:167-230 | Every fromStatus in the log is the status the delivery's earlier events replay to |
| `Runs.LogReplaysToFinalStatus` | backend/src/modules/history/archiveService.ts:25-83 | An archived delivery's log replays to its final status, with one REGISTERED and one closing event however often it was archived, and its call count is the number of call events |
| `Runs.StepFollows` | backend/src/modules/history/archiveService.ts:186-209 | A step removes a row only into a history row with the matching final status and changes no closed row |
| `Runs.RemovedAsItWas` | backend/src/modules/history/archiveService.ts:125-165 | A row that a step removes leaves a history row with its plate, requested, registered and completed times and its slot |
| `Runs.HistoryTellsTheRow` | backend/src/modules/history/archiveService.ts:125-180 | In every run a delivery with both a row and a history row is COMPLETED or CANCELLED in both, with the same plate, times and slot |
| `Runs.NothingIsLost` | backend/src/modules/scheduler/deliveryJobs.ts:94-263 | Over any stretch of any run a delivery keeps a row that never goes back a stage or has a history row; COMPLETED and CANCELLED are absorbing and archived as such; archived deliveries never return |
| `Runs.LogIsAppendOnly` | backend/src/modules/history/historyRepository.ts:17-44 | The event log only grows at its end |
| `RowShape.RowsAreShaped` | backend/src/services/checkInDelivery.ts:40-60 | In every run a row's columns fit its status: check-in time and ticket from WAITING on, called time and an existing slot from CALLED on, receiving start while received, completion time and cancel reason exactly when closed so; the auto-warehouse flag, goods and way of receiving agree |
| `Coherence.StepKeepsCoherence` | backend/src/services/deliveryLifecycle.ts:35-40 | Every step keeps every slot coherent except the slot a delivery is moved out of by hand |
| `Coherence.RunKeepsCoherence` | backend/src/services/slotState.ts:45-94 | A slot stays coherent through a run as long as nobody is moved out of it by hand |
| `Coherence.SourceOfMove` | backend/src/services/manualCallDelivery.ts:207-236 | Every outcome of a move leaves the source slot coherent exactly when, before it, the active-delivery query cannot put the moved delivery first and the slot is manual or not exactly full |
| `Coherence.SourceOfOneMove` | backend/src/services/manualCallDelivery.ts:207-236 | Without ties the same condition decides the one outcome; with ties the answer of the query does; one reconcile repairs the source |
| `Coherence.MoveLeavesSourceStale` | backend/src/services/manualCallDelivery.ts:207-236 | A yard of two coherent slots and a move after which the slot left behind is OCCUPIED by a delivery that is gone |
| `DirectAssign.AssignDeliveryToSlot` | backend/src/modules/slots/slotService.ts:106-137 | A missing slot or delivery and a manual slot change nothing; otherwise the delivery's slot is written, the slot stamped and reconciled, and its snapshot returned |
| `DirectAssign.AssignmentKeepsCoherence` | backend/src/modules/slots/slotService.ts:118-132 | The target ends coherent, and so does every slot that was and that the delivery did not leave |
| `DirectAssign.SourceOfAssignment` | backend/src/modules/slots/slotService.ts:118-132 | A coherent slot an active delivery leaves stays coherent exactly when it did not name the delivery and is manual or was not exactly full |
| `DirectAssign.AssignmentOverfills` | backend/src/modules/slots/slotService.ts:118-132 | A target within its capacity stays so exactly when it has room, the delivery is not active, or it was there already |
| `Coherence.ManualStatusSurvives` | backend/src/modules/history/archiveService.ts:204-206 | A manual status survives a step exactly when the step does not archive or close the delivery assigned to the slot and is not a forced reconcile of it |
| `CapacityProtocol.CapacityIsNeverExceeded` | backend/src/services/autoAssign.ts:171-214 | In every state of every interleaving in which each stale start fits, every slot has at most maxCapacity active deliveries |
| `CapacityProtocol.OnlyTheLockHolderAdds` | backend/src/services/manualCallDelivery.ts:111-218 | A step that adds an occupant to a slot is taken by the transaction that holds the slot's row lock |
| `CapacityProtocol.CountDecides` | backend/src/services/autoAssign.ts:190-196 | The dispatcher goes on exactly when fewer rows are CALLED, RECEIVING or AUTO_WAREHOUSE_RECEIVING in the locked slot than its capacity |
| `CapacityProtocol.CountOthersDecides` | backend/src/services/manualCallDelivery.ts:145-205 | A call by hand goes on exactly when the slot does not hold the delivery already and fewer others than its capacity are there |
| `Coverage.StepIsProtocolMove` | backend/src/services/deliveryLifecycle.ts:42-122 | Whatever a step of the yard other than a registration does to the rows is a move of both protocols: a status change of one row, a call, a start, or a removal they allow |
| `Coverage.RegistrationIsCommit` | backend/src/modules/deliveries/deliveryService.ts:333-366 | A registration or re-registration writes the row that the commit of the registration protocol writes |
| `Coverage.TakeoverIsReregistration` | backend/src/modules/deliveries/deliveryService.ts:293-298 | The protocol takes a row over exactly when the yard lets it be re-registered |
| `CapacityProtocol.StaleStartExact` | backend/src/modules/deliveries/deliveryService.ts:640-651 | A start-receiving write whose delivery is no longer active can be followed by no overfull slot (other stale starts fitting) exactly when the slot it still names has room for one, or for two while the holder of its lock is past its count |
| `CapacityProtocol.StaleStartOverfills` | backend/src/modules/deliveries/deliveryService.ts:640-651 | An interleaving with a start, a cancellation and a dispatch ends with two active deliveries in a slot for one |
| `CapacityProtocol.StaleStartOverfillsLater` | backend/src/modules/deliveries/deliveryService.ts:640-651 | The same end when the slot is empty at the stale write and a dispatch that had counted it commits afterwards |
| `RegistrationProtocol.OneLiveRegistration` | backend/src/modules/deliveries/deliveryService.ts:284-366 | In every interleaving of registrations and other services a plate has at most one row that is neither COMPLETED nor CANCELLED per business location of its config and Vietnam day of its requested time (else of its creation) |
| `RegistrationProtocol.ManyMatchesIsUnreachable` | backend/src/modules/deliveries/deliveryService.ts:288-291 | The duplicate search never finds more than one row, so the branch for several is never taken |
| `RegistrationProtocol.SearchFinds` | backend/src/modules/deliveries/deliveryService.ts:288-292 | In any reachable state the search finds the one row of the same plate, place and day that is not closed, and none exactly when there is none |
| `RegistrationProtocol.RereadDecides` | backend/src/modules/deliveries/deliveryService.ts:293-298 | A found row is taken over exactly when it is still REGISTERED and not checked in; one that is gone, COMPLETED or CANCELLED makes the registration new, any other refuses it |
| `RegistrationProtocol.CountDecides` | backend/src/modules/deliveries/deliveryService.ts:123-144 | The registration ends at the count exactly when the rows of that config, vehicle and day whose status is not a closed one have reached the capacity |
| `RegistrationProtocol.RollbackUndoes` | backend/src/modules/deliveries/deliveryService.ts:283-366 | A transaction can be rolled back anywhere; no row changes and only its own locks go |
| `RegistrationProtocol.DayIsNeverOverbooked` | backend/src/modules/deliveries/deliveryService.ts:100-145 | In every interleaving in which a day's uncounted commits fit, the rows of its config and vehicle that are requested for it and not closed never exceed the largest of the capacities its registrations carry |
| `RegistrationProtocol.CommitOverbooks` | backend/src/modules/deliveries/deliveryService.ts:310-366 | A commit takes a day past its limit exactly when the day is full and the commit adds a row to it without having counted |
| `RegistrationProtocol.UncountedCommitExact` | backend/src/modules/deliveries/deliveryService.ts:310-318 | An uncounted commit can be followed by no overbooked day (other uncounted ones fitting) exactly when the day has room for one, or for two while the holder of the day's lock has counted |
| `RegistrationProtocol.UncountedIgnoresTheCapacity` | backend/src/modules/deliveries/deliveryRepository.ts:165 | A registration that is quick-verified or for goods without an enabled window, new or moved from another config or vehicle, adds a booking whatever the count |
| `Cbor.CborReader.Take` | backend/src/services/faceIdAuth.ts:77-104 | The reader returns, and leaves its offset at, what the specification function says for every buffer and offset, also past the end |
| `Cbor.CborReader.TakeLength` | backend/src/services/faceIdAuth.ts:106-120 | Lengths are read from 0, 1, 2 or 4 bytes in network order; a short read of one byte is undefined, of two or four throws, other forms are unsupported |
| `Cbor.ReadBack` | backend/src/services/faceIdAuth.ts:77-127 | Reading any nested encoding, anywhere in a buffer and with heads of any width, gives its value and stops exactly at its end (section 3 of RFC 8949) |
| `Cbor.RoundTrip` | backend/src/services/faceIdAuth.ts:129-131 | The same from the start of a buffer with trailing bytes |
| `Cbor.OnlyEncodings` | backend/src/services/faceIdAuth.ts:77-127 | Whatever is read without leaving the buffer was an encoding of the value returned |
| `Cbor.ReadsExactlyEncodings` | backend/src/services/faceIdAuth.ts:72-131 | Within the buffer the reader accepts exactly the encodings of each value |
| `Cbor.MissingBytesReadAsZero` | backend/src/services/faceIdAuth.ts:78-85 | The reader returns 0 and moves on by one exactly at a zero byte or past the end |
| `Cbor.EndsWithinExactly` | backend/src/services/faceIdAuth.ts:77-127 | A read ends within the buffer exactly when an encoding starts at its offset; every other read throws or leaves the buffer |
| `Cbor.CutStringIsAccepted` | backend/src/services/faceIdAuth.ts:85-127 | A string with fewer bytes than its length, in any head width, is returned as the bytes that are there, and no encoding is |
| `Cbor.MissingLengthIsAccepted` | backend/src/services/faceIdAuth.ts:106-109 | A string whose one-byte length is missing reads as empty and loses the offset |
| `Cbor.MissingLengthReads` | backend/src/services/faceIdAuth.ts:77-127 | What a head whose one-byte length is missing reads as, for each major type |
| `Cbor.SetExactly` | backend/src/services/faceIdAuth.ts:92-96 | An entry under a buffer, array or map key is always added, one under any other key replaces the entry of that key |
| `Cose.GetIsLast` | backend/src/services/faceIdAuth.ts:92-96 | A decoded map gives for a primitive key the value of the last entry that has it |
| `Cose.EcKeyExactly` | backend/src/services/faceIdAuth.ts:133-155 | An ES256 key is returned exactly when labels 1, 3, -2 and -3 hold 2, -7 and its two byte strings, with other entries and trailing bytes allowed (section 7.1.1 of RFC 9053) |
| `Cose.RsaKeyExactly` | backend/src/services/faceIdAuth.ts:157-169 | An RS256 key is returned exactly when labels 1, 3, -1 and -2 hold 3, -257 and its two byte strings (section 4 of RFC 8230) |
| `Cose.EcKeyInAnyOrder` | backend/src/services/faceIdAuth.ts:133-155 | With distinct keys the order of the entries does not matter for an ES256 key |
| `Cose.RsaKeyInAnyOrder` | backend/src/services/faceIdAuth.ts:157-169 | With distinct keys the order of the entries does not matter for an RS256 key |
| `Cose.AuthDataRoundTrip` | backend/src/services/faceIdAuth.ts:180-186 | Authenticator data is taken apart into the credential id, sign count and key it was put together from |
| `Cose.AttestationRoundTrip` | backend/src/services/faceIdAuth.ts:174-187 | An encoded attestation map in any order gives back the credential, or the key's own failure |
| `Decimal.PaddedRoundTrip` | backend/src/lib/dateVN.ts:12 | A number padded with zeros reads back as itself, also when wider than the padding |
| `Calendar.NextDate` | backend/src/lib/dateVN.ts:10-21 | The dates are those of the Gregorian calendar: with `Calendar.FirstDate` for day 0, each day is followed by the next date by the lengths of the months and the leap year rule (section 21.4.1 of ECMA-262) |
| `Calendar.CivilRoundTrip` | backend/src/lib/dateVN.ts:2-7 | Every day since 1970 has a valid date, and Date.UTC of it gives the day back (section 21.4.1 of ECMA-262) |
| `Calendar.DateRoundTrip` | backend/src/lib/dateVN.ts:16-21 | Every valid date is the date of its day |
| `Calendar.RangeOfDay` | backend/src/lib/dateVN.ts:10-21 | The range of a day's key is that day in Vietnam, without an end on the last day a Date reaches |
| `Calendar.StartsAtSeventeen` | backend/src/lib/dateVN.ts:16-21 | A Vietnam day starts at 17:00 UTC of the day before |
| `Calendar.TwoDigitYears` | backend/src/lib/dateVN.ts:16-21 | Years below a hundred are read as 1900 and more, all others as they are (section 21.4.3.4 of ECMA-262) |
| `Calendar.InstantLiesInItsDay` | backend/src/lib/dateVN.ts:10-21 | Every instant since Vietnam settled on UTC+7 lies in the range of its key, except in the last seven hours of the Date range |
| `Calendar.RangeHasOneKey` | backend/src/lib/dateVN.ts:10-21 | All instants of a key's range have that key |
| `Calendar.KeyNamesTheDay` | backend/src/lib/dateVN.ts:10-13 | Two instants have the same key exactly on the same Vietnam day |
| `Calendar.DaysTile` | backend/src/lib/dateVN.ts:16-21 | Ranges of different days do not overlap, and consecutive ones leave no gap |
| `Calendar.MonthIsItsDays` | backend/src/modules/units/unitService.ts:122-127 | An instant is in a month's range exactly when its Vietnam date is of that month |
| `Calendar.MonthSpan` | backend/src/modules/units/unitService.ts:126 | daysInMonth is the number of days of the month's range |
| `Calendar.PreviousDateEndsToday` | backend/src/modules/scheduler/schedulerService.ts:28-31 | The previous business date is the day before, and its range ends where today's starts |
| `Calendar.NextDailyRun` | backend/src/helperFunction.ts:120-137 | The next run is in the future, at most a day away, and at the given time of day in Vietnam |
| `Calendar.DailyRunIsUnique` | backend/src/helperFunction.ts:120-137 | No other instant within a day of the start has that time of day |
| `Sequences.Counters.Reserve` | backend/src/services/registrationSequence.ts:78-99 | Hands out the stored next number, or the existing maximum plus one for a new counter, and stores the one after it |
| `Sequences.NumbersAreConsecutive` | backend/src/services/ticketSequence.ts:39-59 | Numbers of one key are consecutive in the order drawn, whatever maximum the rows show later |
| `Sequences.ExistingMaxNumber` | backend/src/services/registrationSequence.ts:57-61 | The maximum is attained by a code of the day, or 0, and no code's number exceeds it; unreadable suffixes are passed over |
| `Sequences.CodeNumberRoundTrip` | backend/src/services/registrationSequence.ts:31-38 | Stripping the prefix of a code and reading the suffix gives its number, also above 999 |
| `Sequences.CodesAreEqual` | backend/src/services/registrationSequence.ts:21-38 | Codes of one unit config are equal exactly when the numbers are and the days agree in the last two digits of the year, the month and the day |
| `Sequences.CodesOfTwoConfigs` | backend/src/services/registrationSequence.ts:21-38 | Codes of two unit configs of one location are equal exactly when numbers and dates are and the ids end in the same four characters |
| `Sequences.CodesAreUnique` | backend/src/services/registrationSequence.ts:64-107 | Codes issued to one unit config within a century are pairwise distinct, whatever rows come and go |
| `Sequences.CodesRepeatAfterACentury` | backend/src/services/registrationSequence.ts:8-11 | A hundred years later the same number gives the same code |
| `Sequences.FirstCodeIsNew` | backend/src/services/registrationSequence.ts:40-62 | The first code of a day differs from every code the day's rows already carry |
| `Sequences.TicketsAreNeverReused` | backend/src/services/ticketSequence.ts:30-60 | A later check-in of the same day, unit and vehicle gets a higher ticket whatever rows were removed, and no two rows hold the same one |
| `Sequences.TicketsAreConsecutive` | backend/src/services/ticketSequence.ts:39-59 | The next ticket of a day, unit and vehicle is the previous one plus one |
| `Sequences.CheckInIsPossible` | backend/src/services/ticketSequence.ts:9-28 | The query for the existing maximum always has an answer, so a row without a ticket can draw one |
| `Sequences.FirstTicket` | backend/src/services/ticketSequence.ts:9-28 | The first ticket of a counter is one above the largest its rows carry, and 1 when none does |
| `Windows.MinutesRoundTrip` | backend/src/helperFunction.ts:57-64 | A number of minutes written as a time reads back as itself |
| `Windows.TimeRoundTrip` | backend/src/helperFunction.ts:57-64 | A padded time with minutes below sixty is unchanged by reading and writing it |
| `Windows.SlotCountFits` | backend/src/modules/units/unitService.ts:172 | The closed form is the number of slots that fit the window |
| `Windows.WindowStarts` | backend/src/modules/units/unitService.ts:524-538 | The loop yields exactly that many evenly spaced starts, all of which fit, and one more would not |
| `Windows.AvailableSlots` | backend/src/modules/units/unitService.ts:520-541 | The offers are those of the windows in order, each with its bookings, past flag and availability |
| `Windows.OfferTells` | backend/src/modules/units/unitService.ts:524-538 | Every offer's slot lies in a window; it is past exactly when the day is today and the clock has reached its time, and available exactly when not past and with fewer bookings than the maximum |
| `Windows.CapacityIsLoopLength` | backend/src/modules/deliveries/deliveryRepository.ts:170-173 | Both closed-form capacities are the number of offered slots times the maximum |
| `Windows.EstimateIsWhatIsChecked` | backend/src/modules/units/unitService.ts:162-175 | The estimate shown and the capacity checked agree exactly when the maximum is not negative or no slot fits |
| `RateLimit.Limiter.Cleanup` | backend/src/middleware/rateLimit.ts:21-26 | From ten thousand buckets on, exactly the expired ones are removed |
| `RateLimit.CleanedExactly` | backend/src/middleware/rateLimit.ts:21-26 | In the columns: below ten thousand buckets none is removed, from then on those whose window is over |
| `RateLimit.Limiter.Allow` | backend/src/middleware/rateLimit.ts:28-60 | A request charges the open bucket of its key or opens one, and is refused exactly when the count exceeds the maximum |
| `RateLimit.CleanupChangesNoAnswer` | backend/src/middleware/rateLimit.ts:21-60 | With a clock that does not go back, the answers are those of a limiter that never cleans up, on every sequence of requests |
| `RateLimit.OneBucketBound` | backend/src/middleware/rateLimit.ts:36-43 | While a bucket is open at most the rest of its maximum of a key's requests is answered with a pass |
| `RateLimit.OneBucketAnswers` | backend/src/middleware/rateLimit.ts:28-60 | In an open bucket the requests of the key up to the maximum pass and are told how many are left, and every later one is refused |
| `RateLimit.FreshBucketAnswers` | backend/src/middleware/rateLimit.ts:28-60 | Without an open bucket the first maximum of a key's requests within one window pass and every later one is refused |
| `RateLimit.TwiceTheMaximum` | backend/src/middleware/rateLimit.ts:28-60 | In any interval no longer than the window at most twice the maximum of a key's requests is answered with a pass |
| `RateLimit.WaitingIsEnough` | backend/src/middleware/rateLimit.ts:48-57 | A request that waits as long as the refusal says passes |
| `RateLimit.WaitingIsNeeded` | backend/src/middleware/rateLimit.ts:48-57 | Until the bucket closes every request of the key is refused, and the told wait rounds that up by less than a second |
| `Push.Receipts.Push` | frontend/public/sw.js:112-147 | An obsolete push shows the stored notice again and changes nothing; any other replaces the receipt of its trip |
| `Push.Receipts.Trim` | frontend/public/sw.js:27-32 | The newest receipts up to the maximum are kept |
| `Push.HandleStored` | frontend/public/sw.js:112-147 | A push decides the receipt of its own trip and evicts at most one other, the oldest, exactly when a new trip meets a full cache |
| `Push.ReplacedExactly` | frontend/public/sw.js:119-121 | A receipt is replaced exactly when it is not of a closed delivery, not the same status and time, and not later where both have a time |
| `Push.HandleKeepsCache` | frontend/public/sw.js:142-146 | The cache holds at most thirty receipts and one per trip |
| `Push.FinalStays` | frontend/public/sw.js:119-121 | A push leaves a stored final status as it is unless it evicts the receipt |
| `Push.RunKeepsFinal` | frontend/public/sw.js:119-155 | Over any sequence of pushes a stored final status never changes while the receipt is not evicted |
| `Push.TimesNeverDecrease` | frontend/public/sw.js:119-121 | A stored time never decreases, except that an accepted notice without a time erases it |
| `Push.PushesConverge` | frontend/public/sw.js:95-155 | Every order of arrival with duplicates, mixed with other trips, ends with the trip's newest notice stored |
| `TrackRoom.Rooms.Retain` | frontend/src/lib/trackRoom.ts:7-20 | The first handle of a code registers its listener and joins or connects; later ones only count |
| `TrackRoom.Rooms.Release` | frontend/src/lib/trackRoom.ts:22-30 | A handle counts down once; the last one removes the listener and the lease and leaves |
| `TrackRoom.CountIsUnreleasedHandles` | frontend/src/lib/trackRoom.ts:5-31 | In every run the count is the number of unreleased handles and the listener exists exactly while that is positive |
| `TrackRoom.LeaveAtZero` | frontend/src/lib/trackRoom.ts:22-30 | Leave is emitted exactly by the release of the last unreleased handle |
| `TrackRoom.LeaveExactly` | frontend/src/lib/trackRoom.ts:22-30 | No step but the release of a code's last unreleased handle emits a leave of it, in any run |
| `TrackRoom.OldHandlesAreSpent` | frontend/src/lib/trackRoom.ts:21-27 | A handle of an earlier lease is released and cannot touch a later lease |
| `TrackRoom.ServerHasTheHeldRooms` | frontend/src/lib/trackRoom.ts:14-18 | While connected the server has the socket in exactly the held rooms, also after reconnects |
| `Cidr.AddressRoundTrip` | backend/src/services/staticIpAuth.ts:17-23 | The folded octets of a written address are its base-256 value |
| `Cidr.MaskTestIsDivision` | backend/src/services/staticIpAuth.ts:25-35 | For all addresses and prefixes 0 to 32 the mask test is equality of both addresses divided by 2 to the power 32 minus prefix (section 3.1 of RFC 4632) |
| `Cidr.LongerPrefixAdmitsLess` | backend/src/services/staticIpAuth.ts:25-35 | What a longer prefix of a base admits, each shorter one admits |
| `Cidr.ExtremePrefixes` | backend/src/services/staticIpAuth.ts:33-34 | Prefix 0 admits every address and prefix 32 only the base |
| `Cidr.MappedIsPlain` | backend/src/services/staticIpAuth.ts:10-15 | An IPv4 address in its IPv6 form is admitted exactly where the plain one is, and the IPv6 loopback where 127.0.0.1 is |

## Left out

- Lifecycle.StartReceivingDelivery: one atomic step here and in `Yard`; the unlocked read and write of the code are split only in `CapacityProtocol`.
- Runs.LogReplaysToLiveStatus: takes a start as one step, but the code writes its event in a further statement after the row (backend/src/modules/deliveries/deliveryService.ts:651-660); a completion in between leaves a log that ends in RECEIVING for a COMPLETED row. The other lemmas of `Runs` on the log rest on the same step.
- RowShape.RowsAreShaped: direct assignment, which may give a slot to a row of any status, is not among the steps.
- Coherence.StepKeepsCoherence: direct assignment (backend/src/modules/slots/slotService.ts:118-132) is not among the steps of `Yard`; `DirectAssign` gives what it does to each slot.
- CapacityProtocol.CapacityIsNeverExceeded: runs leave out direct assignment (`DirectAssign.AssignmentOverfills` is exact for it) and lowering maxCapacity, and stale starts that do not fit, which `CapacityProtocol.StaleStartExact` shows to be those that overfill; the locks that reconciling takes on further slots are left out, which only allows more interleavings.
- RegistrationProtocol.OneLiveRegistration: start-receiving is atomic here too; the block on plates with an archived EXPIRED or INCOMPLETED day is one of the possible rollbacks, and advisory locks are taken on keys, not on their 32-bit hashes (a collision only makes more transactions wait).
- RegistrationProtocol.DayIsNeverOverbooked: the configuration is fixed and every row has a requested time, as every registration sets one.
- Yard.StepKeepsRecords: archive steps are those the services make (after a completion, and by the archive job); other callers of the archive function are not part of this model.
- ArchiveJob.ArchiveDeliveries: the error list is kept as its length, and loops over batches visit candidates in any order.
- SlotState.ReconcileAllSlots: the order of the snapshots, by unit, vehicle and code, is left open.
- AutoAssign.TriggerAutoAssign: sequential, so SKIP LOCKED skips nothing; the interleaved form is `CapacityProtocol`. Slot codes are ranks in their collation order.
- Cbor.CborReader.Take: text is kept as its bytes, so two malformed UTF-8 keys that decode to the same text stay different; memory is unbounded.
- Cose.EcKeyExactly: key coordinates are bytes; their base64url form is left out.
- Calendar.InstantLiesInItsDay: instants before 1975-06-12T16:00:00Z, when Vietnam was not at UTC+7, are outside the model.
- Sequences.CodeNumberRoundTrip: code segments are normalised already, and Number reads digits only (no exponent, hexadecimal or blank forms), here as in `Windows` and `Cidr`.
- Windows.AvailableSlots: the guards before the loop (Sunday rule, accepted goods, no windows) and the reading of bookings are left out; slot minutes are positive, as the form validation requires.
- RateLimit.Limiter.Allow: response headers other than the waiting time, and the choice of key, are left out.
- Push.Receipts.Push: notification options, focused windows and cache failures are left out; timestamps are numbers for ISO texts.
- TrackRoom.Rooms.Retain: one socket; codes are trimmed and upper case already; the message buffer of a disconnected socket is left out.
- Cidr.MaskTestIsDivision: addresses are written without leading zeros or blanks; bit operations are on numbers from 0 to 2^32 - 1.
- Automatic cancellation of called no-shows: a cancellation step, its test before the lock being one of the things that happen in between.
- Deadlock and liveness: the code takes slot locks in differing orders and claims neither.
- Prisma, SQL text, Redis, sockets, web push delivery and cron: tables and locks are maps, everything else is left out.
- Authentication sessions, tokens, signature checks, passwords and roles: not part of this model.
- Routes, form parsing, audit logs, uploads, external APIs, reports and pages: not part of this model; what a form holds reaches it as parameters, and what logs, reports and pages show does not feed back into the tables.
- Message texts, notes and the driver's and vendor's contact columns of a row: not part of this model.
