# A verified model of the WARPED kernel

WARPED is a Time Warp kernel: simulation objects execute events optimistically, roll back when an event or an
anti-message arrives in their past, and discard history below a global virtual time (GVT) that a ring protocol
computes. This project models the parts of the kernel whose correctness is least obvious and proves it, for all
inputs and all runs. `dafny verify dfyconfig.toml` checks everything.

Each part has a model on values (functions, state machines, invariants, theorems over whole runs) and, where the
source changes objects in place, a class with the same fields and loops whose methods are proved to compute the
functions of the model. For each of the GVT manager, the output managers, the ladder queue, the kernel's handling of
one object and the recovery manager, a sequence of method calls is therefore a run of the model's steps, and the theorems
about runs apply to it. The classes of one object are composed: its kernel uses the event container and the state
manager, and the output managers use the loops of the output queue.

| part | files |
|---|---|
| Mattern GVT protocol | `GvtLocal`, `GvtProtocol`, `GvtWeakest`, `GvtProgress`, `GvtAgreement`, `GvtTwoManagers`, `GvtLateWhite`, `GvtUncleanStart`, `GvtManager` |
| Output cancellation (aggressive, lazy, dynamic) | `OutputQueue`, `Cancellation`, `CancellationMatch`, `CancellationOrder`, `OutputManagers` |
| Ladder queue | `LadderModel`, `LadderRungs`, `LadderInsert`, `LadderErase`, `LadderDequeue`, `LadderOrder`, `LadderTopPath`, `LadderJam`, `LadderShadow`, `LadderRuns`, `LadderDrain`, `LadderDrained`, `LadderWidths`, `LadderWitness`, `LadderJamWitness`, `LadderQueue` |
| Splay tree event set | `SplayShape`, `SplayTree` |
| One object under Time Warp: event container, state queue, rollback | `EventContainer`, `TimeWarpObject`, `TimeWarpRuns`, `TimeWarpFossil`, `TimeWarpLog`, `TimeWarpAccounts`, `TimeWarpExact`, `TimeWarpSequential`, `TimeWarpManagers` |
| Recovery from checkpoints | `CheckpointTimes`, `RecoveryProtocol`, `RecoveryRuns`, `RecoveryLatest`, `RecoveryManager` |
| Serializer | `WireFormat`, `WireMessages`, `SerializedInstances` |
| Lock-free list, one thread | `LockFreeList` |
| Shared: optional values, facts about sequences | `Wrappers` |

## What is proved

- **GVT.** Over every execution of any number of managers the white counts and the token's count add up to the white
  messages in flight, and a token exists exactly while one is pending. In disciplined executions (each cycle starts
  with no update and no red message of the last one under way, and at the closing test manager 0 either has count zero
  or agrees with the token) every published GVT is a lower bound of all clocks and messages in flight, forever, and
  GVT never decreases. The code's closing test alone is not enough, as a two-manager execution shows. The comparison
  with manager 0's own clock and minimum that would mend it is the weakest local test: it succeeds if and only if the
  value is a lower bound at the end of every disciplined execution that looks the same to managers and token. Each
  hypothesis on the start of a cycle is needed: without it alone, an execution ends with a value above a message in
  flight. A cycle ends: if no white message is in flight when manager 0 forwards the token, its test succeeds when the
  token is back. Whenever no update is under way and no token circulates, all managers hold manager 0's GVT, and the
  value a cycle ends with is at least every lower bound there was when it began.
- **Cancellation.** For every sequence of sends and rollbacks and every switch of mode, the dynamic (and lazy)
  manager's output queue agrees position by position with the aggressive one's, and whenever nothing waits in the lazy
  queue the receivers see the same live messages. A send is suppressed if and only if the object cancels lazily and
  the same message, whatever its id, waits anywhere in the lazy queue; exactly the leading events sent before it are
  then retracted, and the one taken out is the first that is the same. The numbers of hits at which the mode changes
  are stated. No event is cancelled twice, and none that is in the output queue is freed. The output queue stays in
  sending order if and only if nothing is sent before what is queued, and then a rollback takes exactly the events
  sent at or after its time. An event that waits in the lazy queue can be freed: when the queue is emptied and events
  are collected up to a time, exactly the removed events that wait behind one sent at or after that time are, and a
  run of the lazy manager does so.
- **Ladder queue.** The representation invariant holds after every insert, erase and dequeue, and no event is lost or
  duplicated; the branches reported as "needs improvement" and for an empty Bottom are unreachable. Dequeue returns
  nothing if and only if the queue is empty, or Bottom is and the search for a bucket ends at one that would have to
  be split with all eight rungs in use; a run of 409 inserts gets there, and nothing is ever returned again. Order is
  kept by an insert if and only if a stated condition holds, and repeated dequeue returns everything in order if and
  only if the layers are in order and it comes to no such jam. In runs that insert into Top there is no jam, at most
  seven rungs are live and the least event comes first. In every run, erase removes a queued event if and only if no
  live rung above the layer that holds it has its current edge at or before the event's time; in runs that insert into
  Top those rungs are the drained ones. Concrete runs show order lost, and events that erase cannot find below a
  drained rung and below one that is not. After a dequeue that pours from the rungs the last live rung holds an event,
  so none is live once the rungs are empty; the widths of new rungs are the exact quotients.
- **Splay tree.** The tree of heap nodes refines a sorted sequence; the splay loop's budget always suffices, and what
  splaying makes of a tree is fixed by what its rounds do to the parts the nodes head. Of several events with one key
  erase removes the one at a node that is determined by the tree, so it removes the event it is given if and only if
  that event is there; another can go in its place.
- **Time Warp.** Whatever the order in which events and anti-messages arrive, processed events are always in order, an
  event and its anti-message always annihilate, and fossil collection is invisible, in every run. Every event that
  arrived is collected after execution, freed after annihilation, or still owned by the container, exactly once. Any
  object's state is what executing the log of the run makes of its initial state. For every run, the log is the list
  of the executed events at every point if and only if every rollback restores a state that was saved before any event
  of its time was executed; then, whatever is saved, rolled back and collected, once nothing waits the object is in
  the state that executing the surviving events in timestamp order gives. Runs with distinct receive times, and runs
  that save only such states, are of this kind; a run with three events of one time is not, and there an event is
  about to be executed twice.
- **Recovery.** Every manager restores the same checkpoint, which is on the grid, not after the rollback time that
  started recovery, and exists at every manager when it is restored; no later checkpoint time is at or before that
  rollback time and the last checkpoints of all objects. Recovery is over after at most three messages per manager.
- **Serializer.** Every list of typed fields, nested to any depth, is read back by the matching getters with no byte
  left, a getter meant for another type aborts, and every number of a message is little-endian at a stated place.
  getBytes, which reads the length of a blob inside an assertion, returns the blob if and only if assertions are
  compiled in.
- **Lock-free list.** Used by one thread it refines a sequence of distinct keys.

## Model

| member | source | states |
|---|---|---|
| GvtLocal.RingSuccessor | src/MatternGVTManager.cpp:137-159 | the token goes to the next manager and from the last one to manager 0 |
| GvtLocal.UpdatesReachOthers | src/MatternGVTManager.cpp:161-173 | every manager but 0 gets exactly one update, with the new GVT, and nobody gets another |
| GvtProtocol.TokenStepBalance | src/MatternGVTManager.cpp:189-248 | receiving the token moves the count between manager and token without losing any; the token disappears exactly when manager 0's test ends the cycle |
| GvtProtocol.StepConserves | src/MatternGVTManager.cpp:68-129 | every step keeps: white counts plus token count equal white messages in flight; one token exists exactly when one is pending |
| GvtProtocol.ConservationAlways | src/MatternGVTManager.cpp:76-96 | conservation in every state of every execution, over all cycles |
| GvtProtocol.LowerBoundForever | src/SchedulingManager.h:33-39 | a value below all clocks and in-flight times stays below them forever |
| GvtProtocol.FinishMeansDrained | src/MatternGVTManager.cpp:194-202 | when the closing test succeeds no white message is in flight and only manager 0 can hold something the token does not cover |
| GvtProtocol.RootAgreesIsSafe | src/MatternGVTManager.cpp:194-203 | at the closing test, a value at most manager 0's clock and minimum is at most every clock, every message in flight and every manager's recorded minimum |
| GvtWeakest.RootAgreesIsWeakest | src/MatternGVTManager.cpp:194-203 | that comparison is the weakest local test: at the closing test of a disciplined execution it succeeds if and only if the value is a lower bound at the end of every disciplined execution with the same managers, clocks and token |
| GvtWeakest.RootShadow | src/MatternGVTManager.cpp:68-87 | while the token circulates, manager 0 could have sent one more message at its recorded minimum without any manager or the token holding anything else |
| GvtProtocol.ZeroOwnCountAgrees | src/MatternGVTManager.cpp:194-202 | a count of zero at manager 0 is enough for that |
| GvtProtocol.DisciplinedStepKeepsCycle | src/MatternGVTManager.cpp:99-129 | every step of a disciplined execution keeps the invariant of the two cuts |
| GvtProtocol.CycleInvAlways | src/MatternGVTManager.cpp:189-254 | that invariant holds in every state of every disciplined execution |
| GvtProtocol.GvtSafety | src/MatternGVTManager.cpp:194-248 | every GVT held or under way is, from then on, at most every clock and the receive time of every message in flight |
| GvtProtocol.GvtMonotone | src/MatternGVTManager.cpp:198-203 | GVT never decreases at any manager |
| GvtProgress.OneMoreRound | src/MatternGVTManager.cpp:189-248 | if no white message is in flight when manager 0 forwards the token, then after one hop per other manager it is back, the test succeeds and the value is safe |
| GvtAgreement.UpdateTaken | src/MatternGVTManager.cpp:249-254 | an update that is taken makes its value the GVT of the manager it was sent to, and of no other |
| GvtAgreement.GvtAgreed | src/MatternGVTManager.cpp:194-254 | in every disciplined execution, whenever no update is under way and no token circulates, every manager holds the GVT of manager 0 |
| GvtAgreement.GvtCatchesUp | src/MatternGVTManager.cpp:189-248 | the value a cycle ends with is at least every lower bound of clocks and messages in flight that held when it began |
| GvtLateWhite.LateWhiteDefeatsTest | src/MatternGVTManager.cpp:194-202 | a reachable state of two managers in which the test succeeds and the value taken exceeds manager 0's clock |
| GvtUncleanStart.RedMessageDefeats | src/MatternGVTManager.cpp:99-129 | an execution of two managers, disciplined but for one start with a red message of the last cycle in flight, whose next value exceeds that message |
| GvtUncleanStart.LateUpdateDefeats | src/MatternGVTManager.cpp:99-129 | the same with an update of the last cycle under way at the start |
| GvtManager.MatternGVTManager.constructor | src/MatternGVTManager.cpp:24-34 | the initial record is white with count zero and no token pending |
| GvtManager.MatternGVTManager.GetGVTInfo | src/MatternGVTManager.cpp:68-87 | sending colours the message and updates the record as the protocol's send step |
| GvtManager.MatternGVTManager.UpdateEventRecord | src/MatternGVTManager.cpp:89-97 | receiving updates the record as the protocol's receive step |
| GvtManager.MatternGVTManager.SendGVTToken | src/MatternGVTManager.cpp:137-159 | the token goes to the ring successor with the given values |
| GvtManager.MatternGVTManager.CalculateGVT | src/MatternGVTManager.cpp:99-129 | starts a cycle exactly as the protocol's start step, or does nothing while a token is pending |
| GvtManager.MatternGVTManager.SendGVTUpdate | src/MatternGVTManager.cpp:161-173 | the loop sends the protocol's list of updates |
| GvtManager.MatternGVTManager.ReceiveToken | src/MatternGVTManager.cpp:189-248 | handling the token is the protocol's token step |
| GvtManager.MatternGVTManager.ReceiveUpdate | src/MatternGVTManager.cpp:249-275 | handling an update takes its value and is the protocol's update step |
| OutputQueue.CutConserves | src/OutputEvents.cpp:79-137 | what a rollback takes plus what it leaves is what was queued |
| OutputQueue.CutIsExact | src/OutputEvents.cpp:79-137 | on a queue in sending order exactly the events sent at or after the time are taken |
| OutputQueue.CutExactIff | src/OutputEvents.cpp:79-137 | the scan is exact for every time if and only if the queue is in sending order |
| Cancellation.StepKeepsBalance | src/AdaptiveOutputManager.cpp:37-236 | every step keeps: each message sent is queued, collected, cancelled, or (lazy mode) waiting |
| Cancellation.BalancedAlways | src/AdaptiveOutputManager.cpp:37-236 | that balance holds throughout every run, for every mode decision |
| Cancellation.DynamicRefinesAggressive | src/AdaptiveOutputManager.cpp:37-160 | the dynamic manager's output queue agrees position by position with the aggressive manager's |
| Cancellation.DrainedLiveAgree | src/AdaptiveOutputManager.cpp:162-236 | whenever nothing waits in the lazy queue, the messages sent and not cancelled are the same, one by one, as under aggressive cancellation |
| Cancellation.LazyIsDynamic | src/LazyOutputManager.cpp:32-93 | a run of the lazy manager is a run of the dynamic one that never changes mode |
| Cancellation.LazyRefinesAggressive | src/LazyOutputManager.cpp:126-200 | the lazy manager refines the aggressive one in both senses |
| Cancellation.DrainEmpties | src/LazyOutputManager.cpp:112-137 | emptying with a time above all send times leaves nothing waiting |
| Cancellation.CancelledAtMostOnce | src/AdaptiveOutputManager.cpp:51-155 | no event is cancelled twice, no cancelled event is queued; in lazy mode nothing waiting has been cancelled, in aggressive mode everything waiting has |
| Cancellation.QueuedNeverFreed | src/OutputEvents.cpp:139-167 | collecting the removed list never frees an event still in the output queue (events in the lazy queue: WaitingFreedIff) |
| CancellationMatch.SameMessage | src/LazyOutputManager.cpp:60-60 | two events are the same message if and only if receiver, times and content agree, whatever their ids |
| CancellationMatch.HitIff | src/LazyOutputManager.cpp:32-93 | an event is found if and only if the same message waits anywhere in the lazy queue |
| CancellationMatch.CheckExact | src/LazyOutputManager.cpp:45-71 | exactly the leading events sent before the new one are retracted, the first same message is taken out, the others stay in order |
| CancellationMatch.TransmittedIff | src/AdaptiveOutputManager.cpp:37-96 | in every step a send is transmitted unless the object cancels lazily and the same message waits |
| CancellationMatch.ResentIsFound | src/LazyOutputManager.cpp:159-200 | a message that a rollback took out and that is sent again is found, and not transmitted twice by a lazy object |
| CancellationMatch.DetermineBands | src/AdaptiveOutputManager.cpp:98-160 | the numbers of hits out of sixteen at which the mode changes, and what then happens to the lazy queue |
| CancellationMatch.PermanentAlways | src/AdaptiveOutputManager.cpp:119-127 | from a permanent switch on, in every run, every send is transmitted and every rollback retracts all it takes |
| CancellationMatch.CollectExact | src/OutputEvents.cpp:139-167 | collecting drops exactly the leading events sent before the time, and all removed events sent before it |
| CancellationOrder.OrderedIff | src/OutputEvents.cpp:222-241 | in every run the output queue is in sending order throughout if and only if no event is sent before one queued for the same kind of receiver |
| CancellationOrder.CollectsExactly | src/OutputEvents.cpp:139-167 | in those runs a collection drops exactly the queued events sent before its time |
| CancellationOrder.TakenLatestFirst | src/OutputEvents.cpp:79-137 | a rollback takes the latest event first, local events before remote ones |
| CancellationOrder.RollbackTakesExactly | src/OutputEvents.cpp:79-137 | in those runs a rollback takes exactly the queued events sent at or after its time, each as often as it is queued |
| CancellationOrder.OnTimeIsForward | src/TimeWarpSimulationManager.cpp:531-565 | an object whose sends follow its clock, which rollbacks set back, makes such runs |
| CancellationOrder.WaitingFreedIff | src/OutputEvents.cpp:157-166 | when the lazy queue is emptied and events are collected up to a time, a waiting event is freed if and only if it was removed remotely and waits behind one sent at or after that time |
| CancellationOrder.EmptyThenCollectFrees | src/LazyOutputManager.cpp:112-124 | a run of the lazy manager that frees an event still waiting in the lazy queue |
| OutputManagers.OutputEvents.Insert | src/OutputEvents.cpp:222-241 | appends to the list for the receiver and takes the event off the removed list |
| OutputManagers.OutputEvents.GetEventsSentAtOrAfterAndRemove | src/OutputEvents.cpp:79-137 | returns and removes what the model's cut takes |
| OutputManagers.OutputEvents.FossilCollect | src/OutputEvents.cpp:139-167 | drops the stale prefix of both queues and the stale removed events |
| OutputManagers.AggressiveOutputManager.Rollback | src/AggressiveOutputManager.cpp:17-28 | a rollback is the aggressive step: everything taken is cancelled at once |
| OutputManagers.AggressiveOutputManager.HandleEvent | src/TimeWarpSimulationManager.cpp:531-565 | a send is recorded and transmitted; while the sender coasts forward or recovers it is thrown away |
| OutputManagers.CheckLazyCancelEvent | src/LazyOutputManager.cpp:32-93 | a send is suppressed if and only if the same message waits anywhere; the loop retracts the stale prefix and takes out the first such message |
| OutputManagers.HandleCancelEvents | src/LazyOutputManager.cpp:95-110 | everything pending is cancelled and nothing stays pending |
| OutputManagers.ComparisonsCounted | src/AdaptiveOutputManager.cpp:71-82 | one hit if the same message waits, one miss for each leading event sent before it, nothing without a comparison |
| OutputManagers.RingHolds | src/AdaptiveOutputManager.cpp:71-82 | results written one after the other: the vector holds the last sixteen |
| OutputManagers.ReconsideredBands | src/AdaptiveOutputManager.cpp:84-87 | the mode stays before sixteen comparisons and is then decided by the number of hits among the last sixteen |
| OutputManagers.DynamicOutputManager.DetermineCancellationMode | src/AdaptiveOutputManager.cpp:98-160 | the switch of mode is the model's for the number of hits in the comparison vector, with the lazy queue cancelled or dropped accordingly; nothing else changes |
| OutputManagers.DynamicOutputManager.HandleEvent | src/AdaptiveOutputManager.cpp:37-96 | checking and transmitting an event is a send step of the dynamic manager, with vector, counter and mode after it exactly as the comparisons say; replayed events are thrown away |
| OutputManagers.DynamicOutputManager.EmptyLazyQueue | src/AdaptiveOutputManager.cpp:189-209 | emptying one queue is an empty step, with vector, counter and mode after it exactly as the stale events say |
| OutputManagers.DynamicOutputManager.EmptyLazyQueues | src/AdaptiveOutputManager.cpp:162-187 | emptying all queues makes an empty step for each object |
| OutputManagers.DynamicOutputManager.Rollback | src/AdaptiveOutputManager.cpp:211-236 | a rollback is a rollback step; other objects are untouched |
| OutputManagers.DynamicOutputManager.FossilCollect | src/OutputManagerImplementationBase.cpp:46-53 | a collection is a collection step of the dynamic and of the lazy manager; other objects are untouched |
| OutputManagers.DynamicOutputManager.LazyHandleEvent | src/LazyOutputManager.cpp:159-172 | lazyCancel and the transmission are a send step of the lazy manager |
| OutputManagers.DynamicOutputManager.LazyEmptyQueue | src/LazyOutputManager.cpp:126-137 | an empty step of the lazy manager |
| OutputManagers.DynamicOutputManager.LazyRollback | src/LazyOutputManager.cpp:184-200 | a rollback step of the lazy manager |
| LadderRungs.IndexFits | src/LadderQStrict.h:343-360 | the bucket number computed is a bucket whose time range holds the event |
| LadderModel.LessIsLexicographic | src/EventFunctors.h:115-129 | events are ordered by receive time, then event id, then sender: a total order |
| LadderRungs.SpreadIsLive | src/LadderQStrict.h:384-400 | spreading events over a blank rung gives a live rung holding exactly them, numBucket one past the last used bucket |
| LadderInsert.InsertKeepsRep | src/LadderQStrict.h:308-423 | every insert keeps the representation and adds exactly the event |
| LadderWidths.InsertInRung | src/LadderQStrict.h:337-361 | the first rung whose current edge is not past the time gets the event at the front of a bucket of its time, and its current edge moves back to that bucket's edge and no further |
| LadderWidths.TransferWidth | src/LadderQStrict.h:550-578 | a rung that takes over Bottom starts at the least time and has the span divided by the length of Bottom, or by fifty, rounded down but at least one; in the first rung every time gets a bucket of that width |
| LadderWidths.SpawnWidth | src/LadderQStrict.h:527-545 | a rung for the events of one bucket has the width of that bucket divided by their number, rounded up |
| LadderWidths.FirstRungWidth | src/LadderQStrict.h:500-525 | the first rung starts at the least time in Top, has the span of Top divided by its length, rounded up, and twice as many buckets as events unless it has more |
| LadderWidths.InsertAttains | src/LadderQStrict.h:318-335 | an insert leaves minTS and maxTS times of events in Top |
| LadderDequeue.BucketNumberValid | src/LadderQStrict.h:581-666 | no bucket number in use equals INVALID |
| LadderDequeue.RecurseFacts | src/LadderQStrict.h:581-666 | the search terminates at the first bucket of the last non-empty rung, small enough or impossible to split, or reports none with no rung left or all eight in use |
| LadderDequeue.RecurseContents | src/LadderQStrict.h:581-666 | the search changes no contents |
| LadderDequeue.PourFacts | src/LadderQStrict.h:78-114 | pouring a bucket into Bottom keeps the representation; the branch reported as needing improvement is unreachable |
| LadderDequeue.BeginFacts | src/LadderQStrict.h:57-183 | begin keeps representation and contents and returns the head of Bottom (when it returns nothing: NullIff) |
| LadderDequeue.DequeueFacts | src/LadderQStrict.h:209-216 | dequeue removes exactly what it returns (when it returns nothing: NullIff) |
| LadderDrained.BeginStocks | src/LadderQStrict.h:78-91 | after begin has taken a bucket from the rungs, the last live rung, if any, holds an event: drained rungs are given up |
| LadderDrained.EmptiedRungsAreGone | src/LadderQStrict.h:88-91 | when begin has emptied the rungs, none is live, and every next insert leaves the layers in order |
| LadderDrained.TopGivesUpOne | src/LadderQStrict.h:150-183 | begin that loads Top gives up at most the rung it took the bucket from |
| LadderDrained.StockedAlways | src/LadderQStrict.h:78-91 | at every dequeue of every run that takes from the rungs: the last live rung holds an event afterwards, and none is live if the rungs are empty |
| LadderErase.EraseFacts | src/LadderQStrict.h:230-305 | erase keeps the representation and removes the event exactly when it is in the list searched |
| LadderErase.EraseKeepsRep | src/LadderQStrict.h:230-305 | erase keeps the representation however often the event is held |
| LadderOrder.InsertOrderedIff | src/LadderQStrict.h:318-423 | from an ordered ladder, an insert keeps order if and only if everything below its rung comes before it |
| LadderOrder.BeginKeepsOrder | src/LadderQStrict.h:57-183 | begin keeps the layers in order |
| LadderOrder.BeginLeast | src/LadderQStrict.h:57-183 | in order, begin returns the least event of the whole queue |
| LadderOrder.EraseKeepsOrder | src/LadderQStrict.h:230-305 | erase keeps the layers in order |
| LadderTopPath.WidestSix | src/LadderQStrict.h:527-545 | dividing the widest 32-bit span by 51 six times, rounding up, leaves width one |
| LadderJam.NullIff | src/LadderQStrict.h:57-183 | begin returns nothing if and only if the queue is empty, or Bottom is and splitting bucket after bucket needs a ninth rung |
| LadderJam.JamStays | src/LadderQStrict.h:70-75 | in that case dequeue returns nothing, loses nothing, and leaves the queue in the same case |
| LadderJam.NullOnlyWhenEmpty | src/LadderQStrict.h:503-545 | with rungs as narrow as inserts into Top leave them, begin returns nothing exactly when the queue is empty |
| LadderShadow.EraseRemovesIff | src/LadderQStrict.h:230-305 | whatever inserts built the ladder, erase removes a queued event if and only if no live rung above its layer has its current edge at or before its time |
| LadderShadow.HiddenIsShadowed | src/LadderQStrict.h:254-299 | in ladders built by inserts into Top those rungs are the drained ones |
| LadderRuns.RepAlways | src/LadderQStrict.h:57-423 | the representation invariant in every run of inserts, erases and dequeues |
| LadderRuns.StepContents | src/LadderQStrict.h:57-423 | conservation in every run, operation by operation; dequeue returns nothing only from an empty or a jammed queue |
| LadderRuns.NullExactAlways | src/LadderQStrict.h:209-216 | the exact condition for dequeue to return nothing, at every dequeue of every run |
| LadderRuns.EraseExactAlways | src/LadderQStrict.h:230-305 | the exact condition for erase in every run |
| LadderRuns.OrderedAlways | src/LadderQStrict.h:318-361 | order throughout every run whose inserts meet the exact condition |
| LadderRuns.DequeueLeast | src/LadderQStrict.h:209-216 | in those runs dequeue returns the least event by receive time, event id, sender |
| LadderDrain.DrainSortedIff | src/LadderQStrict.h:209-216 | if repeated dequeue empties the queue, the events come out in order if and only if the layers are in order |
| LadderDrain.CompleteIff | src/LadderQStrict.h:209-216 | repeated dequeue empties the queue if and only if it comes to no jam |
| LadderDrain.DrainAlways | src/LadderQStrict.h:209-216 | from any point of every run, dequeueing alone returns everything, in order, if and only if it comes to no jam and the layers are in order |
| LadderRuns.TopRunTheorem | src/LadderQStrict.h:209-216 | in runs that insert into Top: at most seven rungs, nothing returned exactly when empty, least event first, erase exact |
| LadderWitness.EraseMisses | src/LadderQStrict.h:254-299 | a reachable queue from which erase cannot remove an event below a drained rung |
| LadderWitness.EraseMissesUndrained | src/LadderQStrict.h:254-299 | a reachable queue without drained rungs from which erase cannot remove an event it holds |
| LadderWitness.DequeueOutOfOrder | src/LadderQStrict.h:654-657 | a reachable queue whose dequeue returns a later event first |
| LadderJamWitness.DequeueJams | src/LadderQStrict.h:536-539 | a reachable queue with events from which dequeue returns nothing, now and ever after |
| LadderQueue.LadderQueueStrict.constructor | src/LadderQStrict.h:29-50 | the empty ladder |
| LadderQueue.LadderQueueStrict.StepThroughRungs | src/LadderQStrict.h:337-341 | the loop finds the first rung whose current edge is not past the time |
| LadderQueue.LadderQueueStrict.RungForBottom | src/LadderQStrict.h:550-578 | start and width of the rung that takes over Bottom |
| LadderQueue.LadderQueueStrict.TransferBottom | src/LadderQStrict.h:373-416 | Bottom and the new event move into a new rung |
| LadderQueue.LadderQueueStrict.Insert | src/LadderQStrict.h:308-423 | equals the model's insert, keeps the representation, adds exactly the event |
| LadderQueue.LadderQueueStrict.Erase | src/LadderQStrict.h:230-305 | equals the model's erase and keeps the representation |
| LadderQueue.LadderQueueStrict.RecurseRung | src/LadderQStrict.h:581-666 | the loop pops, aims and spawns as the model's search and terminates |
| LadderQueue.LadderQueueStrict.LoadFirstRung | src/LadderQStrict.h:122-145 | Top is spread over the first rung |
| LadderQueue.LadderQueueStrict.PourBucket | src/LadderQStrict.h:78-114 | the model's pour: a bucket goes to Bottom, and its rung is brought up to date or given up, with the drained rungs above (BeginStocks) |
| LadderQueue.LadderQueueStrict.Begin | src/LadderQStrict.h:57-183 | equals the model's begin; nothing is lost or duplicated (which rungs it gives up: BeginStocks, TopGivesUpOne) |
| LadderQueue.LadderQueueStrict.Dequeue | src/LadderQStrict.h:209-216 | equals the model's dequeue; exactly the returned event leaves |
| SplayShape.InOrderIsNumbering | src/SplayTree.cpp:349-424 | the numbering kept by the rotations is the in-order listing of the tree |
| SplayShape.RotateRightTree | src/SplayTree.cpp:387-424 | a right rotation keeps a well-formed tree with the same in-order listing |
| SplayShape.RotateLeftTree | src/SplayTree.cpp:348-385 | a left rotation keeps a well-formed tree with the same in-order listing |
| SplayShape.ZigZigRight | src/SplayTree.cpp:329-338 | rotating first at the grandparent, then at the parent: the node heads what the grandparent headed, the parent the part beyond the node, the grandparent the part beyond the parent |
| SplayShape.ZigZagRight | src/SplayTree.cpp:320-328 | rotating first at the parent, then at the grandparent: the node heads what the grandparent headed, the other two the parts on either side |
| SplayShape.SameLinks | src/SplayTree.cpp:287-346 | what the nodes head fixes every child link |
| SplayShape.SplayedUnique | src/SplayTree.cpp:287-346 | two ways of bringing a node to the root by such rounds end in the same tree |
| SplayShape.AttachLeftTree | src/SplayTree.cpp:54-62 | a leaf attached on the left comes just before its parent |
| SplayShape.AttachRightTree | src/SplayTree.cpp:64-76 | a leaf attached on the right comes just after its parent |
| SplayShape.LeafBelow | src/SplayTree.cpp:54-76 | the others head each other as before, and the leaf is below the node it was attached to |
| SplayShape.DropRootTree | src/SplayTree.cpp:245-271 | joining the two parts of a removed root keeps the rest of the listing |
| SplayShape.HungBelowLast | src/SplayTree.cpp:249-271 | the others head each other as before, and the last node of the left part and all above it head the right part |
| SplayShape.DropFirstTree | src/SplayTree.cpp:95-103 | bypassing the first node keeps the rest of the listing |
| SplayShape.FirstBypassed | src/SplayTree.cpp:95-103 | the others head each other as before |
| SplayTree.InsertBeforeSorts | src/SplayTree.cpp:51-77 | inserting before the first event not exceeded keeps the list sorted |
| SplayTree.InsertBeforeAdds | src/SplayTree.cpp:51-77 | and adds exactly the event |
| SplayTree.CompareEventIs | src/SplayTree.h:115-130 | events are compared by receive time, then receiver |
| SplayTree.SplayTree.RotateRight | src/SplayTree.cpp:387-424 | the pointer updates carry out the rotation; null cases change nothing |
| SplayTree.SplayTree.RotateLeft | src/SplayTree.cpp:348-385 | the pointer updates carry out the rotation; null cases change nothing |
| SplayTree.SplayTree.Splay | src/SplayTree.cpp:287-346 | the node reaches the root within numberOfElements/2 rounds, each a single or double step as the source has it; the in-order sequence is unchanged |
| SplayTree.SplayTree.Insert | src/SplayTree.cpp:19-77 | the event goes just before its equals, as a leaf that is then splayed to the root; sorted; `current` is the first node |
| SplayTree.SplayTree.GetEvent | src/SplayTree.cpp:79-119 | removes and returns exactly the head |
| SplayTree.SplayTree.PeekEvent | src/SplayTree.cpp:121-139 | returns the head and changes nothing |
| SplayTree.SplayTree.Find | src/SplayTree.cpp:221-230 | finds a node with the key or proves there is none |
| SplayTree.SplayTree.RemoveNode | src/SplayTree.cpp:236-280 | exactly the node is gone; the branch after a failed splay is unreachable |
| SplayTree.SplayTree.Erase | src/SplayTree.cpp:180-280 | exactly one event with the key is removed if there is one, the one at the chosen node, splayed to the root first; nothing otherwise |
| SplayTree.RemovesItselfIff | src/SplayTree.cpp:213-230 | erase removes the event it is given, and not another with the key, if and only if that event is at the chosen node |
| SplayTree.ChosenUnique | src/SplayTree.cpp:213-230 | the first node if it has the key, else the one with the key that heads all others with it: there is one such node |
| SplayTree.EraseTakesAnother | src/SplayTree.cpp:213-230 | two events of one key are inserted, the older is erased, and the newer one is gone |
| EventContainer.SortedUnique | src/DefaultTimeWarpEventContainer.h:42-47 | a sorted listing is determined by what it lists, so the library sort has one result |
| EventContainer.LessIsLexicographic | src/EventFunctors.h:115-129 | events are ordered by receive time, then event id, then sender: a total order |
| EventContainer.RollbackFacts | src/DefaultTimeWarpEventContainer.cpp:128-137 | exactly the executed events before the time stay executed, the rest waits again, nothing is lost, order is kept |
| EventContainer.GetNextFacts | src/DefaultTimeWarpEventContainer.cpp:239-259 | the next event is the least waiting one and goes to the end of the executed ones |
| EventContainer.InsertAnnihilatedIff | src/DefaultTimeWarpEventContainer.cpp:73-97 | an event does not join the waiting ones if and only if an anti-message with its id and sender waits, which then goes |
| EventContainer.AntiMessageFoundIff | src/DefaultTimeWarpEventContainer.cpp:104-126 | an anti-message is handled at once if and only if an event with its id and sender waits, which then goes; otherwise it waits |
| EventContainer.FossilFacts | src/DefaultTimeWarpEventContainer.cpp:163-185 | collecting keeps order and conservation with the collected events counted in |
| EventContainer.NotBeforeIs | src/DefaultTimeWarpEventContainer.cpp:176-184 | of the removed events exactly those before the time go |
| EventContainer.AntiMessageKeepsOrder | src/DefaultTimeWarpEventContainer.cpp:104-126 | handling an anti-message keeps order |
| TimeWarpObject.RestoredPrefix | src/StateManagerImplementationBase.cpp:50-84 | restoring keeps a prefix of the state queue whose last time is not after the rollback time |
| TimeWarpObject.RestoredLatest | src/StateManagerImplementationBase.cpp:65-84 | every state dropped is later than the rollback time, so the one restored is the latest that is not |
| TimeWarpObject.KeptFacts | src/StateManagerImplementationBase.cpp:113-141 | collecting keeps a suffix; everything dropped is older than the time, and at most one state kept is |
| TimeWarpObject.KeptOldest | src/StateManagerImplementationBase.cpp:113-141 | the oldest time kept is the last one before the collection time, if there is one |
| TimeWarpObject.CoastFacts | src/TimeWarpSimulationManager.cpp:908-951 | coasting forward executes waiting events before the time and leaves the state right |
| TimeWarpObject.CoastExecutesAll | src/TimeWarpSimulationManager.cpp:908-951 | coasting forward leaves no waiting event before the time |
| TimeWarpObject.RollbackKeepsCore | src/TimeWarpSimulationManager.cpp:816-905 | after a rollback the restored time is not after the rollback time, only events before it are executed, and the state is the one they give |
| TimeWarpObject.RollbackDivides | src/TimeWarpSimulationManager.cpp:816-905 | after a rollback exactly the events held before the time are executed and all others wait |
| TimeWarpAccounts.AheadUndisturbed | src/TimeWarpSimulationManager.cpp:577-587 | an event ahead of the clock changes neither clock, state, saved states nor executed events |
| TimeWarpAccounts.StragglerDivides | src/TimeWarpSimulationManager.cpp:577-587 | after any other event exactly the events before its time are executed and all others wait |
| TimeWarpAccounts.CancelDivides | src/TimeWarpSimulationManager.cpp:610-641 | the same for a batch of anti-messages and its lowest time |
| TimeWarpAccounts.PlacedAlways | src/DefaultTimeWarpEventContainer.cpp:73-185 | in every run every event that arrived is collected after execution, freed after annihilation, or owned by the container, exactly once |
| TimeWarpAccounts.RemovedAreAnnihilated | src/DefaultTimeWarpEventContainer.cpp:84-113 | the list of removed events holds exactly the annihilated ones that have not been freed |
| TimeWarpObject.ExecuteSaveKeepsCore | src/TimeWarpSimulationManager.cpp:385-412 | saving and executing keep every saved state and the current state right |
| TimeWarpObject.CollectKeepsCore | src/TimeWarpSimulationManager.cpp:1007-1070 | collecting states up to GVT and events up to the oldest kept state keeps everything right |
| TimeWarpRuns.InsertAccounted | src/DefaultTimeWarpEventContainer.cpp:73-97 | an event annihilates with a waiting anti-message or joins the waiting events, exactly as the arrived messages say |
| TimeWarpRuns.AntiAccounted | src/DefaultTimeWarpEventContainer.cpp:104-126 | an anti-message annihilates with a waiting event or waits, exactly as the arrived messages say |
| TimeWarpRuns.InvAlways | src/TimeWarpSimulationManager.cpp:577-641 | in every run: executed events in timestamp order, no waiting event before them, every event accounted for; with clean saves also the state they give |
| TimeWarpRuns.ReplayOrder | src/DefaultTimeWarpEventContainer.cpp:73-137 | in every run processed events are sorted, and once nothing waits collected and processed events together are the surviving events in timestamp order |
| TimeWarpRuns.AnnihilationComplete | src/DefaultTimeWarpEventContainer.cpp:73-126 | once an event and its anti-message have both arrived, in either order, neither is in any queue |
| TimeWarpFossil.RollbackAlike | src/StateManagerImplementationBase.cpp:50-84 | after a collection, a rollback restores the same state and puts the same events back |
| TimeWarpFossil.TwinAlways | src/TimeWarpSimulationManager.cpp:1007-1070 | a run and the run without its collections stay alike step by step |
| TimeWarpFossil.FossilInvisible | src/DefaultTimeWarpEventContainer.cpp:163-185 | both have the same clock, state, executed and waiting events; the collected one keeps a suffix of the saved states |
| TimeWarpLog.RollbackExactIff | src/StateManagerImplementationBase.cpp:65-84 | a rollback leaves state and executed events in step if and only if the restored state was saved before any event of its time |
| TimeWarpLog.StepIff | src/TimeWarpSimulationManager.cpp:577-641 | any step from a state in step stays in step if and only if it does not restore an unclean state, and then keeps every saved log right |
| TimeWarpLog.InStepIff | src/TimeWarpSimulationManager.cpp:385-641 | for every run: state and executed events are in step at every point if and only if every rollback restores a clean state |
| TimeWarpSequential.LogDetermines | src/TimeWarpSimulationManager.cpp:385-951 | in every run any object's state, saved states, clock and queues are what its log makes of them |
| TimeWarpSequential.StateIsReplay | src/TimeWarpSimulationManager.cpp:816-905 | if every rollback restores a clean state, any object's state is always what its executed events give |
| TimeWarpSequential.SequentialEquivalence | src/TimeWarpSimulationManager.cpp:816-905 | in those runs, once nothing waits, the state is what sequential execution of the surviving events gives |
| TimeWarpSequential.ArrivalOrderIrrelevant | src/TimeWarpSimulationManager.cpp:577-641 | two drained runs of this kind with the same survivors end in the same state |
| TimeWarpSequential.CleanRunRestoresCleanly | src/TimeWarpSimulationManager.cpp:391-392 | a run that saves only clean states restores only clean states |
| TimeWarpSequential.DistinctTimesRestoreCleanly | src/TimeWarpSimulationManager.cpp:391-392 | with distinct receive times every rollback restores a clean state |
| TimeWarpExact.DistinctTimesRunClean | src/TimeWarpSimulationManager.cpp:391-392 | with distinct receive times every run saves only clean states |
| TimeWarpExact.AntiMessageExactIff | src/DefaultTimeWarpEventContainer.cpp:104-126 | an anti-message annihilates a present event if and only if it is not executed; otherwise it stays queued |
| TimeWarpExact.UncleanRunGoesWrong | src/TimeWarpSimulationManager.cpp:577-587 | a run with three events of one time after which the state contains an event that waits to be executed again |
| TimeWarpManagers.Reclaim | src/DefaultTimeWarpEventContainer.cpp:176-184 | removed events before the time are reclaimed once each, the others stay in order |
| TimeWarpManagers.DefaultTimeWarpEventContainer.Insert | src/DefaultTimeWarpEventContainer.cpp:73-97 | equals the model's insert |
| TimeWarpManagers.DefaultTimeWarpEventContainer.HandleAntiMessage | src/DefaultTimeWarpEventContainer.cpp:104-126 | equals the model's anti-message step and reports whether a match was found |
| TimeWarpManagers.DefaultTimeWarpEventContainer.Rollback | src/DefaultTimeWarpEventContainer.cpp:128-137 | equals the model's rollback |
| TimeWarpManagers.DefaultTimeWarpEventContainer.FossilCollect | src/DefaultTimeWarpEventContainer.cpp:163-185 | equals the model's collection; every event is kept or reclaimed once, only earlier ones are reclaimed |
| TimeWarpManagers.DefaultTimeWarpEventContainer.NextEvent | src/DefaultTimeWarpEventContainer.cpp:239-249 | sorts if necessary and returns the first waiting event |
| TimeWarpManagers.DefaultTimeWarpEventContainer.GetNextEvent | src/DefaultTimeWarpEventContainer.cpp:251-259 | moves that event to the processed ones |
| TimeWarpManagers.DefaultTimeWarpEventContainer.IsInThePast | src/DefaultTimeWarpEventContainer.cpp:261-282 | true exactly when the event belongs before some processed event |
| TimeWarpManagers.StateManager.RestoreState | src/StateManagerImplementationBase.cpp:50-111 | the loop restores the last state not after the time, or the oldest; other objects' queues are untouched |
| TimeWarpObject.SavingFacts | src/PeriodicStateManager.cpp:58-60 | saving adds exactly the state and keeps the queue in the order of times |
| TimeWarpManagers.StateManager.SaveState | src/PeriodicStateManager.cpp:32-66 | the state is saved exactly when the period counter has run down, and then joins its queue in the order of times; the counter is reset or decremented; other objects are untouched |
| TimeWarpManagers.StateManager.constructor | src/StateManagerImplementationBase.cpp:19-26 | empty queues, the given period, counters that make the first save happen |
| TimeWarpManagers.StateManager.FossilCollect | src/StateManagerImplementationBase.cpp:113-164 | drops what the model drops; the time returned is that of the last state before the collection time, if there is one |
| TimeWarpManagers.ObjectKernel.CoastForward | src/TimeWarpSimulationManager.cpp:908-951 | the loop over the container is the model's coasting |
| TimeWarpManagers.ObjectKernel.Rollback | src/TimeWarpSimulationManager.cpp:816-905 | restore at the state manager, put back in the container, coast forward: the model's rollback; other objects' states are untouched |
| TimeWarpManagers.ObjectKernel.HandleLocalEvent | src/TimeWarpSimulationManager.cpp:577-587 | a straggler rolls back to its time before it is inserted |
| TimeWarpManagers.ObjectKernel.CancelLocalEvents | src/TimeWarpSimulationManager.cpp:610-641 | a batch of anti-messages rolls back to the lowest time first |
| TimeWarpManagers.ObjectKernel.ExecuteObject | src/TimeWarpSimulationManager.cpp:385-412 | one execution step, the state saved or not as the state manager decides |
| TimeWarpManagers.TimeWarpKernel.FossilCollect | src/TimeWarpSimulationManager.cpp:1007-1070 | states of all objects are collected up to GVT, then events of all objects up to the least of the oldest times kept: the model's collection for every object, within its bound |
| TimeWarpManagers.ObjectKernel.constructor | src/TimeWarpSimulationManager.cpp:1100-1113 | no events, clock zero, the initial state saved for time zero: the start of a run |
| CheckpointTimes.GridGap | src/OptFossilCollManager.cpp:353-362 | two different checkpoint times are at least a period apart |
| CheckpointTimes.UpdateKeepsBooked | src/OptFossilCollManager.cpp:353-362 | stepping back keeps: every last time has a checkpoint, the next one is a period later, checkpoints exist for all grid times up to the newest |
| CheckpointTimes.CheckpointKeepsBooked | src/OptFossilCollManager.cpp:153-236 | checkpointing keeps that, loses no checkpoint, and leaves the object's next time after the given one |
| CheckpointTimes.UpdateStepsBack | src/OptFossilCollManager.cpp:353-362 | stepping back goes to the checkpoint just before, for this object alone, and only if its last one is after the time |
| CheckpointTimes.CheckpointReaches | src/OptFossilCollManager.cpp:153-236 | exactly the checkpoint times up to the given one are added, the object is then at the latest of them unless it is beyond, and a checkpoint made for the first time moves every object on |
| CheckpointTimes.StartTimeFacts | src/OptFossilCollManager.cpp:377-391 | the checkpoint proposed is the latest grid time not after the rollback time and the manager's least last time |
| CheckpointTimes.LowerFacts | src/OptFossilCollManager.cpp:466-474 | what is passed on is the latest checkpoint time not after the proposal and the manager's least last time |
| CheckpointTimes.RestorableUpToLeast | src/OptFossilCollManager.cpp:257-257 | every grid time up to the least last time has a checkpoint to restore |
| RecoveryProtocol.StepKeeps | src/OptFossilCollManager.cpp:424-601 | every step keeps the invariant of the three rounds and every delivery lowers the number of messages to come |
| RecoveryProtocol.OnceOnly | src/OptFossilCollManager.cpp:424-601 | a round reaches a manager once: a manager that recovers ignores further requests to, and one that does not ignores the later rounds |
| RecoveryRuns.InvAlways | src/OptFossilCollManager.cpp:424-601 | the invariant in every state of every execution |
| RecoveryRuns.RecoveryAgreement | src/OptFossilCollManager.cpp:486-509 | all managers that have restored restored the same checkpoint, on the grid and not after the starting rollback time |
| RecoveryLatest.RestoredIsLatest | src/OptFossilCollManager.cpp:466-509 | in every execution what is restored is the latest checkpoint time at or before the rollback time that no object of any manager was behind |
| RecoveryLatest.RestoresTimes | src/OptFossilCollManager.cpp:238-316 | right after restoring, every object of the manager is at the restored checkpoint |
| RecoveryRuns.RestoreIsPossible | src/OptFossilCollManager.cpp:257-257 | whenever a manager restores, the checkpoint is a key of its map and not after any of its objects' last checkpoints |
| RecoveryRuns.RecoveryCompletes | src/OptFossilCollManager.cpp:486-601 | once started and with no message under way, every manager has restored |
| RecoveryRuns.MessagesDeliverable | src/OptFossilCollManager.cpp:393-412 | every message under way has a receiver that can handle it |
| RecoveryRuns.RecoveryTerminates | src/OptFossilCollManager.cpp:424-601 | at most three messages per manager are delivered |
| RecoveryManager.ComparesAlike | src/OptFossilCollManager.cpp:385-387 | on the grid the signed and unsigned comparison agree |
| RecoveryManager.StopsAtCheckpointIff | src/OptFossilCollManager.cpp:385-387 | the loop's test fails at a checkpoint time if and only if the rollback time is not before the first checkpoint |
| RecoveryManager.ZeroStopsIff | src/OptFossilCollManager.cpp:385-387 | for rollback time zero the test fails at some time the loop steps to, within the range of an int, if and only if the period is one |
| RecoveryManager.OptFossilCollManager.constructor | src/OptFossilCollManager.cpp:319-350 | the initial checkpoint |
| RecoveryManager.OptFossilCollManager.UpdateCheckpointTime | src/OptFossilCollManager.cpp:352-362 | equals the model's update and keeps the books |
| RecoveryManager.OptFossilCollManager.Checkpoint | src/OptFossilCollManager.cpp:152-236 | the loop equals the model's checkpoint and keeps the books |
| RecoveryManager.OptFossilCollManager.StartRecovery | src/OptFossilCollManager.cpp:364-413 | proposes the model's checkpoint with the source's comparison and sends the right message |
| RecoveryManager.OptFossilCollManager.RestoreCheckpoint | src/OptFossilCollManager.cpp:238-316 | all times are set to the restored checkpoint and the next one |
| RecoveryManager.OptFossilCollManager.ReceiveKernelMessage | src/OptFossilCollManager.cpp:417-610 | handling a message is the protocol's step; what it passes on is the latest checkpoint time possible (LowerFacts) |
| WireFormat.BlobRoundTripIff | src/SerializedInstance.cpp:64-98 | a blob is read back whole, with nothing left over, if and only if its length fits in 32 bits |
| WireFormat.BytesRoundTripIff | src/SerializedInstance.cpp:64-77 | getBytes returns what addBytes was given exactly when it is asked for that many bytes and assertions are compiled in; without them it returns the size first |
| WireFormat.RoundTrip | src/SerializedInstance.cpp:64-231 | any field, nested to any depth, is returned by the matching getter, which stops where the next field begins |
| WireFormat.RoundTripAll | src/SerializedInstance.cpp:64-231 | the same for any list of fields |
| WireFormat.ObjectRoundTrip | src/SerializedInstance.cpp:196-231 | a whole object is read back: type name, every field, no byte left |
| WireFormat.IntegersAreLittleEndian | src/SerializedInstance.h:212-228 | integers are written least significant byte first, negative ones as the two's complement |
| WireFormat.WrongGetAborts | src/SerializedInstance.cpp:233-240 | a getter meant for another type than the one added aborts |
| WireFormat.NumberExamples | src/SerializedInstance.h:193-200 | the bytes of an int, an unsigned and a double, tags included |
| WireFormat.BlobExamples | src/SerializedInstance.cpp:64-105 | the bytes of a blob and a string |
| WireFormat.InstanceExample | src/SerializedInstance.cpp:197-201 | the bytes of a nested object |
| WireMessages.ListRoundTrip | src/NegativeEventMessage.cpp:16-44 | a list is read back whole if each element is |
| WireMessages.EventRoundTrip | src/NegativeEvent.cpp:11-45 | an anti-message survives as a nested object |
| WireMessages.EventOffsets | src/NegativeEvent.cpp:11-20 | where the bytes of an anti-message hold its times, sender, receiver and id |
| WireMessages.OtherTypeRefused | src/NegativeEvent.cpp:22-45 | an object is taken for one of a type if and only if its type name says so |
| WireMessages.NegativeBodyRoundTrip | src/NegativeEventMessage.cpp:15-44 | anti-message lists of any length survive with count, events and GVT information, every byte consumed |
| WireMessages.NegativeRoundTrip | src/NegativeEventMessage.cpp:15-44 | the same for the whole message with its type name |
| WireMessages.NegativeOffsets | src/NegativeEventMessage.cpp:15-23 | where the bytes of the message hold the managers, the message number and the count |
| WireMessages.GVTRoundTrip | src/MatternGVTMessage.cpp:13-41 | a GVT token survives, also with a negative count |
| WireMessages.GVTOffsets | src/MatternGVTMessage.cpp:13-19 | where the bytes of a token hold its numbers |
| SerializedInstances.SerializedInstance.AddBytes | src/SerializedInstance.cpp:64-69 | appends exactly the model's bytes |
| SerializedInstances.SerializedInstance.AddString | src/SerializedInstance.cpp:101-105 | appends exactly the model's bytes |
| SerializedInstances.SerializedInstance.AddUnsigned | src/SerializedInstance.cpp:125-129 | appends exactly the model's bytes |
| SerializedInstances.SerializedInstance.AddInt | src/SerializedInstance.cpp:138-142 | appends exactly the model's bytes |
| SerializedInstances.SerializedInstance.AddInt64 | src/SerializedInstance.cpp:160-164 | appends exactly the model's bytes |
| SerializedInstances.SerializedInstance.AddDouble | src/SerializedInstance.cpp:166-170 | appends exactly the model's bytes |
| SerializedInstances.SerializedInstance.AddSerializedInstance | src/SerializedInstance.cpp:197-201 | appends exactly the model's bytes |
| SerializedInstances.SerializedInstance.InitExtract | src/SerializedInstance.cpp:223-231 | the first extraction skips the type name |
| SerializedInstances.SerializedInstance.GetString | src/SerializedInstance.cpp:107-123 | reads what the model reads and moves on to what it leaves |
| SerializedInstances.SerializedInstance.GetUnsigned | src/SerializedInstance.cpp:131-136 | reads what the model reads and moves on to what it leaves |
| SerializedInstances.SerializedInstance.GetInt | src/SerializedInstance.cpp:145-150 | reads what the model reads and moves on to what it leaves |
| SerializedInstances.SerializedInstance.GetInt64 | src/SerializedInstance.cpp:153-158 | reads what the model reads and moves on to what it leaves |
| SerializedInstances.SerializedInstance.GetDouble | src/SerializedInstance.cpp:173-178 | reads what the model reads and moves on to what it leaves |
| SerializedInstances.SerializedInstance.GetVectorChar | src/SerializedInstance.cpp:85-98 | reads what the model reads and moves on to what it leaves |
| SerializedInstances.SerializedInstance.GetBytes | src/SerializedInstance.cpp:71-77 | reads what the model reads, with assertions or without |
| SerializedInstances.SerializedInstance.GetSerializedInstance | src/SerializedInstance.cpp:203-208 | reads what the model reads and moves on to what it leaves |
| SerializedInstances.SerializeEvent | src/NegativeEvent.cpp:11-20 | produces the model's bytes |
| SerializedInstances.SerializeNegative | src/NegativeEventMessage.cpp:15-23 | the loop produces the model's bytes |
| SerializedInstances.SerializeGVT | src/MatternGVTMessage.cpp:13-19 | produces the model's bytes |
| SerializedInstances.DeserializeEvent | src/NegativeEvent.cpp:22-45 | returns what the model reads, nothing for another type |
| SerializedInstances.DeserializeNegative | src/NegativeEventMessage.cpp:25-44 | the loop returns what the model reads |
| SerializedInstances.DeserializeGVT | src/MatternGVTMessage.cpp:21-41 | returns what the model reads |
| LockFreeList.UnlinkKeepsLive | src/LockFreeList.h:93-96 | unlinking an erased node changes nothing that is live |
| LockFreeList.EraseLive | src/LockFreeList.h:126-128 | marking a live node takes exactly its key out |
| LockFreeList.SweptIs | src/LockFreeList.h:87-107 | after a search the list up to where it ended holds exactly the live nodes that were there, in order |
| LockFreeList.LiveDistinct | src/LockFreeList.h:87-107 | no key is live twice |
| LockFreeList.List.HelpInsert | src/LockFreeList.h:87-107 | true exactly when the key is not live; every erased node up to there is unlinked, nothing else changes |
| LockFreeList.List.HelpRemove | src/LockFreeList.h:109-132 | true exactly when the key was live, and then exactly that node is marked; every erased node up to there is unlinked |
| LockFreeList.List.Insert | src/LockFreeList.h:19-30 | true exactly when the key is not NULL and was absent; it is then the first key; listSize is the number of keys; the chain has no cycle |
| LockFreeList.List.Erase | src/LockFreeList.h:32-40 | true exactly when the key was present; exactly that key is gone; listSize is the number of keys |
| LockFreeList.List.Begin | src/LockFreeList.h:50-58 | the first key, NULL if there is none |
| LockFreeList.List.PopFront | src/LockFreeList.h:42-48 | terminates and removes the first key whenever there is one, NULL otherwise |

## Assumptions

- GVT: a send has clock <= send time <= receive time, a receive lowers the clock at most to the receive time, and
  otherwise clocks grow. At least two managers. Messages a manager sends to itself may be counted like others; the source
  does not hand them to the GVT manager.
- Cancellation: equality of events up to their id is an equivalence that fixes sender, receiver and times.
- Ladder queue: an event is inserted once; fewer than 0xFFFF events in Top, and at most half as many in Bottom when an
  insert moves Bottom into a new rung, because the marker for "no bucket" is an ordinary bucket number; times are
  non-negative 32-bit integers.
- Time Warp object: event ids are unique per sender, nothing arrives with a time below GVT (the kernel aborts on it),
  and one call of executeProcess takes one event.
- Recovery: one episode, the same period at every manager, each manager has an object, rollback time at least the first
  checkpoint time.
- Serializer: little-endian 32-bit int; strings, blobs and nested objects shorter than 2^32 bytes.

## Left out

- Threaded managers: locks around code that is not part of this model; the threaded GVT manager clears the count
  before its token is sent.
- GVT with lazy-queue times: getEarliestEventTime is not called by the code modelled.
- GVT counts as 32-bit integers: counts are unbounded in the protocol model; only the wire format is 32-bit.
- ofcReset, ofcPurge and the integer-time fossilCollect variants: they break the history invariants on purpose.
- Checkpoint file contents and the states saved in a checkpoint: only the times are modelled.
- Several recovery episodes at once: the second initiator's rollback time is dropped by the master.
- LadderQRelaxed and LadderQ_arr; clear, empty and end of the strict queue; the reports for a NULL event.
- SplayTree::clear and the stack of processed nodes; branches for a tree with a root but no `current`, which cannot occur.
- The order in which a dynamic manager's shared comparison vector fills up is modelled; its floating-point ratio is a real.
- Linearizability of the lock-free list: its contracts are for one thread, where every compare-and-swap succeeds.
- I/O, configuration, partitioning, scheduling, termination detection, memory reclamation by applications.
- OutputManagers.DynamicOutputManager.Rollback: the library sort is modelled as any sorted permutation, by receive time only.
- RecoveryManager.OptFossilCollManager.StartRecovery: rollback time zero is excluded, because there the source's loop does
  not stop at a valid checkpoint (StopsAtCheckpointIff, ZeroStopsIff); the growth of the active history length is not modelled.
- TimeWarpSequential.SequentialEquivalence: runs in which a rollback restores a state saved for a time at which an event
  had already been executed are excluded, because there state and executed events get out of step (InStepIff,
  UncleanRunGoesWrong).
- TimeWarpSequential.ArrivalOrderIrrelevant: the same runs are excluded for the same reason.
- GvtProtocol.GvtSafety: holds for disciplined executions only. Without the condition at the closing test it is false
  (LateWhiteDefeatsTest); the condition is the weakest local one (RootAgreesIsWeakest), not one equivalent to safety.
  Without either condition on the start of a cycle it is false too (RedMessageDefeats, LateUpdateDefeats).
- GvtProtocol.GvtMonotone: holds for disciplined executions only, as GvtSafety.
- LadderRuns.DequeueLeast: holds for runs whose inserts meet the exact condition of InsertOrderedIff; otherwise order can be
  lost (DequeueOutOfOrder).
- LadderInsert.InsertKeepsRep: more than 0x7FFF events in Bottom are excluded for an insert that moves Bottom into a new
  rung, because that rung could then use the bucket number that means "none".
- LadderQueue.LadderQueueStrict.Insert: the same events are excluded for the same reason.
- LadderQueue.LadderQueueStrict.Begin: 0xFFFF or more events in Top are excluded for the same reason.
- LadderQueue.LadderQueueStrict.Dequeue: the same events are excluded.
- RecoveryManager.OptFossilCollManager.ReceiveKernelMessage: the checkpoint to restore must exist; RestoreIsPossible shows
  that it does in every execution.
- WireMessages.NegativeRoundTrip: the signed loop counter of the source is not modelled, so lists of 2^31 events or more
  are outside what it says about the code.
- SerializedInstances.DeserializeNegative: the signed loop counter is not modelled here either.
- OutputManagers.OutputEvents.GetEventsSentAtOrAfterAndRemove: the early exit into recovery when a local receiver has
  already collected the event, under optimistic fossil collection, is not modelled.
- RecoveryManager.OptFossilCollManager.RestoreCheckpoint: only the times are modelled; states, files, events and the reset
  of GVT are not.
