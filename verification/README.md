# Verified models of the firmware kernel, the wire codec and the trace link

A Dafny project beside the sources of the motor-control firmware, its host tools and its
desktop application. It models four parts of the repository and proves what they are relied
on for. `dafny verify dfyconfig.toml` checks everything.

**A. The FreeRTOS V10.3.1 kernel** (`list.c`, `tasks.c`, `queue.c`, `timers.c`).

- `RingLinks`, `SortedInsertion`, `IntrusiveList`: the circular doubly linked list on the
  heap, pointer by pointer, represents one sequence; insertion keeps it sorted and
  first-in-first-out among equals; the index serves items round robin. `ListRefinement`
  ties a heap of such lists to the lists of the kernel model: each operation on the heap
  computes the one of the same name there, and leaves the other lists alone.
- `TaskLists`, `KernelState`, `Delays`, `MutexState`, `KernelRuns`, `Kernel`: the scheduler
  as a class whose fields are the globals of `tasks.c`, and its runs. A second, ghost clock
  counts ticks without wrapping. Exact wake is `WakesOnTime`, which `Run` and `DelayThenRun`
  apply: over any sequence of seventeen kinds of kernel events and any number of wraps, a
  sleeper that no event names is ready exactly once its due time has been processed.
  `ProcessTick` and `RunTicks` show that the two delayed lists and the cached unblock time
  refine a scan of every sleeper. The partition of tasks into lists, the sum of lengths and
  the count of ticks are `Valid`, `LengthsSum` and `TicksCounted`; mutex accounting is
  `MutexesOk`; `Run` keeps all of it; `TakeTurns` is the equal share of equal priorities.
- `QueueWakeups`: blocking on a queue as a state machine whose steps are the atomic sections
  of the source, with interrupts and timeouts between any two of them. No wakeup is lost. The
  methods compute the machine that `After` describes, section by section.
- `QueueStorage`: the byte ring of a queue refines a bounded deque.
- `TimerState`, `TimerDaemon`: the timer daemon on its two lists and its command queue.
  `Run` is the daemon in service under a moving clock: whatever commands arrive for other
  timers, an auto-reload timer is called back for start + P, start + 2P, ..., each once and
  in order, however late the daemon runs within a wrap.

**B. Message buffers** (`stream_buffer.c`): `StreamBuffer` interleaves the writer's and the
reader's memory copies and index updates in any way; the messages sent are the accepted ones
of the schedule, and the messages received are the first ones of those sent. A reader that
takes its turns receives them all.

**C. The nanopb codec** (`pb_encode.c`, `pb_decode.c`, `pb_common.c`): `Varint`,
`ProtoSchema`, `ProtoDecode`, `ProtoRoundTrip`, `ProtoStream`, `ProtoDecoder`, `ProtoEncoder`,
`ProtoIterator`, `ProtoRequired`, `FieldInfo`, `ProtoCodec`, `ProtoUnknown`, `ProtoAccepted`.
Schemas are trees of fields.
`MessageBytes` says which bytes stand for a message (the sections "Base 128 Varints", "Signed
Integers", "Message Structure" and "Packed Repeated Fields" of the Protocol Buffers encoding
specification); the stream methods of encoder and decoder are proved against it and against
`DecodeMessage`, and the two functions against each other (`RoundTrip`). `ProtoUnknown` is what
different schemas have in common: the key of a value fixes its extent, unknown fields are
passed over, and receivers with older and newer schemas understand a message
(`OlderReceiver`, `NewerReceiver`). `ProtoAccepted` is what any bytes can make of a message:
one within all its types and sizes, which is sent on unchanged (`AcceptedFits`, `SentOn`).

**D. The link and trace path** (`pcs_client.py`, `trace.rs`, `emitter.rs`): `Crc` and
`CrcDivision` (the checksum is the remainder of a division by the generator of section 3.2.9
of IEEE 802.3, and no burst of up to four bytes escapes it), `Framing` (any payloads, any cuts
of the stream), `Trace` (where each point of a message comes from; conservation of gaps and
points), `Emitter` (the ledger of shed points and dropped lines under concurrent senders, and
that nothing is shed while there is room).

`Options`, `Bytes` and `Arithmetic` are shared helpers.

How state is modelled: a method stands for a function, a critical section or an atomic step
of the source; fields that only a proof needs are ghost. Predicates named `Valid` are the
invariants; every public method requires and ensures them, so they hold in every reachable
state. Clock readings, schedules, and the decisions of callers are parameters. Integers are
unbounded except where the source relies on their width: tick words (of any width), the
`int8_t` lock counts, 32- and 64-bit varints, casts to field sizes, 32-bit CRC states, cycle
indices and the saturating tally are modelled with it.

What the proofs brought to light:

- A task that asks to wait zero ticks in the last tick before the word wraps is still in the
  delayed list when the lists switch, which breaks the assertion there. `LeavesBeforeSwitch`
  says exactly when. No caller in the modelled files does so.
- `xTaskCheckForTimeOut` may miss a timeout when it is called at least one whole wrap late.
  `CheckForTimeOutIsExact` gives the exact condition and `LateCheckMisses` an example.
- `xQueueOverwrite` on a full queue whose items have no bytes counts the token twice
  (`Storage.Overwrite`, `OverwriteOfTokens`): the branch that corrects the count is only taken
  for items with bytes. No wakeup is lost by it (`QueueWakeups`).
- `vTaskDelayUntil` takes a task that is late by whole wraps for one that is late by the
  rest. `DelayUntil` says for every lateness whether it blocks and until when.
- The wakeups counted while a queue is locked are remembered exactly up to 127 of them
  (`PostsRemembered`).
- A comment in `timers.c` says that an auto-reload timer cannot be restarted before the lists
  are switched; the code restarts it there when it is due again in the same epoch. The
  model follows the code.

## Model

| member | source | states |
|---|---|---|
| SortedInsertion.InsertPosition | sw/lib/c/FreeRTOS/list.c:105-153 | the place where the scan of vListInsert stops: no value before it is larger, and the value at it, when there is one, is |
| SortedInsertion.InsertKeepsSorted | sw/lib/c/FreeRTOS/list.c:103-167 | a sorted list stays sorted, and every value behind the new one is strictly larger, so equal values keep first-in-first-out order |
| RingLinks.ChainAfterInsertion | sw/lib/c/FreeRTOS/list.c:74-100 | leading the pointers of two neighbours through an item turns the ring of a sequence into the ring of the sequence with that item inserted there |
| RingLinks.ChainAfterRemoval | sw/lib/c/FreeRTOS/list.c:170-196 | leading the neighbours' pointers past an item turns the ring into that of the sequence without it, the rest in order |
| RingLinks.ServedInRotation | sw/lib/c/FreeRTOS/include/list.h:277-289 | from any index position, as many servings go through each item of the list exactly once, in ring order |
| RingLinks.InsertedServedLast | sw/lib/c/FreeRTOS/list.c:78-100 | an item inserted in front of the index is served after every other item, except the one served last |
| RingLinks.RemovalKeepsRotation | sw/lib/c/FreeRTOS/list.c:176-190 | removing an item, and moving an index that pointed to it, leaves the order of service of all others as it was |
| IntrusiveList.List.constructor | sw/lib/c/FreeRTOS/list.c:37-59 | a fresh list on the heap: marker alone in its ring, no items |
| IntrusiveList.List.Initialise | sw/lib/c/FreeRTOS/list.c:37-59 | whatever the pointers were, afterwards the heap holds the ring of the empty sequence |
| IntrusiveList.ListItem.Initialise | sw/lib/c/FreeRTOS/list.c:62-71 | the item is in no list |
| IntrusiveList.List.InsertEnd | sw/lib/c/FreeRTOS/list.c:74-100 | the pointers, containers and count on the heap represent the old sequence with the item directly in front of the index |
| IntrusiveList.List.Insert | sw/lib/c/FreeRTOS/list.c:103-167 | the heap represents the old sequence with the item at its sorted place, behind equal values; the scan terminates for every value, portMAX_DELAY included |
| IntrusiveList.Remove | sw/lib/c/FreeRTOS/list.c:170-196 | the heap represents the old sequence without the item; a new count is returned, the container is cleared, an index at the item moves to the item before it |
| IntrusiveList.List.NextEntry | sw/lib/c/FreeRTOS/include/list.h:277-289 | the index moves to the next item and never stays on the marker |
| TaskLists.PlaceFor | sw/lib/c/FreeRTOS/list.c:129-153 | scanning the tasks of a list by item value finds the place of InsertPosition |
| TaskLists.Lists.RemoveLinked | sw/lib/c/FreeRTOS/list.c:170-196 | removal by the container an item records keeps every item in exactly the list it records, and changes no other list |
| TaskLists.Lists.InsertLinked | sw/lib/c/FreeRTOS/list.c:74-167 | insertion keeps every item in exactly the list it records, and changes no other list |
| TaskLists.Lists.MoveLinked | sw/lib/c/FreeRTOS/list.c:74-196 | moving an item takes it from where it is and only from there; all lengths follow |
| TaskLists.Lists.InsertMoveLinked | sw/lib/c/FreeRTOS/list.c:103-196 | moving an item under a new value to its sorted place keeps the target list sorted by the new values |
| TaskLists.Lists.LengthsAddUp | sw/lib/c/FreeRTOS/tasks.c:336-370 | the lengths of any family of lists add up to the number of tasks whose items they hold |
| TaskLists.Lists.ServedPlace | sw/lib/c/FreeRTOS/include/list.h:277-289 | after m servings in a row the index is where m steps around the ring lead |
| TaskLists.OneTurn | sw/lib/c/FreeRTOS/include/list.h:277-289 | the m-th serving in a row reaches the m-th item of the rotation |
| ListRefinement.InsertShown | sw/lib/c/FreeRTOS/list.c:74-167 | inserting an item at a place of the ring is inserting its owner at that place of the model's list, its index included |
| ListRefinement.RemoveShown | sw/lib/c/FreeRTOS/list.c:170-196 | removing an item, with the index moved off it, is Lists.Remove of its owner |
| ListRefinement.ServedShown | sw/lib/c/FreeRTOS/include/list.h:277-289 | the item the index moves to is that of the owner Lists.Served serves next |
| ListRefinement.InsertEnd | sw/lib/c/FreeRTOS/list.c:74-100 | vListInsertEnd on the heap takes a list that shows one of Lists to one that shows it after Lists.InsertEnd |
| ListRefinement.Insert | sw/lib/c/FreeRTOS/list.c:103-167 | the same for vListInsert and Lists.Insert, when the item values are the keys |
| ListRefinement.Remove | sw/lib/c/FreeRTOS/list.c:170-196 | the same for uxListRemove and Lists.Remove |
| ListRefinement.NextEntry | sw/lib/c/FreeRTOS/include/list.h:277-289 | the same for listGET_OWNER_OF_NEXT_ENTRY and Lists.Served; the owner returned is the one served |
| ListRefinement.InsertEndInto | sw/lib/c/FreeRTOS/list.c:74-100 | on a heap of lists with no item in two of them, vListInsertEnd takes a family of lists to the one after Lists.InsertEnd: the other lists show what they showed |
| ListRefinement.InsertInto | sw/lib/c/FreeRTOS/list.c:103-167 | the same for vListInsert on one list of a family |
| ListRefinement.RemoveFrom | sw/lib/c/FreeRTOS/list.c:170-196 | the same for uxListRemove, from the list the item records |
| ListRefinement.NextEntryOf | sw/lib/c/FreeRTOS/include/list.h:277-289 | the same for listGET_OWNER_OF_NEXT_ENTRY |
| Kernel.Scheduler.constructor | sw/lib/c/FreeRTOS/tasks.c:1974-2096 | with the idle task alone, every invariant of the kernel and of its mutexes holds |
| Kernel.Scheduler.TicksCounted | sw/lib/c/FreeRTOS/tasks.c:2707-2876 | xTickCount + xPendedTicks is the number of tick interrupts so far, modulo the word, and xTickCount that of the ticks processed |
| Kernel.Scheduler.LengthsSum | sw/lib/c/FreeRTOS/tasks.c:336-370 | the lengths of all ready, delayed, suspended and termination lists add up to uxCurrentNumberOfTasks |
| Kernel.Scheduler.AddTaskToReadyList | sw/lib/c/FreeRTOS/tasks.c:218-222 | the ready list of the task's priority gets it, in front of the index, and the recorded top priority covers it |
| Kernel.Scheduler.ResetNextTaskUnblockTime | sw/lib/c/FreeRTOS/tasks.c:3943-3964 | no task of the current delayed list wakes before the cached time |
| Kernel.Scheduler.SwitchDelayedLists | sw/lib/c/FreeRTOS/tasks.c:198-210 | the assertion that the delayed list is empty cannot fail; what the wake values of both lists mean is right for the new epoch |
| Kernel.Scheduler.MakeReady | sw/lib/c/FreeRTOS/tasks.c:2778-2794 | a blocked task leaves the list of its state item and any event list; nobody else moves and every invariant stays |
| Kernel.Scheduler.UnblockExpired | sw/lib/c/FreeRTOS/tasks.c:2740-2816 | exactly the sleepers due by now become ready and leave their event lists; the switch request says whether one of them reaches the running priority |
| Kernel.Scheduler.AdvanceTick | sw/lib/c/FreeRTOS/tasks.c:2719-2734 | the word moves by one and wraps together with its lists, time and word agree |
| Kernel.Scheduler.ProcessTick | sw/lib/c/FreeRTOS/tasks.c:2719-2860 | one tick readies exactly the sleepers due at the new time: the two lists and the cached unblock time refine a scan of every sleeper |
| Kernel.Scheduler.IncrementTick | sw/lib/c/FreeRTOS/tasks.c:2707-2876 | the tick is processed exactly, or only counted while the scheduler is suspended; the switch request is exact |
| Kernel.Scheduler.TickInterrupt | sw/lib/c/FreeRTOS/tasks.c:2707-2876 | every interrupt is accounted for: processed, pended, or part of a whole wrap of the pended word; it asks for a switch if and only if the scheduler runs and somebody of the running priority or more woke, the running task has peers, or a yield is pending |
| Kernel.Scheduler.MovePending | sw/lib/c/FreeRTOS/tasks.c:2214-2239 | every task held pending moves to its ready list, and a yield is pending afterwards if and only if it was before or one of them has at least the running priority |
| Kernel.Scheduler.DrainPending | sw/lib/c/FreeRTOS/tasks.c:2214-2247 | all and only the tasks that interrupts held pending become ready; a yield is pending afterwards if and only if it was before or one of them has at least the running priority |
| Kernel.Scheduler.ReplayTick | sw/lib/c/FreeRTOS/tasks.c:2257-2268 | a replayed tick that wants a switch makes a yield pending, and no other does |
| KernelState.HeldAtLeast | sw/lib/c/FreeRTOS/tasks.c:2227-2234 | somebody of a priority wakes while pending tasks are moved if and only if a task of that priority was held pending |
| Kernel.Scheduler.ReplayTicks | sw/lib/c/FreeRTOS/tasks.c:2250-2275 | the pended ticks happen one by one; their joint effect is that exactly the sleepers due by the caught-up time are ready; a yield is pending afterwards if and only if it was before, or a tick was replayed and somebody of the running priority or more woke or the running task has peers |
| Kernel.Scheduler.SuspendAll | sw/lib/c/FreeRTOS/tasks.c:2110-2128 | suspension nests and changes nothing else |
| Kernel.Scheduler.ResumeAll | sw/lib/c/FreeRTOS/tasks.c:2194-2301 | the last resumption readies exactly the tasks held pending and those whose time came meanwhile; it returns true if and only if a yield was pending, somebody of the running priority or more became ready, or ticks were replayed while the running task has peers; any other resumption returns false |
| Kernel.Scheduler.BlockFor | sw/lib/c/FreeRTOS/tasks.c:5215-5247 | a task that blocks for w > 0 ticks is due exactly w ticks from now and its wake value is in the list that says so |
| Kernel.Scheduler.BlockIndefinitely | sw/lib/c/FreeRTOS/tasks.c:5204-5214 | a wait without end moves only the state item, to the suspended list |
| Kernel.Scheduler.AddCurrentTaskToDelayedList | sw/lib/c/FreeRTOS/tasks.c:5177-5286 | the list chosen and the due time for every wait, under every invariant |
| KernelState.LeavesBeforeSwitch | sw/lib/c/FreeRTOS/tasks.c:5215-5247 | a sleeper put into the current list expires before the lists switch if and only if it waits at least one tick or the word is not at its last value |
| KernelState.WokenInSteps | sw/lib/c/FreeRTOS/tasks.c:2707-2876 | waking up to one time and then to a later one is waking up to the later one |
| KernelState.QuietResume | sw/lib/c/FreeRTOS/tasks.c:2194-2301 | resuming the scheduler moves nobody when nothing is pending and nobody is due |
| KernelState.NobodyDue | sw/lib/c/FreeRTOS/tasks.c:2736-2740 | while the cached time has not come, skipping the scan changes nothing |
| KernelState.NoneExpired | sw/lib/c/FreeRTOS/tasks.c:2744-2776 | when the head of the sorted list is not due, nobody in it is |
| KernelState.LowerTop | sw/lib/c/FreeRTOS/tasks.c:135-139 | the search for the highest ready priority may pass an empty list |
| KernelState.ServedOk | sw/lib/c/FreeRTOS/tasks.c:143-146 | the task served next from the highest non-empty list has the highest priority of all ready tasks |
| Kernel.Scheduler.RunTicks | sw/lib/c/FreeRTOS/tasks.c:2707-2876 | any number of ticks, over any number of wraps: exactly the sleepers due by then are ready, all other state items are where they were |
| Kernel.Scheduler.BlockSuspended | sw/lib/c/FreeRTOS/tasks.c:1350-1368 | blocking inside the suspended scheduler makes the task due w ticks from now, loses no tick and readies nobody |
| Kernel.Scheduler.Delay | sw/lib/c/FreeRTOS/tasks.c:1341-1379 | the running task is due that many ticks from now; zero ticks block nobody |
| Kernel.Scheduler.DelayUntil | sw/lib/c/FreeRTOS/tasks.c:1257-1334 | a task that last woke at any earlier time is due exactly one increment after that time, or does not block when that has passed; one that is whole wraps late is taken for late by the rest |
| Kernel.Scheduler.DelayThenTicks | sw/lib/c/FreeRTOS/tasks.c:1341-1379 | the case of bare ticks behind a delay: a task that delays for w ticks is ready after n ticks if and only if n >= w |
| Kernel.Scheduler.DelayThenRun | sw/lib/c/FreeRTOS/tasks.c:1341-1379 | exact wake in any run: a task that delays for w ticks is ready exactly from the w-th processed tick on, at every moment of any run of events none of which suspends or deletes it, before it runs again; the run begins with the scheduler running and no tick pended |
| KernelRuns.WakesOnTime | sw/lib/c/FreeRTOS/tasks.c:2707-2876 | exact wake at any point of a run: whoever sleeps at one moment and is spared from then on is ready at a later one if and only if its due time has been processed, and until then sleeps in the same list |
| KernelRuns.DelayIsExact | sw/lib/c/FreeRTOS/tasks.c:1341-1379 | the same for a task that begins to delay at any event of a run: it is ready exactly from the w-th tick processed after that on, whatever else happens |
| KernelRuns.TimeCountsTicks | sw/lib/c/FreeRTOS/tasks.c:2707-2860 | while nobody suspends the scheduler, the time of a run is the number of its ticks |
| KernelRuns.TicksAreKept | sw/lib/c/FreeRTOS/tasks.c:2110-2301 | however deep a run suspends the scheduler, time plus pended ticks counts its ticks, modulo the word |
| Delays.DelayUntilIsDriftFree | sw/lib/c/FreeRTOS/tasks.c:1268-1309 | the decision on three tick words is that on the word of the lateness, right for every lateness below one wrap, and the wait that follows is what is left of the increment |
| Delays.CheckForTimeOutIsExact | sw/lib/c/FreeRTOS/tasks.c:3274-3334 | xTaskCheckForTimeOut reports a timeout exactly when the wait is over, except in one family of checks that come a wrap late, which is named |
| Delays.LateCheckMisses | sw/lib/c/FreeRTOS/tasks.c:3305-3331 | a concrete late check that takes a wait that is over for one that is not |
| Kernel.Scheduler.OverflowsCounted | sw/lib/c/FreeRTOS/tasks.c:3254-3263 | xNumOfOverflows and xTickCount are the wraps, as a 32-bit word, and the word of the real time in every reachable state |
| Kernel.Scheduler.SetTimeOutState | sw/lib/c/FreeRTOS/tasks.c:3254-3263 | the timeout state holds the real time of entering, as two words |
| Kernel.Scheduler.CheckTimeOut | sw/lib/c/FreeRTOS/tasks.c:3274-3334 | on the scheduler's own words the check times out exactly when the wait since entering is over, but for the named family of late checks; a wait of portMAX_DELAY never times out |
| Delays.WordOfDistance | sw/lib/c/FreeRTOS/tasks.c:3288-3318 | unsigned subtraction of the words of two times is the word of their distance |
| Kernel.Scheduler.PlaceOnEventList | sw/lib/c/FreeRTOS/tasks.c:3064-3078 | the running task joins the event list behind the first waiters of at least its priority, in front of the first one of a lower priority, and blocks; no other event list changes |
| KernelState.EventQueued | sw/lib/c/FreeRTOS/tasks.c:3064-3078 | sorted insertion by item values is insertion by priority, behind equals |
| Kernel.Scheduler.RemoveFromEventList | sw/lib/c/FreeRTOS/tasks.c:3138-3203 | the first waiter is readied, or held pending while the scheduler is suspended, and the others keep their order; a yield becomes pending if and only if its priority is higher than the running one, which is what is returned |
| Kernel.Scheduler.WakeFirst | sw/lib/c/FreeRTOS/tasks.c:3138-3180 | the first waiter alone leaves its list, for its ready list or for the pending one |
| Kernel.Scheduler.Suspend | sw/lib/c/FreeRTOS/tasks.c:1704-1798 | the task leaves whatever state and event list it is in for the suspended list |
| Kernel.Scheduler.Resume | sw/lib/c/FreeRTOS/tasks.c:1851-1897 | only a task that is suspended and not waiting, other than the running one, becomes ready |
| Kernel.Scheduler.ResumeFromISR | sw/lib/c/FreeRTOS/tasks.c:1905-1970 | the same from an interrupt, deferred to the pending list while the scheduler is suspended |
| Kernel.Scheduler.AddNewTaskToReadyList | sw/lib/c/FreeRTOS/tasks.c:1077-1157 | a new task is counted and is in the ready list of its priority, nobody else moves |
| Kernel.Scheduler.DeleteOther | sw/lib/c/FreeRTOS/tasks.c:1162-1234 | a deleted task takes its items, its TCB and its place in the count with it |
| Kernel.Scheduler.DeleteSelf | sw/lib/c/FreeRTOS/tasks.c:1191-1210 | a task that deletes itself waits in the termination list to be freed |
| Kernel.Scheduler.CheckTasksWaitingTermination | sw/lib/c/FreeRTOS/tasks.c:3639-3665 | the idle task frees exactly the tasks of the termination list |
| Kernel.Scheduler.HighestReadyPriority | sw/lib/c/FreeRTOS/tasks.c:130-139 | the search ends, at a priority that has a ready task and that no ready task exceeds |
| Kernel.Scheduler.SelectHighestPriorityTask | sw/lib/c/FreeRTOS/tasks.c:130-147 | the task selected is the next one to be served at the highest ready priority |
| Kernel.Scheduler.SwitchContext | sw/lib/c/FreeRTOS/tasks.c:2989-3061 | the task selected is ready, has the highest priority of all ready tasks, and is the next of its list; under suspension only a yield is noted |
| Kernel.Scheduler.TakeTurns | sw/lib/c/FreeRTOS/tasks.c:143-146 | tasks of the same priority get an equal share: as many switches as there are ready tasks of the highest priority run them in the order of their list from the index on, each exactly once, and leave the index behind the last |
| Kernel.Scheduler.Happen | sw/lib/c/FreeRTOS/tasks.c:121-3665 | each of seventeen kernel events keeps all invariants; time, depth of suspension and pended ticks after it follow from those before; when it can happen, the tasks and mutexes it concerns go where the kernel puts them, else they stay; every other task sleeps on until its due time is reached, and is ready then |
| Kernel.Scheduler.Run | sw/lib/c/FreeRTOS/tasks.c:121-3665 | over any run of ticks, suspensions, delays, event waits, creations, deletions, switches and mutex operations, every invariant of lists and mutexes holds and every tick is counted; the moments are those of a run of the events; whoever sleeps at any of them, and is named by no event from then on, is ready at each later one if and only if its due time has been processed |
| MutexState.TakenOk | sw/lib/c/FreeRTOS/tasks.c:4618-4628 | taking a free mutex keeps: free if and only if no holder, the count of a task is the number of mutexes it holds, priority at least base, equal to base when none is held |
| MutexState.GivenOk | sw/lib/c/FreeRTOS/tasks.c:4104-4177 | giving a mutex back keeps the same |
| MutexState.HolderRepriorityOk | sw/lib/c/FreeRTOS/tasks.c:4014-4097 | a holder may be given any priority from its base up |
| MutexState.NewTaskOk | sw/lib/c/FreeRTOS/tasks.c:1077-1157 | a new task holds nothing |
| MutexState.GoneTaskOk | sw/lib/c/FreeRTOS/tasks.c:1162-1234 | a task that holds nothing may go |
| Kernel.Scheduler.ChangePriority | sw/lib/c/FreeRTOS/tasks.c:4029-4065 | a changed priority moves a ready task to the ready list of that priority, rewrites its event item value, and moves nobody else |
| Kernel.Scheduler.PriorityInherit | sw/lib/c/FreeRTOS/tasks.c:4014-4097 | the holder has at least the running task's priority afterwards; the result is exact, also for a holder that had inherited before |
| Kernel.Scheduler.PriorityDisinherit | sw/lib/c/FreeRTOS/tasks.c:4104-4177 | the held count falls by one, and the last mutex given back takes an inherited priority with it |
| Kernel.Scheduler.TakeMutex | sw/lib/c/FreeRTOS/queue.c:1448-1498 | the mutex is taken if and only if it has no holder; the new holder counts it |
| Kernel.Scheduler.BlockOnMutex | sw/lib/c/FreeRTOS/queue.c:1548-1571 | a task that blocks on a held mutex lends its priority, and nothing else of any TCB changes; it joins the waiters by priority and is due after the given ticks, and only the holder's state item may move besides its own |
| Kernel.Scheduler.DisinheritAfterTimeout | sw/lib/c/FreeRTOS/queue.c:1598-1620 | the holder falls to the larger of its base and the first remaining waiter's priority if it holds this mutex only, else keeps what it has |
| Kernel.Scheduler.GiveMutex | sw/lib/c/FreeRTOS/queue.c:2083-2098 | the mutex is free afterwards, the former holder disinherits, and the first waiter is readied or held pending |
| QueueWakeups.PostsRemembered | sw/lib/c/FreeRTOS/queue.c:1087-1097 | the wakeups owed after a lock window are its posts if and only if there were at most 127: the lock counts are int8_t |
| QueueWakeups.Queue.constructor | sw/lib/c/FreeRTOS/queue.c:422-461 | a new queue loses no wakeup |
| QueueWakeups.Queue.WakeReceiver | sw/lib/c/FreeRTOS/queue.c:835-848 | the first receiver leaves its list and counts as woken until it looks again |
| QueueWakeups.Queue.WakeSender | sw/lib/c/FreeRTOS/queue.c:1316-1330 | the same for the first sender |
| QueueWakeups.Queue.CheckReceive | sw/lib/c/FreeRTOS/queue.c:1303-1362 | the message count, the decision and the wakeup of a sender, keeping the invariant that no wakeup is lost |
| QueueWakeups.Queue.CheckPeek | sw/lib/c/FreeRTOS/queue.c:1663-1729 | a peek leaves the message and passes its wakeup on to the next receiver |
| QueueWakeups.Queue.CheckSend | sw/lib/c/FreeRTOS/queue.c:761-897 | the count, the decision and the wakeup of a receiver, keeping the invariant |
| QueueWakeups.Queue.CheckOverwrite | sw/lib/c/FreeRTOS/queue.c:761-868 | an overwrite of a queue of length one succeeds, and never sleeps; it leaves one message, or counts one more when items have no bytes |
| QueueWakeups.Queue.SendFromISR | sw/lib/c/FreeRTOS/queue.c:950-1109 | an interrupt posts at any time, with the count the source gives items of any size; while the queue is locked the lock count remembers it |
| QueueWakeups.Queue.Announce | sw/lib/c/FreeRTOS/queue.c:1079-1097 | a post from an interrupt wakes the first receiver, or is counted by the lock: one more wakeup is made or owed |
| QueueWakeups.Queue.ReceiveFromISR | sw/lib/c/FreeRTOS/queue.c:1785-1873 | the same for a receive from an interrupt |
| QueueWakeups.Queue.LockQueue | sw/lib/c/FreeRTOS/queue.c:240-251 | locking starts two fresh counts |
| QueueWakeups.Queue.Decide | sw/lib/c/FreeRTOS/queue.c:902-945 | with the queue locked the caller gives up, retries, or sleeps because the queue is still unusable |
| QueueWakeups.Queue.JoinWaiters | sw/lib/c/FreeRTOS/queue.c:908-918 | a task joins the waiters only when every usable message or place is owed to somebody already |
| QueueWakeups.Queue.WakeReceivers | sw/lib/c/FreeRTOS/queue.c:2181-2255 | as many receivers as posts were counted are woken, in order, as far as there are any |
| QueueWakeups.Queue.UnlockTx | sw/lib/c/FreeRTOS/queue.c:2179-2257 | the first half of unlocking pays exactly the owed wakeups of receivers |
| QueueWakeups.Queue.UnlockRx | sw/lib/c/FreeRTOS/queue.c:2260-2287 | the second half pays those of senders |
| QueueWakeups.Queue.ResumeScheduler | sw/lib/c/FreeRTOS/queue.c:918-946 | after resumption the caller looks again or leaves |
| QueueWakeups.Queue.LookExpired | sw/lib/c/FreeRTOS/queue.c:1399-1412 | a receiver whose time is up tries once more if a message came |
| QueueWakeups.Queue.EndWait | sw/lib/c/FreeRTOS/queue.c:1370-1412 | a wait that ends by timeout takes no wakeup with it |
| QueueWakeups.Queue.ReceiverWillLook | sw/lib/c/FreeRTOS/queue.c:1277-1415 | whenever a receiver sleeps though a message is there, another task woken for it can look at once |
| QueueWakeups.Queue.SenderWillLook | sw/lib/c/FreeRTOS/queue.c:740-947 | the same for senders and free places |
| QueueWakeups.Queue.NobodySleepsInVain | sw/lib/c/FreeRTOS/queue.c:2171-2288 | when all woken tasks have looked, receivers sleep only on an empty queue and senders only on one that holds at least its length, exactly its length when items have bytes |
| QueueWakeups.Queue.Step | sw/lib/c/FreeRTOS/queue.c:740-2288 | every atomic section of every task keeps the invariant, and takes the queue, its two lists of waiters, the lock counts and the tasks' places to the state that AfterStep gives |
| QueueWakeups.WindowEnds | sw/lib/c/FreeRTOS/queue.c:892-945 | a task that suspended the scheduler for the queue resumes it after at most six of its own steps, whatever it finds |
| QueueWakeups.Queue.Run | sw/lib/c/FreeRTOS/queue.c:740-2288 | whatever tasks, interrupts and timeouts do, in any order, the queue is in the state the events lead to one by one, no wakeup is lost, and at quiescence nobody sleeps on a usable queue |
| QueueWakeups.Queue.Happen | sw/lib/c/FreeRTOS/queue.c:740-2288 | one event, in any state, leads to the state that After gives |
| QueueStorage.Storage.constructor | sw/lib/c/FreeRTOS/queue.c:422-461 | an empty ring, read position one item before the write position |
| QueueStorage.Storage.Reset | sw/lib/c/FreeRTOS/queue.c:263-268 | the ring is the empty deque again |
| QueueStorage.Storage.SendToBack | sw/lib/c/FreeRTOS/queue.c:2100-2112 | the byte ring holds the old items and then the new one, for every length and item size |
| QueueStorage.Storage.CopyInFront | sw/lib/c/FreeRTOS/queue.c:2113-2124 | the item is written at the read position, which goes back by one item around the ring |
| QueueStorage.Storage.PutInFront | sw/lib/c/FreeRTOS/queue.c:2113-2147 | the ring holds the new item in front of the old ones, or instead of the overwritten one; a token overwritten in a full queue only raises the count, to two |
| QueueStorage.Storage.SendToFront | sw/lib/c/FreeRTOS/queue.c:761-835 | a post to the front succeeds if and only if the deque is not full |
| QueueStorage.Storage.Overwrite | sw/lib/c/FreeRTOS/queue.c:2113-2147 | the deque of length one holds exactly the new item and stays within its length, if and only if its items have bytes or it was empty |
| QueueStorage.OverwriteOfTokens | sw/lib/c/FreeRTOS/queue.c:2079-2147 | any number of overwrites keep the count of a queue of length one within one if and only if its items have bytes or there is room for all: every overwritten token is counted again |
| QueueStorage.Storage.CopyFromQueue | sw/lib/c/FreeRTOS/queue.c:2153-2168 | the bytes of the first item, and the read position at it |
| QueueStorage.Storage.Receive | sw/lib/c/FreeRTOS/queue.c:1303-1314 | the first item, which leaves the deque |
| QueueStorage.Storage.Peek | sw/lib/c/FreeRTOS/queue.c:1665-1680 | the first item, and everything as before |
| QueueStorage.Storage.WriteFollowsRead | sw/lib/c/FreeRTOS/queue.c:263-268 | read position plus one item plus the waiting items is the write position, up to at most two wraps |
| StreamBuffer.LengthOfHeader | sw/lib/c/FreeRTOS/stream_buffer.c:684-691 | the four length bytes in front of a message give its length back |
| StreamBuffer.WholeMessageThere | sw/lib/c/FreeRTOS/stream_buffer.c:787-795 | more bytes than a header means that a whole message is there, although header and message are published by two index updates |
| StreamBuffer.MessageBuffer.constructor | sw/lib/c/FreeRTOS/stream_buffer.c:1209-1233 | an empty buffer one byte longer than it may fill |
| StreamBuffer.MessageBuffer.SpacesAvailable | sw/lib/c/FreeRTOS/stream_buffer.c:470-491 | the space is length - 1 less the unread bytes, at every moment and for either side |
| StreamBuffer.MessageBuffer.BytesInBuffer | sw/lib/c/FreeRTOS/stream_buffer.c:1189-1206 | the number of unread bytes |
| StreamBuffer.MessageBuffer.SpaceAndBytes | sw/lib/c/FreeRTOS/stream_buffer.c:470-491 | space and bytes add up to length - 1 at all times |
| StreamBuffer.MessageBuffer.BeginSend | sw/lib/c/FreeRTOS/stream_buffer.c:670-697 | a send starts if and only if header and message fit together |
| StreamBuffer.MessageBuffer.CopyFirst | sw/lib/c/FreeRTOS/stream_buffer.c:1094-1103 | the first memcpy changes no unread byte |
| StreamBuffer.MessageBuffer.CopyRest | sw/lib/c/FreeRTOS/stream_buffer.c:1105-1112 | the second memcpy, around the end, changes no unread byte either, and all data are in place |
| StreamBuffer.MessageBuffer.Publish | sw/lib/c/FreeRTOS/stream_buffer.c:1118-1128 | moving the head publishes the header, or completes the message as sent |
| StreamBuffer.MessageBuffer.BeginReceive | sw/lib/c/FreeRTOS/stream_buffer.c:784-794 | a receive starts if and only if there are more bytes than a header |
| StreamBuffer.MessageBuffer.FetchFirst | sw/lib/c/FreeRTOS/stream_buffer.c:1139-1154 | the first memcpy reads unread bytes in order |
| StreamBuffer.MessageBuffer.FetchRest | sw/lib/c/FreeRTOS/stream_buffer.c:1156-1163 | the two parts together are the next unread bytes |
| StreamBuffer.MessageBuffer.TakeHeader | sw/lib/c/FreeRTOS/stream_buffer.c:927-957 | the length read is that of the next message; one that is too large for the caller stays in the buffer |
| StreamBuffer.MessageBuffer.TakeMessage | sw/lib/c/FreeRTOS/stream_buffer.c:963-966 | what the reader hands on is the next message sent, whole |
| StreamBuffer.MessageBuffer.WriterStep | sw/lib/c/FreeRTOS/stream_buffer.c:506-607 | a new message is accepted if and only if the writer is between messages and there is room; every other step takes the writer on, and the seventh publishes the body and adds exactly that message to those sent |
| StreamBuffer.MessageBuffer.ReaderStep | sw/lib/c/FreeRTOS/stream_buffer.c:713-814 | every step takes the reader on, but for a look at a buffer without a message and for a message too long for the caller, which stays; the last step, and no other, hands on the next message sent |
| StreamBuffer.MessageBuffer.MessageThere | sw/lib/c/FreeRTOS/stream_buffer.c:784-794 | a message that was sent and not received can be seen by the reader |
| StreamBuffer.MessageBuffer.TakeTurn | sw/lib/c/FreeRTOS/stream_buffer.c:506-967 | a turn of the writer leaves the reader where it is; a turn of the reader with room for any message takes it one step on while a sent message is unread |
| StreamBuffer.MessageBuffer.Run | sw/lib/c/FreeRTOS/stream_buffer.c:506-967 | however the steps of writer and reader alternate, the messages sent, with the one in progress, are the accepted ones of the schedule in order, and the messages received are the first ones of those sent; every seven turns of a reader with room for any message receive one more, until all that had been sent are |
| TimerState.PlacementIsRight | sw/lib/c/FreeRTOS/timers.c:693-731 | for every period of 1 to 2^N - 1 and every look less than one wrap after the command: process now if and only if the period has elapsed, else the current list if and only if the expiry is in this epoch |
| TimerState.SwitchedOk | sw/lib/c/FreeRTOS/timers.c:935-937 | at a wrap the overflow list becomes the current one with every expiry meaning what it meant |
| TimerState.Fired | sw/lib/c/FreeRTOS/timers.c:507-545 | a callback extends a history of callbacks one period apart |
| TimerState.PeriodChanged | sw/lib/c/FreeRTOS/timers.c:832-845 | only a timer without obligations gets another period |
| TimerDaemon.Daemon.constructor | sw/lib/c/FreeRTOS/timers.c:941-989 | no timer is active |
| TimerDaemon.Daemon.FireHead | sw/lib/c/FreeRTOS/timers.c:507-520 | the first timer of the current list leaves it and its callback runs for the expiry it was due at |
| TimerDaemon.Daemon.Reload | sw/lib/c/FreeRTOS/timers.c:907-927 | a timer of the ending epoch goes back while it is due in it, else a start command carries it over |
| TimerDaemon.Daemon.ExpireHead | sw/lib/c/FreeRTOS/timers.c:893-932 | each round of the drain calls back the head of the list for its expiry and nobody else, no later than the ones that remain, and brings the end nearer |
| TimerDaemon.Daemon.ExpireAll | sw/lib/c/FreeRTOS/timers.c:882-932 | the drain terminates although it reinserts timers, and the callbacks it makes are exactly what the histories of the running timers grow by |
| TimerDaemon.Daemon.SwitchTimerLists | sw/lib/c/FreeRTOS/timers.c:882-938 | the callbacks the drain makes are in non-decreasing order of expiry; the history of each running timer grows by exactly its own among them; every timer of the ending list gets at least one; nothing of the ending epoch is owed |
| TimerDaemon.Daemon.SampleTimeNow | sw/lib/c/FreeRTOS/timers.c:670-690 | the lists are switched if and only if the clock has passed the end of the epoch |
| TimerDaemon.Daemon.InsertTimerInActiveList | sw/lib/c/FreeRTOS/timers.c:693-731 | the branches decide as PlacementFor, and the chosen list holds the timer at its sorted place |
| TimerDaemon.Daemon.Place | sw/lib/c/FreeRTOS/timers.c:693-731 | a timer placed by its next expiry is found again for it, unless it is due already, which is what is returned |
| TimerState.PlacementFromNow | sw/lib/c/FreeRTOS/timers.c:844 | counted from the present tick an expiry is never past: it is in this epoch or in the next one |
| TimerDaemon.Daemon.ProcessExpiredTimer | sw/lib/c/FreeRTOS/timers.c:507-545 | the callback history grows by exactly the expiry that was due; an auto-reload timer runs on, without drift |
| TimerDaemon.Daemon.ProcessTimerOrBlock | sw/lib/c/FreeRTOS/timers.c:584-641 | when the daemon blocks nothing is due, and it wakes no later than the next expiry |
| TimerDaemon.Daemon.NothingDue | sw/lib/c/FreeRTOS/timers.c:584-641 | when the head of the list is not due, no running timer without a queued command is |
| TimerDaemon.Daemon.FireAndRestart | sw/lib/c/FreeRTOS/timers.c:802-815 | a start command that comes after its expiry fires at once and restarts as of that expiry |
| TimerDaemon.Daemon.HandleStart | sw/lib/c/FreeRTOS/timers.c:795-824 | a start command, however late, leaves the timer with every callback due so far or with less work to do: in the list of the epoch it expires in, under its expiry, or called back and started again |
| TimerDaemon.Daemon.HandleChangePeriod | sw/lib/c/FreeRTOS/timers.c:832-845 | a changed period leaves the timer in the list of the epoch that begins or has begun, under the tick one new period from now |
| TimerDaemon.Daemon.Handle | sw/lib/c/FreeRTOS/timers.c:795-876 | each command does to its timer, and to the lists, what it is for, and brings the end of the loop nearer |
| TimerDaemon.Daemon.TakeCommand | sw/lib/c/FreeRTOS/timers.c:741-791 | the command leaves the queue and its timer its list before the clock is read; starts and periods stay, and nothing else is disturbed by a switch in between |
| TimerDaemon.Daemon.ProcessCommand | sw/lib/c/FreeRTOS/timers.c:741-876 | a stopped or deleted timer is in no list; one whose period changed expires one new period from now, in the list of that epoch; a started one is where its expiry puts it; every command keeps the start, the period and the schedule of all timers it does not name |
| TimerDaemon.Daemon.ProcessReceivedCommands | sw/lib/c/FreeRTOS/timers.c:734-879 | the command loop terminates although commands enqueue others, empties the queue, and leaves start and period of running timers alone |
| TimerDaemon.Daemon.CatchUp | sw/lib/c/FreeRTOS/timers.c:548-581 | however late the daemon is, its loop ends with an empty queue; every running timer keeps its start and its period, and has been called back for all its expiries so far and none too early |
| TimerDaemon.Daemon.CaughtUp | sw/lib/c/FreeRTOS/timers.c:507-545 | in a state with nothing due, the callbacks of a timer lie one period apart from its start up to now |
| TimerDaemon.Daemon.Send | sw/lib/c/FreeRTOS/timers.c:381-421 | a start command sent to an idle timer begins a schedule at the time it names |
| TimerState.CaughtUpIsOnSchedule | sw/lib/c/FreeRTOS/timers.c:507-545 | a timer with nothing due ran its callback for start + P, start + 2P, ... up to now, each once and in order |
| TimerState.RunIsOnSchedule | sw/lib/c/FreeRTOS/timers.c:507-938 | over any sequence of sends, looks and commands that never names it, an auto-reload timer keeps its start and period, and whenever the daemon blocks with no command waiting its callbacks are start + P, start + 2P, ... up to now |
| TimerDaemon.Daemon.Serve | sw/lib/c/FreeRTOS/timers.c:548-581 | one command arriving, or one service of the daemon less than a wrap after the last, with the words the clock gives |
| TimerDaemon.Daemon.Run | sw/lib/c/FreeRTOS/timers.c:507-938 | with a moving clock and a daemon that runs at least once a wrap, any interleaving of commands for other timers leaves an auto-reload timer on its schedule: callbacks for start + P, start + 2P, ... up to the last service, none skipped and none twice |
| Varint.EncodeSplit | sw/lib/c/nanopb/pb_encode.c:573-605 | the split-word encoder emits the shortest base-128 form of any 64-bit value, in at most 10 bytes |
| Varint.EncodeHigh | sw/lib/c/nanopb/pb_encode.c:588-602 | the second loop emits the shortest form of what is left of the upper half |
| Varint.Base128Of64Bits | sw/lib/c/nanopb/pb_encode.c:607-623 | ten bytes are enough for 64 bits |
| Varint.ShortestForm | sw/lib/c/nanopb/pb_decode.c:243-263 | no byte string that decodes to a value is shorter than the encoder's |
| Varint.RoundTrip64 | sw/lib/c/nanopb/pb_decode.c:243-263 | the 64-bit decoder inverts the shortest form, whatever follows it |
| Varint.RoundTrip32 | sw/lib/c/nanopb/pb_decode.c:171-240 | the 32-bit decoder inverts the shortest form of a 32-bit value |
| Varint.Read64Bound | sw/lib/c/nanopb/pb_decode.c:243-263 | what the 64-bit decoder accepts fits 64 bits |
| Varint.DecodersAgree | sw/lib/c/nanopb/pb_decode.c:171-263 | whatever the 32-bit decoder accepts, the 64-bit decoder accepts, with the same bytes and the same low 32 bits |
| Varint.Decode64 | sw/lib/c/nanopb/pb_decode.c:243-263 | the loop over the stream computes Read64 of the bytes left, and leaves the bytes behind it |
| Varint.Decode32 | sw/lib/c/nanopb/pb_decode.c:171-240 | the loop computes Read32 of the bytes left, overflow and sign extension rules included |
| Varint.DecodeTail | sw/lib/c/nanopb/pb_decode.c:198-228 | what may follow the 28th bit |
| Varint.ReadExtension | sw/lib/c/nanopb/pb_decode.c:205-226 | the bytes behind the fifth are accepted only as zero or sign extension, and add nothing |
| Varint.ZigZagInverts | sw/lib/c/nanopb/pb_encode.c:625-635 | zigzag of any signed 64-bit value is 2v or -2v - 1, and decoding gives v back |
| ProtoStream.IStream.constructor | sw/lib/c/nanopb/pb_decode.c:143-165 | the bytes left are those of the given part of the buffer |
| ProtoStream.IStream.ReadByte | sw/lib/c/nanopb/pb_decode.c:125-141 | the first byte left, or an error at the end |
| ProtoStream.IStream.Read | sw/lib/c/nanopb/pb_decode.c:82-121 | exactly the first bytes left, or an error that reads nothing |
| ProtoDecoder.SkipVarintBytes | sw/lib/c/nanopb/pb_decode.c:266-275 | a varint of any length is passed over |
| ProtoDecoder.Skip | sw/lib/c/nanopb/pb_decode.c:308-318 | a field of unknown tag is passed over by its wire type, or rejected |
| ProtoDecoder.MakeSubstream | sw/lib/c/nanopb/pb_decode.c:360-375 | a length-delimited part is cut off within its parent, and what lies behind it is what remains |
| ProtoDecoder.CloseSubstream | sw/lib/c/nanopb/pb_decode.c:377-390 | the parent goes on directly behind the substream, whatever was left of it |
| ProtoDecoder.FourBytesWord | sw/lib/c/nanopb/pb_decode.c:1370-1390 | the shifted sum of four bytes is their little-endian word |
| ProtoDecoder.EightBytesWord | sw/lib/c/nanopb/pb_decode.c:1392-1417 | the same for eight bytes |
| ProtoDecoder.DecodeScalarField | sw/lib/c/nanopb/pb_decode.c:1420-1495 | bool, integer and fixed values: accepted if and only if the value fits the field, and consumed exactly |
| ProtoDecoder.DecodeStringField | sw/lib/c/nanopb/pb_decode.c:1497-1660 | bytes, strings and fixed-length bytes against their declared sizes |
| ProtoDecoder.DecodeBasicField | sw/lib/c/nanopb/pb_decode.c:396-465 | a value behind its key, at any depth, reads as DecodeBasic says of the bytes left and never past the end the stream had; the wire type it demands is the one that fixes the value's extent (ProtoUnknown.KindFixesExtent) |
| ProtoDecoder.DecodeSubmessage | sw/lib/c/nanopb/pb_decode.c:1587-1637 | a submessage is merged into what is there, from its own bytes only |
| ProtoDecoder.DecodePackedArray | sw/lib/c/nanopb/pb_decode.c:483-510 | a packed array is decoded completely within its length or rejected |
| ProtoDecoder.DecodeStaticField | sw/lib/c/nanopb/pb_decode.c:467-555 | required, optional, singular, repeated and oneof fields |
| ProtoDecoder.DecodeField | sw/lib/c/nanopb/pb_decode.c:1033-1100 | a known field is decoded and marked as seen, an unknown one is skipped |
| ProtoDecoder.DecodeNext | sw/lib/c/nanopb/pb_decode.c:1005-1100 | one turn of the loop: key and field take DecodeFields from the bytes left to those behind, or reject |
| ProtoDecoder.DecodeInner | sw/lib/c/nanopb/pb_decode.c:990-1152 | the loop over fields refines DecodeMessage on the whole input: same acceptance, same message |
| ProtoRequired.MarkOne | sw/lib/c/nanopb/pb_decode.c:1090-1096 | setting the bit of a field's rank marks that field and no other |
| ProtoRequired.AllBits | sw/lib/c/nanopb/pb_decode.c:1110-1148 | all bits are set if and only if every required field among the first 64 was met |
| ProtoRequired.CheckRequired | sw/lib/c/nanopb/pb_decode.c:1110-1148 | the check at the end of a message |
| ProtoCodec.DecodeBuffer | sw/lib/c/nanopb/pb_decode.c:1182-1194 | pb_decode of a buffer |
| ProtoDecode.Substream | sw/lib/c/nanopb/pb_decode.c:360-375 | a payload and the rest are together shorter than the bytes they come from |
| ProtoDecode.SkipField | sw/lib/c/nanopb/pb_decode.c:308-318 | skipping never lengthens the input |
| ProtoUnknown.ValueIsSkipped | sw/lib/c/nanopb/pb_decode.c:308-318 | any value of any type is passed over exactly, by the wire type of its key alone |
| ProtoUnknown.VarintIsSkipped | sw/lib/c/nanopb/pb_decode.c:266-275 | a varint is passed over to its last byte |
| ProtoDecode.DecodeStatic | sw/lib/c/nanopb/pb_decode.c:467-555 | every field consumes at least one byte, so decoding ends |
| ProtoDecode.FindTag | sw/lib/c/nanopb/pb_common.c:195-244 | the first field with the tag, or none |
| ProtoDecode.Stored | sw/lib/c/nanopb/pb_decode.c:520-545 | storing a field keeps the number of fields; ProtoAccepted.StoredFits says that it leaves one field of a union chosen |
| ProtoRoundTrip.ScalarRoundTrip | sw/lib/c/nanopb/pb_decode.c:1420-1495 | every packable value decodes to itself |
| ProtoRoundTrip.PackedRoundTrip | sw/lib/c/nanopb/pb_decode.c:483-510 | a packed array decodes to its elements behind those that were there |
| ProtoRoundTrip.StringRoundTrip | sw/lib/c/nanopb/pb_decode.c:1497-1660 | strings, bytes and fixed-length bytes decode to themselves |
| ProtoRoundTrip.BasicRoundTrip | sw/lib/c/nanopb/pb_decode.c:396-465 | a value behind its key decodes to itself at any depth of nesting |
| ProtoRoundTrip.FieldRoundTrip | sw/lib/c/nanopb/pb_decode.c:1033-1100 | the bytes of one field take the decoder from that field to the next |
| ProtoRoundTrip.EachRoundTrip | sw/lib/c/nanopb/pb_decode.c:512-525 | the elements of an unpacked array, each behind its own key |
| ProtoRoundTrip.DefaultIsPresent | sw/lib/c/nanopb/pb_decode.c:869-949 | an absent singular field and one that holds the default value are the same |
| ProtoRoundTrip.DefaultIs | sw/lib/c/nanopb/pb_encode.c:244-330 | a value counts as default, and is not written, if and only if a fresh message holds it; a submessage, if and only if encoding it writes nothing |
| ProtoRoundTrip.StoredIs | sw/lib/c/nanopb/pb_decode.c:526-545 | storing the chosen arm of a union disturbs no other chosen field |
| ProtoRoundTrip.RoundTrip | sw/lib/c/nanopb/pb_decode.c:1182-1194 | for every well-formed schema and every valid message, through optional, singular, oneof, packed, unpacked, strings and submessages: decoding the encoded message gives it back, up to fields it marks absent |
| ProtoUnknown.KindFixesExtent | sw/lib/c/nanopb/pb_encode.c:679-710 | the wire type in a key fixes how far the value behind it reaches: 0 a varint of at most 64 bits, 1 eight bytes, 2 a length and that many bytes, 5 four bytes; all types but those of kind 2 may be packed |
| ProtoUnknown.KeyIsSkipped | sw/lib/c/nanopb/pb_decode.c:1044-1080 | a key of no known field, with whatever it announces, changes nothing in the message |
| ProtoUnknown.UnknownValueIsSkipped | sw/lib/c/nanopb/pb_decode.c:1044-1080 | a value behind an unknown key changes nothing, whatever stands behind it |
| ProtoUnknown.UnknownFieldIsSkipped | sw/lib/c/nanopb/pb_decode.c:1044-1080 | the same for a whole field of any presence, packed or not |
| ProtoUnknown.OlderReceiver | sw/lib/c/nanopb/pb_decode.c:990-1152 | a receiver whose schema lacks any set of the fields reads all fields it knows and is disturbed by none of the others |
| ProtoUnknown.NewerReceiver | sw/lib/c/nanopb/pb_decode.c:990-1152 | a receiver whose schema has more fields reads what an older sender wrote, with those fields absent |
| ProtoAccepted.VarintIsAccepted | sw/lib/c/nanopb/pb_decode.c:1425-1494 | a number is accepted if and only if it stands for a value of the field's type, which is what is stored: no value is changed by a cast |
| ProtoAccepted.UpToNulIs | sw/lib/c/nanopb/pb_decode.c:1537-1600 | a string ends in front of its first NUL byte |
| ProtoAccepted.StoredFits | sw/lib/c/nanopb/pb_decode.c:520-545 | storing a field of a union leaves that field, and no other of the union, chosen, and every field within its size |
| ProtoAccepted.AcceptedFits | sw/lib/c/nanopb/pb_decode.c:990-1152 | whatever bytes arrive, an accepted message is one of the schema's type: integers fit their C types, arrays and strings their declared sizes, one field of a union at most is chosen; so it can be encoded again |
| ProtoAccepted.SentOn | sw/lib/c/nanopb/pb_decode.c:1182-1194 | a message that was received, from any bytes, and is sent on is received the same again |
| ProtoEncoder.OStream.Write | sw/lib/c/nanopb/pb_encode.c:84-105 | bytes are written, or only counted, and refused if and only if they do not fit |
| ProtoEncoder.OStream.Count | sw/lib/c/nanopb/pb_encode.c:84-105 | a sizing stream counts without data |
| ProtoEncoder.EncodeVarint | sw/lib/c/nanopb/pb_encode.c:607-623 | the shortest form goes to the stream if and only if it fits |
| ProtoEncoder.EncodeTag | sw/lib/c/nanopb/pb_encode.c:675-679 | the key of a field |
| ProtoEncoder.EncodeString | sw/lib/c/nanopb/pb_encode.c:716-722 | length and bytes |
| ProtoEncoder.FixedBytes | sw/lib/c/nanopb/pb_encode.c:637-672 | the shifted bytes are the little-endian form |
| ProtoEncoder.EncodeScalar | sw/lib/c/nanopb/pb_encode.c:776-854 | bool, integer and fixed values |
| ProtoEncoder.EncodeBasicField | sw/lib/c/nanopb/pb_encode.c:856-952 | a value behind its key succeeds if and only if it is valid and fits, and writes exactly its bytes; the wire type of its key fixes their extent (ProtoUnknown.KindFixesExtent) |
| ProtoEncoder.EncodeSubmessage | sw/lib/c/nanopb/pb_encode.c:724-772 | the first pass finds exactly the size that the second one writes: the branch "submsg size changed" cannot be reached |
| ProtoEncoder.PackedSize | sw/lib/c/nanopb/pb_encode.c:150-185 | the size of a packed array before it is written is the size of what is written |
| ProtoEncoder.EncodePacked | sw/lib/c/nanopb/pb_encode.c:139-215 | key, size and elements of a packed array |
| ProtoEncoder.EncodeUnpacked | sw/lib/c/nanopb/pb_encode.c:216-237 | a key in front of every element |
| ProtoEncoder.EncodeArray | sw/lib/c/nanopb/pb_encode.c:128-240 | an array within its declared size, packed when it can be |
| ProtoEncoder.EncodeField | sw/lib/c/nanopb/pb_encode.c:418-469 | what is absent writes nothing and succeeds |
| ProtoEncoder.Encode | sw/lib/c/nanopb/pb_encode.c:512-534 | pb_encode succeeds if and only if the message is valid and its size fits, and writes, or counts, exactly MessageBytes |
| ProtoCodec.EncodedSize | sw/lib/c/nanopb/pb_encode.c:557-566 | the size is the number of bytes that encoding writes, or an error for an invalid message |
| ProtoCodec.EncodeToBuffer | sw/lib/c/nanopb/pb_encode.c:512-534 | encoding into a buffer succeeds if and only if the message is valid and its encoded size fits, and then decoding the buffer gives the message back |
| ProtoIterator.FieldIter.constructor | sw/lib/c/nanopb/pb_common.c:156-164 | the iterator is at the first field |
| ProtoIterator.FieldIter.Advance | sw/lib/c/nanopb/pb_common.c:122-154 | index, descriptor word, submessage and required positions move on, or restart, together |
| ProtoIterator.FieldIter.Next | sw/lib/c/nanopb/pb_common.c:188-193 | the next field, and whether there was one before the wrap |
| ProtoIterator.FieldIter.Find | sw/lib/c/nanopb/pb_common.c:195-244 | from any position the search ends and finds the field with the tag if and only if there is one; otherwise it is back where it was |
| FieldInfo.Load1 | sw/lib/c/nanopb/pb.h:761-763 | load_descriptor_values inverts the packing of a one-word descriptor |
| FieldInfo.Load2 | sw/lib/c/nanopb/pb.h:765-767 | the same for two words |
| FieldInfo.Load4 | sw/lib/c/nanopb/pb.h:769-772 | the same for four words |
| FieldInfo.Load8 | sw/lib/c/nanopb/pb.h:774-777 | the same for eight words |
| Crc.ComputeCrc32 | tools/pcs_client.py:62-68 | the bitwise loop computes Crc32, which CrcDivision.CrcIsRemainder says in terms of the generating polynomial |
| CrcDivision.CrcIsRemainder | tools/pcs_client.py:62-68 | for all data: complement the first 32 bits of the data with 32 zeros behind them, divide by the generator of IEEE 802.3, complement the remainder; the result, highest power first, is crc32 |
| CrcDivision.PolynomialIsGenerator | tools/pcs_client.py:66 | the constant of the loop is the generator with the listed exponents, its highest power left out |
| CrcDivision.StepIsMultiplication | tools/pcs_client.py:65-66 | one round of the inner loop multiplies the register by x modulo the generator |
| CrcDivision.UpdateDivides | tools/pcs_client.py:62-68 | from any register, the loop over the bytes is long division |
| CrcDivision.SameCoefficients | tools/pcs_client.py:62-68 | a register is known by its coefficients |
| CrcDivision.TrailerBits | tools/pcs_client.py:104-106 | the four bytes of the trailer send the CRC with its highest power first |
| CrcDivision.FrameResidue | tools/pcs_client.py:104-116 | data with their own trailer behind them have the same CRC, whatever the data are |
| Crc.StepInjective | tools/pcs_client.py:62-68 | one step is injective on 32-bit states |
| Crc.UpdateInjective | tools/pcs_client.py:62-68 | equal CRCs of equal suffixes come from equal states |
| Crc.BurstChangesCrc | tools/pcs_client.py:62-68 | two payloads of the same length that differ only within four consecutive bytes never share a CRC |
| Crc.UnpackInverts | tools/pcs_client.py:104-116 | the trailer is read back as it was packed |
| CrcDivision.PackInverts | tools/pcs_client.py:104-116 | every trailer is that of the word it unpacks to |
| Framing.CobsEncode | tools/pcs_client.py:71-87 | the loop computes Cobs |
| Framing.CobsDecode | tools/pcs_client.py:90-101 | the loop computes CobsDecoded, errors included |
| Framing.CobsInverts | tools/pcs_client.py:71-101 | decoding an encoded body gives the data back |
| Framing.CobsBody | tools/pcs_client.py:71-87 | an encoded body holds no zero byte and has at most n + 1 + n/254 bytes |
| Framing.DeframeInverts | tools/pcs_client.py:104-116 | the body of a frame deframes to its payload |
| Framing.DeframeAccepts | tools/pcs_client.py:109-116 | a segment is accepted for a payload if and only if it decodes to that payload followed by its CRC |
| Framing.AlteredIsRejected | tools/pcs_client.py:109-116 | a segment whose payload was altered within four consecutive bytes and that kept its trailer is rejected |
| Framing.SplitAppend | tools/pcs_client.py:119-124 | splitting a stream is splitting its parts, the partial segment carried over |
| Framing.Receive | tools/pcs_client.py:352-361 | what the receive loop hands on depends only on the bytes, not on how the reads cut them |
| Framing.FramesAreReceived | tools/pcs_client.py:104-124 | whatever came before, the frames of any payloads yield exactly those payloads, in order, and nothing is left over |
| Framing.FramesFromStart | tools/pcs_client.py:104-124 | the concatenated frames of any payloads yield exactly those payloads |
| Trace.Demux | sw/gui/src-tauri/src/trace.rs:94-124 | a message of whole records gives one point for every record and every entry of its period, record by record and in list order, with the record's cycle modulo 2^32 and the entry's own bytes of the data; any other message gives nothing |
| Trace.DemuxedIs | sw/gui/src-tauri/src/trace.rs:94-124 | the same about what Demuxed stands for |
| Trace.OneRecord | sw/gui/src-tauri/src/trace.rs:115-120 | a record is cut into the values of its group in list order |
| Trace.ChargeIsGap | sw/gui/src-tauri/src/trace.rs:159-175 | a real gap below half the range and the cap is charged exactly, across a wrap |
| Trace.ChargeIs | sw/gui/src-tauri/src/trace.rs:159-175 | for every real distance within half the range: a step back or none is free, a gap is charged up to the cap |
| Trace.GapsAreCharged | sw/gui/src-tauri/src/trace.rs:159-175 | as many cycles as an entry has, plus their charges, cover the way from its first index to its last one period by period, across any number of wraps |
| Trace.SeriesCarries | sw/gui/src-tauri/src/trace.rs:186-198 | a batch carries every buffered point of every entry |
| Trace.SeriesInOrder | sw/gui/src-tauri/src/trace.rs:186-198 | no series is empty, and they are in list order |
| Trace.BatchState.constructor | sw/gui/src-tauri/src/trace.rs:140-151 | nothing delivered, charged or buffered |
| Trace.BatchState.Keep | sw/gui/src-tauri/src/trace.rs:159-177 | one point: buffers, last cycle and charges still agree with all points that came; the tally grows by the charge, and stops at the end of its range |
| Trace.BatchState.Flush | sw/gui/src-tauri/src/trace.rs:186-207 | the batch carries all buffered points and all charges since the last one, a series for each entry that has points, in list order |
| Trace.BatchState.Ingest | sw/gui/src-tauri/src/trace.rs:153-184 | a batch is handed on if and only if the message gave points and the threshold is reached or the last batch is old enough; over any stream, past batches plus buffers are the demultiplexed points of each entry in order, and past batches plus tally are the charges, unless the tally saturated |
| Trace.BatchState.Conserved | sw/gui/src-tauri/src/trace.rs:153-209 | for each entry, points delivered in past batches, points still buffered and drops charged are (last - first)/period + 1, over any in-order stream and any number of wraps |
| Trace.BatchState.Follow | sw/gui/src-tauri/src/trace.rs:153-207 | over a whole stream of messages the batches carry exactly the points that left the buffers, entry by entry and in order, and report exactly the charges that left the tally |
| Emitter.Emitter.constructor | sw/gui/src-tauri/src/emitter.rs:50-73 | an empty ledger |
| Emitter.Emitter.TrySend | sw/gui/src-tauri/src/emitter.rs:77-92 | an event is queued if and only if there is room and a receiver |
| Emitter.Emitter.Offer | sw/gui/src-tauri/src/emitter.rs:77-92 | what is offered is in the hands of its sender |
| Emitter.Emitter.TakeShedPoints | sw/gui/src-tauri/src/emitter.rs:119-121 | the tally moves into the batch in one swap |
| Emitter.Emitter.SendBatch | sw/gui/src-tauri/src/emitter.rs:122-127 | a batch is queued with the shed points it carries, or stays in hand |
| Emitter.Emitter.ShedBatch | sw/gui/src-tauri/src/emitter.rs:127-130 | points and carried tally go back to the tally |
| Emitter.Emitter.TakeDroppedLogs | sw/gui/src-tauri/src/emitter.rs:134-136 | the tally of lines moves into a notice |
| Emitter.Emitter.SendNotice | sw/gui/src-tauri/src/emitter.rs:136-141 | a notice is queued, or its count stays in hand |
| Emitter.Emitter.RestoreDroppedLogs | sw/gui/src-tauri/src/emitter.rs:140-142 | the count of a notice that found no room goes back |
| Emitter.Emitter.SendLine | sw/gui/src-tauri/src/emitter.rs:144-145 | a line is queued or stays in hand |
| Emitter.Emitter.DropLine | sw/gui/src-tauri/src/emitter.rs:145-147 | a dropped line is counted |
| Emitter.Emitter.Retry | sw/gui/src-tauri/src/emitter.rs:99-117 | a reliable event is retried until it fits, the receiver is gone or time is up |
| Emitter.Emitter.Emit | sw/gui/src-tauri/src/emitter.rs:54-66 | the oldest event leaves the queue, in order |
| Emitter.Emitter.Step | sw/gui/src-tauri/src/emitter.rs:77-147 | every atomic step of every sender keeps the ledger, and what it queues, where the sender goes on and what the tallies are is what AfterStep gives: a batch, a notice, a line or a reliable event is queued if and only if there is room and a receiver |
| Emitter.Emitter.SendSamples | sw/gui/src-tauri/src/emitter.rs:119-130 | the steps of sending a batch |
| Emitter.Emitter.SendLog | sw/gui/src-tauri/src/emitter.rs:134-147 | the steps of sending a line, with the notice in front |
| Emitter.NobodyBlocks | sw/gui/src-tauri/src/emitter.rs:96-147 | however full the queue is, every step brings a sender nearer to its end, but for a reliable event that waits for room |
| Emitter.Emitter.TakeTurn | sw/gui/src-tauri/src/emitter.rs:77-147 | an offer is accepted if and only if its sender is idle, and adds exactly what it offers to the ledger; every other step adds nothing; the state is the one the turn leads to |
| Emitter.Emitter.Run | sw/gui/src-tauri/src/emitter.rs:77-147 | for any number of senders in any interleaving, the state is the one the turns lead to one by one; points and lines offered are those of the accepted offers, and are queued, in the tallies, or in the hands of senders; and if no sender ever found the queue full or the receiver gone, nothing is shed, and the events queued are exactly those of the accepted offers, but for those still owed |
| Emitter.NothingIsLost | sw/gui/src-tauri/src/emitter.rs:119-147 | as long as no sender finds the queue full or the receiver gone, nothing is shed, and every event offered is queued or still owed |
| Emitter.ShortRunsFindRoom | sw/gui/src-tauri/src/emitter.rs:18-21 | as many turns as there are free places never find the queue full |

## Left out

- KernelState.LeavesBeforeSwitch: gives the condition under which a sleeper of zero ticks would break the assertion at the switch of the lists; the methods of `Kernel` exclude that one case by precondition.
- Kernel.Scheduler.AddCurrentTaskToDelayedList: not for a wait of zero ticks in the last tick before the word wraps, after which the source's assertion at the switch of the lists fails (KernelState.LeavesBeforeSwitch).
- Delays.CheckForTimeOutIsExact: the code is not right for every check that comes a whole wrap late; the statement names the checks it gets wrong and is exact for all.
- Kernel.Scheduler.Suspend: the scheduler runs; suspending the current task before it starts, or while it is suspended (which the source asserts against), is not modelled.
- Kernel.Scheduler.Happen: the deletion of a task that holds a mutex is left out, as the kernel then keeps a dangling holder.
- Kernel.Scheduler.AddNewTaskToReadyList: the scheduler runs; the choice of the first current task among those created before it starts is not modelled.
- Kernel.Scheduler.DelayThenTicks: bare ticks only; DelayThenRun is the statement for any events.
- Kernel.Scheduler.BlockOnMutex: a task never blocks on a plain mutex that it holds itself.
- QueueWakeups.Queue.SendFromISR: at most 127 posts fit into one lock window; the count wraps behind that.
- QueueWakeups.Queue.ReceiveFromISR: the same for receives.
- QueueWakeups.Queue.CheckOverwrite: the message count is unbounded, where overwriting tokens of a full queue 2^32 times would wrap it.
- QueueWakeups.Queue.JoinWaiters: a waiting task takes any place of its list, so no order of priorities is claimed for event lists; inheritance rewrites item values in place.
- StreamBuffer.MessageBuffer.TakeHeader: putting the tail back when the caller's buffer is too small happens in one step with reading the header.
- StreamBuffer.MessageBuffer.Run: that all sent messages get received is claimed for a reader with room for any message; one without room leaves the message where it is.
- TimerDaemon.Daemon.ProcessReceivedCommands: the clock stands still while the queue is drained; a clock that moves between any two commands is a sequence of ProcessCommand steps, over which TimerState.RunIsOnSchedule speaks.
- TimerDaemon.Daemon.CatchUp: the clock stands still from the look at it until nothing is left to do, for the same reason.
- TimerDaemon.Daemon.Send: the command queue is never full, and a timer that gets any command but the start is no longer followed as a running one.
- ProtoRoundTrip.RoundTrip: encoded sizes are below 2^32 - 1, as size_t and the 32-bit length prefix demand.
- ProtoUnknown.OlderReceiver: the two schemas differ in the fields of the outermost message; a submessage has the same schema on both sides.
- ProtoAccepted.AcceptedFits: for schemas whose array sizes and fixed lengths fit pb_size_t and whose integers have 1, 2, 4 or 8 bytes, as generated ones do.
- ProtoDecoder.DecodeInner: the destination struct is a value that the methods return, not memory written through field pointers; the 64 bits of fields_seen are a sequence of booleans instead of two words.
- Trace.BatchState.Ingest: values stay the bytes they came as, cycles are not converted to milliseconds, and the age of the last batch is a parameter.
- Emitter.Emitter.Retry: telemetry is the same step without a second try; the counters do not wrap at 2^64.
- vTaskPrioritySet, xTaskAbortDelay, vTaskStepTick and notifications: they change priorities, states or the tick in ways the inheritance and partition claims do not cover.
- xQueueGenericReset with waiting senders: it wakes only one of them, so the sender half of the wakeup claim would not hold.
- Queue sets, event groups, co-routines and the queue registry: more steps of the same kind.
- Recursive mutexes: a counter above the mutex modelled here.
- The scheduler before it starts, context switching, stacks, memory allocation, MPU regions, tickless idle, run-time statistics and hooks: port code or bookkeeping.
- The stream mode of stream buffers, trigger levels, blocking sends and receives, reset: no discrete messages, or the task notifications that are left out.
- Messages of zero length: the source asserts against writing them.
- Timer names, identifiers, pended function calls and the memory of deleted timers; the auto-reload flag is constant.
- nanopb callbacks, pointer fields, extensions, fixed-count arrays, default-value blocks, UTF-8 checks, delimited and null-terminated framing of whole messages, float conversion.
- `decode` of trace values, watch tables and their installation, the Tauri commands, the emitter's thread and its shutdown.
- Serial ports, command line, display and link test of `pcs_client.py`; the parsing of the protobuf envelope there is that of a library.
- The Rust framing library `pcs_wire` is not part of this model; the framing is that of the Python client.
