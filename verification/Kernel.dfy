/** The task lists and the tick of tasks.c.

    Every state change of a task moves its state item between lists, so the central
    facts are about the container that item records. Time is kept twice: in the tick
    word, which wraps, and in the ghost `time`, which does not. The methods hide the
    predicates they keep, and keep them by the lemmas of KernelState. */
module Kernel {
  import opened Arithmetic
  import opened RingLinks
  import opened TaskLists
  import opened KernelRuns
  import opened KernelState
  import opened MutexState
  import opened Options
  import opened Delays

  class Scheduler {
    const maxDelay: nat          // portMAX_DELAY, the largest tick word
    const maxPriorities: nat     // configMAX_PRIORITIES

    var tcb: Tcbs
    var stateValue: Ticks        // the item values of xStateListItem and xEventListItem
    var eventValue: Ticks
    var state: Lists<StateList>
    var event: Lists<EventList>
    var delayedIsOne: bool       // which list pxDelayedTaskList points to
    var current: Task
    var numberOfTasks: nat
    var deletedWaitingCleanUp: nat
    var tickCount: nat
    var pendedTicks: nat
    var numOfOverflows: nat
    var nextTaskUnblockTime: nat
    var topReadyPriority: nat
    var schedulerSuspended: nat
    var yieldPending: bool
    var mutexes: Mutexes

    ghost var time: nat          // ticks processed since the word was first zero
    ghost var base: nat          // the time at which the word was last zero
    ghost var due: Ticks
    ghost var interrupts: nat    // tick interrupts so far
    ghost var lost: nat          // ticks dropped when the word of pended ticks wrapped

    function Delayed(): (l: StateList)
      reads `delayedIsOne
    {
      if delayedIsOne then DelayedOne else DelayedTwo
    }

    function Overflow(): (l: StateList)
      reads `delayedIsOne
    {
      if delayedIsOne then DelayedTwo else DelayedOne
    }

    ghost function ThisEpoch(): (epoch: Epoch)
      reads `delayedIsOne, `stateValue, `due, `base
    {
      Epoch(Delayed(), Overflow(), stateValue, due, base, maxDelay)
    }

    ghost function Tasks(): (k: Kept)
      reads `state, `event, `tcb, `numberOfTasks, `current, `eventValue, `topReadyPriority, `deletedWaitingCleanUp
    {
      Kept(state, event, tcb, numberOfTasks, current, eventValue, maxPriorities, topReadyPriority,
           deletedWaitingCleanUp)
    }

    ghost predicate TasksOk()
      reads `state, `event, `tcb, `numberOfTasks, `current, `eventValue, `topReadyPriority, `deletedWaitingCleanUp
    {
      TasksBut() && EventOk(state.container, event.container)
    }

    ghost predicate TasksBut()
      reads `state, `event, `tcb, `numberOfTasks, `current, `eventValue, `topReadyPriority, `deletedWaitingCleanUp
    {
      TasksAre(Tasks())
    }

    ghost predicate SleepOk(floor: nat)
      reads `state, `delayedIsOne, `stateValue, `due, `base
    {
      && DueOk(state.container, ThisEpoch(), floor)
      && SortedBy(state.Of(DelayedOne), stateValue) && SortedBy(state.Of(DelayedTwo), stateValue)
    }

    ghost predicate TimeOk()
      reads `state, `delayedIsOne, `stateValue, `due, `base, `tickCount, `time, `nextTaskUnblockTime, `numOfOverflows
    {
      && tickCount <= maxDelay && time == base + tickCount && EpochOk(base, numOfOverflows, maxDelay)
      && SleepOk(time + 1)
      && NextOk(state.container, Delayed(), stateValue, nextTaskUnblockTime)
    }

    /** Every tick interrupt is accounted for: processed, pended, or part of a whole wrap of
        the word of pended ticks. */
    ghost predicate CountOk()
      reads `pendedTicks, `time, `interrupts, `lost
    {
      pendedTicks <= maxDelay && interrupts == time + pendedTicks + lost && WholeWraps(lost, maxDelay)
    }

    ghost predicate Valid()
      reads this
    {
      TasksOk() && TimeOk() && CountOk()
        && (schedulerSuspended == 0 ==> pendedTicks == 0 && NonePending(event.container))
    }

    /** The kernel as vTaskStartScheduler leaves it, with no task but the idle task, and
        mutexes that nobody holds. */
    constructor (maxDelay: nat, maxPriorities: nat, idle: Task, mutexIds: set<nat>)
      requires maxPriorities > 0
      ensures Valid() && MutexesOk() && this.maxDelay == maxDelay && this.maxPriorities == maxPriorities
      ensures tcb == map[idle := Tcb(0, 0, 0)] && state.container == map[idle := Ready(0)] && event.container == map[]
      ensures mutexes.Keys == mutexIds && schedulerSuspended == interrupts == lost == 0
    {
      hide TasksAre, EventOk, NonePending, DueOk, NextOk, SortedBy, WholeWraps, EpochOk;
      this.maxDelay, this.maxPriorities := maxDelay, maxPriorities;
      tcb, current, numberOfTasks := map[idle := Tcb(0, 0, 0)], idle, 1;
      stateValue, eventValue := map[], map[idle := maxPriorities];
      state, event := Lists(map[Ready(0) := [idle]], map[idle := Ready(0)], map[]), Lists(map[], map[], map[]);
      delayedIsOne, topReadyPriority, deletedWaitingCleanUp := true, 0, 0;
      tickCount, pendedTicks, numOfOverflows, nextTaskUnblockTime := 0, 0, 0, maxDelay;
      schedulerSuspended, yieldPending := 0, false;
      mutexes := map m | m in mutexIds :: Mutex(1, None);
      time, base, due, interrupts, lost := 0, 0, map[], 0, 0;
      new;
      FirstEpochOk(maxDelay);
      IdleTaskOk(idle, maxPriorities, maxDelay);
      assert HeldBy(mutexes, idle) == {};
    }

    /** xTickCount + xPendedTicks counts the tick interrupts, modulo the word. */
    lemma TicksCounted()
      requires Valid()
      ensures Word(tickCount + pendedTicks, maxDelay + 1) == Word(interrupts, maxDelay + 1)
      ensures tickCount == Word(time, maxDelay + 1) && tickCount <= maxDelay
    {
      hide TasksOk, SleepOk, NonePending, NextOk;
      WrapsDropOut(tickCount, base, maxDelay);
      WrapsDropOut(tickCount + pendedTicks, base, maxDelay);
      WrapsDropOut(tickCount + pendedTicks + base, lost, maxDelay);
    }

    /** xNumOfOverflows counts the wraps of the tick word, in a word of its own. */
    lemma OverflowsCounted()
      requires Valid()
      ensures Entered(time, maxDelay + 1) == TimeOut(numOfOverflows, tickCount)
    {
      hide TasksOk, SleepOk, NonePending, NextOk, EpochOk;
      EnteredNow(base, numOfOverflows, tickCount, maxDelay);
    }

    /** vTaskSetTimeOutState. */
    method SetTimeOutState() returns (timeOut: TimeOut)
      requires Valid()
      ensures timeOut == Entered(time, maxDelay + 1)
    {
      OverflowsCounted();
      timeOut := TimeOut(numOfOverflows, tickCount);
    }

    /** xTaskCheckForTimeOut, for a task that set its timeout state at the time `from`. It
        reports a timeout exactly when the wait is over, but for the checks that come a wrap
        late and that Delays.CheckForTimeOutIsExact names; a wait of portMAX_DELAY never ends. */
    method CheckTimeOut(timeOut: TimeOut, ticksToWait: nat, ghost from: nat) returns (r: TimeOutCheck)
      requires Valid() && from <= time && timeOut == Entered(from, maxDelay + 1) && ticksToWait <= maxDelay
      ensures ticksToWait == maxDelay ==> r == Remaining(ticksToWait, timeOut)
      ensures ticksToWait < maxDelay ==>
        var m := maxDelay + 1;
        var missed := time - from >= m && Word(time - from, m) < ticksToWait
                      && (Word(time, m) < Word(from, m) || Entered(time, m).overflowCount == timeOut.overflowCount);
        r == if time - from >= ticksToWait && !missed then TimedOut
             else Remaining(ticksToWait - Word(time - from, m), Entered(time, m))
    {
      hide Valid;
      OverflowsCounted();
      TicksCounted();
      if ticksToWait < maxDelay {
        CheckForTimeOutIsExact(from, time, ticksToWait, maxDelay + 1);
      }
      r := CheckForTimeOut(timeOut, ticksToWait, numOfOverflows, tickCount, maxDelay + 1);
    }

    /** The lengths of all state lists add up to the number of tasks. */
    lemma LengthsSum()
      requires Valid()
      ensures state.TotalLength(AllLists(maxPriorities)) == numberOfTasks
    {
      var labels := AllLists(maxPriorities);
      AllListsAre(maxPriorities);
      state.LengthsAddUp(labels);
      assert state.In(labels) == tcb.Keys;
    }

    /** prvAddTaskToReadyList. */
    method AddTaskToReadyList(t: Task)
      requires t in tcb && t !in state.container
      modifies this`state, this`topReadyPriority
      ensures state == old(state).InsertEnd(Ready(tcb[t].priority), t)
      ensures topReadyPriority == if tcb[t].priority > old(topReadyPriority) then tcb[t].priority
        else old(topReadyPriority)
    {
      if tcb[t].priority > topReadyPriority {
        topReadyPriority := tcb[t].priority;
      }
      state := state.InsertEnd(Ready(tcb[t].priority), t);
    }

    /** prvResetNextTaskUnblockTime. */
    method ResetNextTaskUnblockTime()
      requires state.Linked() && SortedBy(state.Of(Delayed()), stateValue)
      modifies this`nextTaskUnblockTime
      ensures NextOk(state.container, Delayed(), stateValue, nextTaskUnblockTime)
    {
      if state.Of(Delayed()) == [] {
        nextTaskUnblockTime := maxDelay;
      } else {
        nextTaskUnblockTime := stateValue[state.Of(Delayed())[0]];
      }
    }

    /** taskSWITCH_DELAYED_LISTS; the first line of the body is its assertion. */
    method SwitchDelayedLists()
      requires state.Linked() && SleepOk(base + maxDelay + 1) && EpochOk(base, numOfOverflows, maxDelay)
      modifies this`delayedIsOne, this`numOfOverflows, this`nextTaskUnblockTime, this`base
      ensures delayedIsOne != old(delayedIsOne) && base == old(base) + maxDelay + 1
      ensures EpochOk(base, numOfOverflows, maxDelay) && numOfOverflows == (old(numOfOverflows) + 1) % COUNT_WORD
      ensures SleepOk(base)
      ensures NextOk(state.container, Delayed(), stateValue, nextTaskUnblockTime)
    {
      hide DueOk, SortedBy, NextOk, EpochOk, Lists.Linked;
      EpochOver(state, ThisEpoch());
      assert state.Of(Delayed()) == [];
      NextEpochOk(base, numOfOverflows, maxDelay);
      delayedIsOne := !delayedIsOne;
      numOfOverflows := (numOfOverflows + 1) % COUNT_WORD;
      base := base + maxDelay + 1;
      ResetNextTaskUnblockTime();
    }

    /** A blocked or suspended task becomes ready: both its items leave their lists. */
    method MakeReady(t: Task, ghost floor: nat)
      requires TasksOk() && SleepOk(floor) && t in tcb && t in state.container
      requires Asleep(state.container[t]) || state.container[t].Suspended?
      modifies this`state, this`event, this`topReadyPriority
      ensures TasksOk() && SleepOk(floor)
      ensures state.container == old(state.container)[t := Ready(tcb[t].priority)]
      ensures event.container == old(event.container) - {t}
      ensures t in old(state.container) && t in old(state).Of(old(state.container)[t])
      ensures state == old(state).Remove(t).InsertEnd(Ready(tcb[t].priority), t) && event == Detach(old(event), t)
      ensures old(state.container)[t] == Delayed() ==> |state.Of(Delayed())| < |old(state.Of(Delayed()))|
    {
      hide TasksAre, DueOk, EventOk, SortedBy, Lists.Linked, Lists.Remove, Lists.InsertEnd, Detach;
      ReadiedTasksOk(Tasks(), stateValue, t);
      ReadiedDueOk(state.container, ThisEpoch(), floor, t, tcb[t].priority);
      event := Detach(event, t);
      state := state.Remove(t);
      AddTaskToReadyList(t);
    }

    lemma HeadSleeps(floor: nat)
      requires TasksOk() && SleepOk(floor) && state.Of(Delayed()) != []
      ensures var t := state.Of(Delayed())[0];
        t in stateValue && t in tcb && t in state.container && state.container[t] == Delayed()
    {
      HeadHasValue(state, Delayed(), stateValue);
      assert state.Of(Delayed())[0] in state.Of(Delayed());
    }

    lemma HeadExpired(was: Containers, events: map<Task, EventList>)
      requires TasksOk() && SleepOk(time) && base <= time && state.Of(Delayed()) != []
      requires state.Of(Delayed())[0] in stateValue && stateValue[state.Of(Delayed())[0]] <= time - base
      requires PartWoken(was, state.container, tcb, Delayed(), due, time)
      requires EventsLeft(events, event.container, was, state.container)
      ensures var t := state.Of(Delayed())[0];
        && t in tcb
        && var now := state.container[t := Ready(tcb[t].priority)];
          && EventsLeft(events, event.container - {t}, was, now) && PartWoken(was, now, tcb, Delayed(), due, time)
          && forall p ::
               WokeAtLeast(was, now, tcb, p) <==> (WokeAtLeast(was, state.container, tcb, p) || tcb[t].priority >= p)
    {
      hide PartWoken, EventsLeft, WokeAtLeast, DueOk;
      HeadSleeps(time);
      ExpiredOk(was, state, tcb, ThisEpoch(), time, state.Of(Delayed())[0], events, event.container);
    }

    lemma HeadNotExpired()
      requires TasksOk() && SleepOk(time) && time == base + tickCount && tickCount <= maxDelay
      requires EpochOk(base, numOfOverflows, maxDelay)
      requires state.Of(Delayed()) != [] ==> state.Of(Delayed())[0] in stateValue
      requires if state.Of(Delayed()) == [] then nextTaskUnblockTime == maxDelay
               else nextTaskUnblockTime == stateValue[state.Of(Delayed())[0]] && tickCount < nextTaskUnblockTime
      ensures TimeOk()
    {
      hide DueOk, NextOk, WholeWraps, EpochOk;
      NoneExpired(state, ThisEpoch(), tickCount, nextTaskUnblockTime);
    }

    lemma AllWokenNow(was: Containers)
      requires TasksOk() && TimeOk() && PartWoken(was, state.container, tcb, Delayed(), due, time)
      ensures WokenBy(was, state.container, tcb, due, time)
    {
      AllWoken(was, state.container, tcb, ThisEpoch(), time);
    }

    /** The loop of xTaskIncrementTick: sleepers leave the head of the delayed list for
        their ready lists until one is reached that is not due. */
    method UnblockExpired() returns (switchRequired: bool)
      requires TasksOk() && tickCount <= maxDelay && time == base + tickCount && EpochOk(base, numOfOverflows, maxDelay)
      requires SleepOk(time)
      modifies this`state, this`event, this`topReadyPriority, this`nextTaskUnblockTime
      ensures TasksOk() && TimeOk()
      ensures WokenBy(old(state.container), state.container, tcb, due, time)
      ensures EventsLeft(old(event.container), event.container, old(state.container), state.container)
      ensures switchRequired <==> WokeAtLeast(old(state.container), state.container, tcb, tcb[current].priority)
    {
      hide TasksOk, SleepOk, TimeOk, WholeWraps, EpochOk, PartWoken, WokeAtLeast, WokenBy, EventsLeft;
      switchRequired := false;
      ghost var was, events := state.container, event.container;
      EventsNow();
      NoneWoken(was, tcb, Delayed(), due, time);
      while true
        invariant TasksOk() && SleepOk(time) && current in tcb
        invariant PartWoken(was, state.container, tcb, Delayed(), due, time)
        invariant EventsLeft(events, event.container, was, state.container)
        invariant switchRequired <==> WokeAtLeast(was, state.container, tcb, tcb[current].priority)
        decreases |state.Of(Delayed())|
      {
        if state.Of(Delayed()) == [] {
          nextTaskUnblockTime := maxDelay;
          break;
        }
        HeadSleeps(time);
        var t := state.Of(Delayed())[0];
        var itemValue := stateValue[t];
        if tickCount < itemValue {
          nextTaskUnblockTime := itemValue;
          break;
        }
        HeadExpired(was, events);
        MakeReady(t, time);
        if tcb[t].priority >= tcb[current].priority {
          switchRequired := true;
        }
      }
      HeadNotExpired();
      AllWokenNow(was);
    }

    /** The first part of xTaskIncrementTick: the word moves on, and wraps with its lists. */
    method AdvanceTick()
      requires TasksOk() && TimeOk()
      modifies this`tickCount, this`time, this`delayedIsOne, this`numOfOverflows, this`nextTaskUnblockTime, this`base
      ensures time == old(time) + 1 && tickCount <= maxDelay && time == base + tickCount
      ensures EpochOk(base, numOfOverflows, maxDelay)
      ensures SleepOk(time) && NextOk(state.container, Delayed(), stateValue, nextTaskUnblockTime)
      ensures numOfOverflows == if tickCount == 0 then (old(numOfOverflows) + 1) % COUNT_WORD else old(numOfOverflows)
    {
      hide DueOk, SortedBy, Lists.Linked, NextOk, WholeWraps, EpochOk;
      tickCount := if tickCount == maxDelay then 0 else tickCount + 1;
      time := time + 1;
      if tickCount == 0 {
        SwitchDelayedLists();
      }
    }

    /** xTaskIncrementTick while the scheduler runs: exactly the sleepers due at the new
        time become ready. */
    method ProcessTick() returns (switchRequired: bool)
      requires TasksOk() && TimeOk()
      modifies this`state, this`event, this`topReadyPriority
      modifies this`nextTaskUnblockTime, this`delayedIsOne, this`numOfOverflows
      modifies this`tickCount, this`time, this`base
      ensures TasksOk() && TimeOk() && time == old(time) + 1
      ensures WokenBy(old(state.container), state.container, tcb, due, time)
      ensures EventsLeft(old(event.container), event.container, old(state.container), state.container)
      ensures var woke := WokeAtLeast(old(state.container), state.container, tcb, tcb[current].priority);
        switchRequired == (woke || |state.Of(Ready(tcb[current].priority))| > 1 || yieldPending)
    {
      hide DueOk, ReadyOk, EventOk, SortedBy, Lists.Linked, ItemValuesOk, WholeWraps, EpochOk;
      hide WokeAtLeast, WokenBy, NextOk, EventsLeft;
      AdvanceTick();
      if tickCount >= nextTaskUnblockTime {
        switchRequired := UnblockExpired();
      } else {
        switchRequired := false;
        NobodyDue(state.container, event.container, tcb, ThisEpoch(), tickCount, nextTaskUnblockTime);
        NoneWoken(state.container, tcb, Delayed(), due, time);
      }
      if |state.Of(Ready(tcb[current].priority))| > 1 {
        switchRequired := true;
      }
      if yieldPending {
        switchRequired := true;
      }
    }

    /** xTaskIncrementTick. While the scheduler is suspended the tick is only counted, in
        a word that wraps. */
    method IncrementTick() returns (switchRequired: bool)
      requires TasksOk() && TimeOk() && pendedTicks <= maxDelay
      modifies this`state, this`event, this`topReadyPriority
      modifies this`nextTaskUnblockTime, this`delayedIsOne, this`numOfOverflows
      modifies this`tickCount, this`pendedTicks, this`time, this`base
      ensures TasksOk() && TimeOk() && pendedTicks <= maxDelay
      ensures schedulerSuspended == 0 ==> time == old(time) + 1 && pendedTicks == old(pendedTicks)
      ensures schedulerSuspended == 0 ==>
        && WokenBy(old(state.container), state.container, tcb, due, time)
        && EventsLeft(old(event.container), event.container, old(state.container), state.container)
      ensures schedulerSuspended == 0 ==>
        var woke := WokeAtLeast(old(state.container), state.container, tcb, tcb[current].priority);
        switchRequired == (woke || |state.Of(Ready(tcb[current].priority))| > 1 || yieldPending)
      ensures schedulerSuspended != 0 ==>
        && state == old(state) && event == old(event) && time == old(time) && tickCount == old(tickCount)
        && !switchRequired
        && pendedTicks == (if old(pendedTicks) == maxDelay then 0 else old(pendedTicks) + 1)
    {
      hide DueOk, ReadyOk, EventOk, SortedBy, Lists.Linked, ItemValuesOk, WholeWraps, EpochOk;
      hide WokeAtLeast, WokenBy, NextOk, EventsLeft;
      if schedulerSuspended == 0 {
        switchRequired := ProcessTick();
      } else {
        switchRequired := false;
        pendedTicks := if pendedTicks == maxDelay then 0 else pendedTicks + 1;
      }
    }

    lemma EventsNow()
      requires TasksOk()
      ensures EventOk(state.container, event.container) && state.container.Keys == tcb.Keys && current in tcb
      ensures state.Linked() && event.Linked()
    {
    }

    /** One round of the loop that moves the tasks held pending. */
    method MoveOne(t: Task)
      requires TasksOk() && SleepOk(time + 1) && t in tcb && t in state.container && current in tcb
      requires Asleep(state.container[t]) || state.container[t].Suspended?
      modifies this`state, this`event, this`topReadyPriority, this`yieldPending
      ensures TasksOk() && SleepOk(time + 1)
      ensures state.container == old(state.container)[t := Ready(tcb[t].priority)]
      ensures event.container == old(event.container) - {t}
      ensures yieldPending == (old(yieldPending) || tcb[t].priority >= tcb[current].priority)
    {
      hide TasksOk, SleepOk, Lists.Remove, Lists.InsertEnd, Detach;
      MakeReady(t, time + 1);
      if tcb[t].priority >= tcb[current].priority {
        yieldPending := true;
      }
    }

    /** The loop that moves the tasks held pending. */
    method MovePending() returns (moved: bool)
      requires TasksOk() && SleepOk(time + 1)
      modifies this`state, this`event, this`topReadyPriority, this`yieldPending
      ensures TasksOk() && SleepOk(time + 1) && NonePending(event.container)
      ensures !moved ==> state == old(state)
      ensures Drained(old(event.container), event.container, old(state.container), state.container, tcb)
      ensures yieldPending
        <==> old(yieldPending) || WokeAtLeast(old(state.container), state.container, tcb, tcb[current].priority)
    {
      hide TasksOk, SleepOk, EventOk, Lists.Linked, Drained, NonePending, WokeAtLeast;
      ghost var was, events := state.container, event.container;
      moved := false;
      EventsNow();
      NoneDrained(events, was, tcb);
      NobodyWoke(was, tcb, tcb[current].priority);
      while event.Of(PendingReady) != []
        invariant TasksOk() && SleepOk(time + 1) && current in tcb
        invariant !moved ==> state == old(state)
        invariant Drained(events, event.container, was, state.container, tcb)
        invariant yieldPending <==> old(yieldPending) || WokeAtLeast(was, state.container, tcb, tcb[current].priority)
        decreases event.container.Keys
      {
        var t := event.Of(PendingReady)[0];
        EventsNow();
        DrainStep(events, event, was, state.container, tcb, t);
        OneMoreWoken(was, state.container, tcb, t, tcb[current].priority);
        MoveOne(t);
        moved := true;
      }
      EventsNow();
      NonePendingLeft(event);
    }

    /** The first part of xTaskResumeAll: tasks that an interrupt readied while the
        scheduler was suspended move to their ready lists. */
    method DrainPending()
      requires TasksOk() && TimeOk()
      modifies this`state, this`event, this`topReadyPriority, this`nextTaskUnblockTime, this`yieldPending
      ensures TasksOk() && TimeOk() && NonePending(event.container)
      ensures Drained(old(event.container), event.container, old(state.container), state.container, tcb)
      ensures yieldPending
        <==> old(yieldPending) || WokeAtLeast(old(state.container), state.container, tcb, tcb[current].priority)
    {
      hide TasksOk, SleepOk, NextOk, WholeWraps, EpochOk, Drained, NonePending, WokeAtLeast;
      var moved := MovePending();
      if moved {
        InOrder();
        ResetNextTaskUnblockTime();
      }
    }

    lemma NobodyDueNow()
      requires TasksOk() && TimeOk()
      ensures WokenBy(state.container, state.container, tcb, due, time)
      ensures EventsLeft(event.container, event.container, state.container, state.container)
    {
      NobodyDueYet(state.container, event.container, tcb, ThisEpoch(), time);
    }

    /** One round of that loop: a tick that wants a switch is remembered. */
    method ReplayTick()
      requires TasksOk() && TimeOk() && schedulerSuspended == 0 && pendedTicks <= maxDelay
      modifies this`state, this`event, this`topReadyPriority
      modifies this`nextTaskUnblockTime, this`delayedIsOne, this`numOfOverflows
      modifies this`tickCount, this`pendedTicks, this`time, this`base, this`yieldPending
      ensures TasksOk() && TimeOk() && pendedTicks == old(pendedTicks) && time == old(time) + 1
      ensures WokenBy(old(state.container), state.container, tcb, due, time)
      ensures EventsLeft(old(event.container), event.container, old(state.container), state.container)
      ensures yieldPending == (old(yieldPending)
        || WokeAtLeast(old(state.container), state.container, tcb, tcb[current].priority)
        || |state.Of(Ready(tcb[current].priority))| > 1)
    {
      hide TasksBut, EventOk, TimeOk, WokenBy, EventsLeft, WokeAtLeast;
      var switchRequired := IncrementTick();
      if switchRequired {
        yieldPending := true;
      }
    }

    /** The second loop of xTaskResumeAll: ticks counted while the scheduler was suspended
        are processed one by one. */
    method ReplayTicks()
      requires TasksOk() && TimeOk() && schedulerSuspended == 0 && pendedTicks <= maxDelay
      modifies this`state, this`event, this`topReadyPriority
      modifies this`nextTaskUnblockTime, this`delayedIsOne, this`numOfOverflows
      modifies this`tickCount, this`pendedTicks, this`time, this`base, this`yieldPending
      ensures TasksOk() && TimeOk() && pendedTicks == 0 && time == old(time) + old(pendedTicks)
      ensures WokenBy(old(state.container), state.container, tcb, due, time)
      ensures EventsLeft(old(event.container), event.container, old(state.container), state.container)
      ensures old(pendedTicks) == 0 ==> state == old(state)
      ensures yieldPending == (old(yieldPending)
        || SwitchWanted(old(state.container), state.container, tcb, tcb[current].priority, old(pendedTicks)))
    {
      hide TasksOk, TimeOk, WokenBy, EventsLeft, WokeAtLeast, SwitchWanted, Lists.Linked;
      ghost var was, events, start := state.container, event.container, time;
      EventsNow();
      NoTicksYet(was, tcb, tcb[current].priority);
      NobodyDueNow();
      var pendedCounts := pendedTicks;
      while pendedCounts > 0
        invariant TasksOk() && TimeOk() && schedulerSuspended == 0
        invariant 0 <= pendedCounts <= pendedTicks <= maxDelay && pendedTicks == old(pendedTicks)
        invariant time == start + (pendedTicks - pendedCounts)
        invariant WokenBy(was, state.container, tcb, due, time)
        invariant EventsLeft(events, event.container, was, state.container)
        invariant pendedCounts == pendedTicks ==> state == old(state)
        invariant yieldPending == (old(yieldPending)
          || SwitchWanted(was, state.container, tcb, tcb[current].priority, pendedTicks - pendedCounts))
      {
        ghost var mid, some, before := state.container, event.container, time;
        ReplayTick();
        EventsNow();
        OneMoreReplayed(was, mid, state, tcb, due, before, time, tcb[current].priority, pendedTicks - pendedCounts);
        WokenInSteps(was, mid, state.container, tcb, due, before, time, events, some, event.container);
        pendedCounts := pendedCounts - 1;
      }
      pendedTicks := 0;
    }

    /** The tick interrupt. */
    method TickInterrupt() returns (switchRequired: bool)
      requires Valid()
      modifies this`state, this`event, this`topReadyPriority
      modifies this`nextTaskUnblockTime, this`delayedIsOne, this`numOfOverflows
      modifies this`tickCount, this`pendedTicks, this`time, this`base, this`interrupts, this`lost
      ensures Valid() && interrupts == old(interrupts) + 1
      ensures schedulerSuspended == 0 ==>
        && time == old(time) + 1
        && WokenBy(old(state.container), state.container, tcb, due, time)
        && EventsLeft(old(event.container), event.container, old(state.container), state.container)
      ensures schedulerSuspended != 0 ==>
        state == old(state) && event == old(event) && time == old(time) && !switchRequired
      ensures schedulerSuspended == 0 ==>
        var woke := WokeAtLeast(old(state.container), state.container, tcb, tcb[current].priority);
        switchRequired == (woke || |state.Of(Ready(tcb[current].priority))| > 1 || yieldPending)
      ensures pendedTicks == PendedAfter(Tick, schedulerSuspended, old(pendedTicks), maxDelay)
      ensures old(pendedTicks) < maxDelay ==> lost == old(lost)
    {
      hide TasksOk, TimeOk, WokenBy, EventsLeft, WokeAtLeast, NonePending, WholeWraps, EpochOk;
      if schedulerSuspended != 0 && pendedTicks == maxDelay {
        OneMoreWrap(lost, maxDelay);
        lost := lost + maxDelay + 1;
      }
      interrupts := interrupts + 1;
      switchRequired := IncrementTick();
      StillNonePending(old(event.container), event.container, old(state.container), state.container);
    }

    /** vTaskSuspendAll. */
    method SuspendAll()
      requires Valid()
      modifies this`schedulerSuspended
      ensures Valid() && schedulerSuspended == old(schedulerSuspended) + 1
    {
      hide TasksOk, TimeOk, WholeWraps, EpochOk, NonePending;
      schedulerSuspended := schedulerSuspended + 1;
    }

    /** xTaskResumeAll. The last resumption readies what interrupts held pending and lets
        the counted ticks happen, each waking the sleepers due at it. */
    method ResumeAll() returns (alreadyYielded: bool)
      requires Valid() && schedulerSuspended > 0
      modifies this`state, this`event, this`topReadyPriority
      modifies this`nextTaskUnblockTime, this`delayedIsOne, this`numOfOverflows
      modifies this`tickCount, this`pendedTicks, this`time, this`base, this`yieldPending, this`schedulerSuspended
      ensures Valid() && schedulerSuspended == old(schedulerSuspended) - 1
      ensures schedulerSuspended == 0 ==> pendedTicks == 0 && time == old(time) + old(pendedTicks)
      ensures schedulerSuspended == 0 ==>
        Resumed(old(event.container), event.container, old(state.container), state.container, tcb, due, time)
      ensures schedulerSuspended != 0 ==>
        state == old(state) && event == old(event) && time == old(time) && pendedTicks == old(pendedTicks)
      ensures schedulerSuspended != 0 ==> yieldPending == old(yieldPending)
      ensures schedulerSuspended == 0 ==>
        var woke := WokeAtLeast(old(state.container), state.container, tcb, tcb[current].priority);
        var peers := old(pendedTicks) > 0 && |state.Of(Ready(tcb[current].priority))| > 1;
        yieldPending == (old(yieldPending) || woke || peers)
      ensures alreadyYielded <==> schedulerSuspended == 0 && yieldPending
    {
      hide TasksOk, TimeOk, EventOk, WholeWraps, EpochOk, WokenBy, EventsLeft, Drained, Resumed, NonePending;
      hide WokeAtLeast, SwitchWanted, Lists.Linked;
      EventsNow();
      alreadyYielded := false;
      schedulerSuspended := schedulerSuspended - 1;
      if schedulerSuspended == 0 {
        ghost var was, events, pended := state.container, event.container, pendedTicks;
        DrainPending();
        ghost var mid, some := state.container, event.container;
        ReplayTicks();
        DrainedThenWoken(events, some, event.container, was, mid, state.container, tcb, due, time);
        EventsNow();
        SwitchAfterBoth(events, some, was, mid, state, tcb, due, time, tcb[current].priority, pended);
        if yieldPending {
          alreadyYielded := true;
        }
      }
    }

    /** The branch of prvAddCurrentTaskToDelayedList for a wait without end: a timing event
        must not wake the task. */
    method BlockIndefinitely()
      requires TasksBut() && EventOk(state.container, event.container - {current}) && TimeOk()
      requires state.container[current].Ready?
      modifies this`state
      ensures TasksOk() && TimeOk()
      ensures state.container == old(state.container)[current := Suspended]
    {
      hide DueOk, ReadyOk, EventOk, SortedBy, Lists.Linked, Lists.Remove, Lists.InsertEnd;
      hide ItemValuesOk, NextOk, WholeWraps, EpochOk;
      BlockedOk(state.container, event.container, tcb, topReadyPriority, current, Suspended);
      MovedLinked(state, current, Suspended, stateValue);
      AwayDueOk(state.container, ThisEpoch(), time + 1, current, Suspended);
      AwayNextOk(state.container, Delayed(), stateValue, nextTaskUnblockTime, current, Suspended);
      state := state.Remove(current);
      state := state.InsertEnd(Suspended, current);
    }

    /** The writes of prvAddCurrentTaskToDelayedList for a timed wait. */
    method Sleep(timeToWake: nat, l: StateList, ghost dueTime: nat)
      requires current in state.container && current in state.Of(state.container[current])
      requires forall x :: x in state.Remove(current).Of(l) ==> x in stateValue[current := timeToWake]
      modifies this`state, this`stateValue, this`due
      ensures stateValue == old(stateValue)[current := timeToWake] && due == old(due)[current := dueTime]
      ensures forall x :: x in old(state).Remove(current).Of(l) ==> x in stateValue
      ensures state == old(state).Remove(current).Insert(l, current, stateValue)
    {
      state := state.Remove(current);
      stateValue := stateValue[current := timeToWake];
      due := due[current := dueTime];
      state := state.Insert(l, current, stateValue);
    }

    /** The branch of prvAddCurrentTaskToDelayedList for a timed wait. */
    method BlockFor(ticksToWait: nat)
      requires TasksBut() && EventOk(state.container, event.container - {current}) && TimeOk()
      requires state.container[current].Ready? && ticksToWait <= maxDelay
      requires ticksToWait > 0 || tickCount < maxDelay
      modifies this`state, this`stateValue, this`due, this`nextTaskUnblockTime
      ensures TasksOk() && TimeOk()
      ensures state.container
        == old(state.container)[current := BlockedIn(tickCount, ticksToWait, false, Delayed(), Overflow(), maxDelay)]
      ensures due == old(due)[current := time + (if ticksToWait == 0 then 1 else ticksToWait)]
    {
      hide TasksAre, DueOk, ReadyOk, EventOk, SortedBy, Lists.Linked, Lists.Remove, Lists.Insert;
      hide ItemValuesOk, NextOk, WholeWraps, EpochOk;
      ghost var l := BlockedIn(tickCount, ticksToWait, false, Delayed(), Overflow(), maxDelay);
      var timeToWake := WakeValue(tickCount, ticksToWait, maxDelay);
      SleeperTasksOk(Tasks(), stateValue, l, timeToWake);
      SleeperOk(state.container, ThisEpoch(), tickCount, nextTaskUnblockTime, current, ticksToWait);
      var overflowed := timeToWake < tickCount;
      ghost var dueTime := time + (if ticksToWait == 0 then 1 else ticksToWait);
      Sleep(timeToWake, if overflowed then Overflow() else Delayed(), dueTime);
      if !overflowed && timeToWake < nextTaskUnblockTime {
        nextTaskUnblockTime := timeToWake;
      }
    }

    /** prvAddCurrentTaskToDelayedList. A task that blocks for w ticks is due w ticks from
        now; a wait of zero ticks ends with the next tick, and must not start in the last
        tick before the word wraps (see KernelState.LeavesBeforeSwitch). The task's event
        item may be in an event list already. */
    method AddCurrentTaskToDelayedList(ticksToWait: nat, canBlockIndefinitely: bool)
      requires TasksBut() && EventOk(state.container, event.container - {current}) && TimeOk()
      requires state.container[current].Ready? && ticksToWait <= maxDelay
      requires ticksToWait > 0 || tickCount < maxDelay
      modifies this`state, this`stateValue, this`due, this`nextTaskUnblockTime
      ensures TasksOk() && TimeOk()
      ensures state.container
        == old(state.container)[current :=
             BlockedIn(tickCount, ticksToWait, canBlockIndefinitely, Delayed(), Overflow(), maxDelay)]
      ensures due == if Asleep(state.container[current])
        then old(due)[current := time + (if ticksToWait == 0 then 1 else ticksToWait)] else old(due)
    {
      hide DueOk, ReadyOk, EventOk, SortedBy, Lists.Linked, ItemValuesOk, NextOk, WholeWraps, EpochOk;
      if ticksToWait == maxDelay && canBlockIndefinitely {
        BlockIndefinitely();
      } else {
        BlockFor(ticksToWait);
      }
    }

    /** Any number of ticks with the scheduler running, however often the word wraps: the
        sleepers due by then are ready, and nobody else has moved. */
    method RunTicks(n: nat)
      requires Valid() && schedulerSuspended == 0
      modifies this`state, this`event, this`topReadyPriority
      modifies this`nextTaskUnblockTime, this`delayedIsOne, this`numOfOverflows
      modifies this`tickCount, this`pendedTicks, this`time, this`base, this`interrupts, this`lost
      ensures Valid() && time == old(time) + n
      ensures WokenBy(old(state.container), state.container, tcb, due, time)
      ensures EventsLeft(old(event.container), event.container, old(state.container), state.container)
    {
      hide TasksOk, TimeOk, WokenBy, EventsLeft, WokeAtLeast, NonePending, WholeWraps, EpochOk;
      ghost var was, events, start := state.container, event.container, time;
      NobodyDueNow();
      for i := 0 to n
        invariant Valid() && time == start + i
        invariant WokenBy(was, state.container, tcb, due, time)
        invariant EventsLeft(events, event.container, was, state.container)
      {
        ghost var mid, some, before := state.container, event.container, time;
        var switchRequired := TickInterrupt();
        WokenInSteps(was, mid, state.container, tcb, due, before, time, events, some, event.container);
      }
    }

    lemma SleepersAreLater()
      requires TasksOk() && TimeOk()
      ensures SleepAfter(state.container, due, time) && state.container.Keys == tcb.Keys
    {
    }

    lemma SleepersAreLaterNow()
      requires Valid()
      ensures SleepAfter(state.container, due, time)
    {
      SleepersAreLater();
    }

    lemma TasksKnown()
      requires Valid()
      ensures state.container.Keys == tcb.Keys && current in tcb
    {
    }

    /** The running task goes to sleep while the scheduler is suspended. */
    method SleepCurrent(ticksToWait: nat)
      requires Valid() && schedulerSuspended > 0 && 0 < ticksToWait <= maxDelay
      requires current in state.container && state.container[current].Ready?
      modifies this`state, this`stateValue, this`due, this`nextTaskUnblockTime
      ensures Valid() && due == old(due)[current := time + ticksToWait]
      ensures exists l :: Asleep(l) && state.container == old(state.container)[current := l]
    {
      hide TasksAre, SleepOk, EventOk, NextOk, WholeWraps, EpochOk, NonePending;
      NotWaiting(state, event.container, current);
      AddCurrentTaskToDelayedList(ticksToWait, false);
    }

    lemma NonePendingNow()
      requires Valid()
      ensures EventOk(state.container, event.container) && (schedulerSuspended == 0 ==> NonePending(event.container))
    {
    }

    /** The part that vTaskDelay and vTaskDelayUntil share: the task blocks while the
        scheduler is suspended. No interrupt comes in between. */
    method BlockSuspended(ticksToWait: nat)
      requires Valid() && schedulerSuspended == 0 && 0 < ticksToWait <= maxDelay
      requires current in state.container && state.container[current].Ready?
      modifies this`state, this`event, this`topReadyPriority
      modifies this`nextTaskUnblockTime, this`delayedIsOne, this`numOfOverflows
      modifies this`tickCount, this`pendedTicks, this`time, this`base, this`yieldPending, this`schedulerSuspended
      modifies this`stateValue, this`due
      ensures Valid() && schedulerSuspended == 0 && pendedTicks == 0 && time == old(time)
      ensures event.container == old(event.container)
      ensures due == old(due)[current := time + ticksToWait]
      ensures exists l :: Asleep(l) && state.container == old(state.container)[current := l]
    {
      hide Valid, NonePending, Resumed, SleepAfter, EventOk, Asleep;
      NonePendingNow();
      NothingPended();
      SuspendAll();
      SleepCurrent(ticksToWait);
      SleepersAreLaterNow();
      NonePendingNow();
      TasksKnown();
      ghost var was, events := state.container, event.container;
      var alreadyYielded := ResumeAll();
      QuietResume(events, event.container, was, state.container, tcb, due, time);
    }

    lemma NothingPended()
      requires Valid() && schedulerSuspended == 0
      ensures pendedTicks == 0
    {
    }

    /** vTaskDelay: the running task is due that many ticks from now. */
    method Delay(ticksToDelay: nat)
      requires Valid() && ticksToDelay <= maxDelay && (ticksToDelay > 0 ==> schedulerSuspended == 0)
      requires current in state.container && state.container[current].Ready?
      modifies this`state, this`event, this`topReadyPriority
      modifies this`nextTaskUnblockTime, this`delayedIsOne, this`numOfOverflows
      modifies this`tickCount, this`pendedTicks, this`time, this`base, this`yieldPending, this`schedulerSuspended
      modifies this`stateValue, this`due
      ensures Valid() && time == old(time) && event.container == old(event.container)
      ensures schedulerSuspended == old(schedulerSuspended) && pendedTicks == old(pendedTicks)
      ensures ticksToDelay == 0 ==> state == old(state) && due == old(due)
      ensures ticksToDelay > 0 ==>
        && due == old(due)[current := time + ticksToDelay]
        && exists l :: Asleep(l) && state.container == old(state.container)[current := l]
    {
      hide Valid;
      if ticksToDelay > 0 {
        NothingPended();
        BlockSuspended(ticksToDelay);
      }
    }

    /** vTaskDelayUntil, for a task that last woke at the time `previous`: it is due at
        `previous + increment`, unless that time has passed. A task that is whole wraps late
        is taken for one that is late by the rest. */
    method DelayUntil(previousWake: nat, increment: nat, ghost previous: nat) returns (wake: nat)
      requires Valid() && schedulerSuspended == 0 && 0 < increment <= maxDelay
      requires current in state.container && state.container[current].Ready?
      requires previousWake == Word(previous, maxDelay + 1) && previous <= time
      modifies this`state, this`event, this`topReadyPriority
      modifies this`nextTaskUnblockTime, this`delayedIsOne, this`numOfOverflows
      modifies this`tickCount, this`pendedTicks, this`time, this`base, this`yieldPending, this`schedulerSuspended
      modifies this`stateValue, this`due
      ensures Valid() && time == old(time) && event.container == old(event.container)
      ensures wake == Word(previous + increment, maxDelay + 1)
      ensures time <= previous + maxDelay ==> Word(time - previous, maxDelay + 1) == time - previous
      ensures var late := Word(time - previous, maxDelay + 1);
        if late >= increment then state == old(state) && due == old(due)
        else
          && due == old(due)[current := time + increment - late]
          && exists l :: Asleep(l) && state.container == old(state.container)[current := l]
    {
      hide Valid, Asleep;
      TicksCounted();
      WordStep(previous, increment, maxDelay + 1);
      DelayUntilIsDriftFree(previous, time, increment, maxDelay + 1);
      wake := if previousWake + increment <= maxDelay then previousWake + increment
        else previousWake + increment - maxDelay - 1;
      if ShouldDelay(previousWake, tickCount, increment, maxDelay + 1) {
        BlockSuspended(WordMinus(wake, tickCount, maxDelay + 1));
      }
    }

    /** Exact wake: a task that delays for w ticks is ready after n ticks precisely when n
        has reached w, whatever w, n and the tick word are. */
    method DelayThenTicks(ticksToDelay: nat, n: nat)
      requires Valid() && schedulerSuspended == 0 && 0 < ticksToDelay <= maxDelay
      requires current in state.container && state.container[current].Ready?
      modifies this`state, this`event, this`topReadyPriority
      modifies this`nextTaskUnblockTime, this`delayedIsOne, this`numOfOverflows
      modifies this`tickCount, this`pendedTicks, this`time, this`base, this`yieldPending, this`schedulerSuspended
      modifies this`stateValue, this`due, this`interrupts, this`lost
      ensures Valid() && current in state.container
      ensures if n >= ticksToDelay then current in tcb && state.container[current] == Ready(tcb[current].priority)
        else Asleep(state.container[current])
    {
      hide Valid, NonePending, Resumed, SleepAfter, EventsLeft;
      TasksKnown();
      BlockSuspended(ticksToDelay);
      RunTicks(n);
    }

    /** vTaskPlaceOnEventList: the running task joins an event list, in front of the waiters
        with a larger item value, and blocks. */
    method PlaceOnEventList(eventList: nat, ticksToWait: nat)
      requires TasksOk() && TimeOk() && state.container[current].Ready? && ticksToWait <= maxDelay
      requires ticksToWait > 0 || tickCount < maxDelay
      modifies this`state, this`event, this`stateValue, this`due, this`nextTaskUnblockTime
      ensures TasksOk() && TimeOk()
      ensures QueuedByPriority(old(event), event, tcb, Object(eventList), current)
      ensures event.container == old(event.container)[current := Object(eventList)]
      ensures state.container
        == old(state.container)[current := BlockedIn(tickCount, ticksToWait, true, Delayed(), Overflow(), maxDelay)]
      ensures due == if Asleep(state.container[current])
        then old(due)[current := time + (if ticksToWait == 0 then 1 else ticksToWait)] else old(due)
    {
      hide DueOk, ReadyOk, EventOk, SortedBy, Lists.Linked, Lists.Remove, Lists.InsertEnd;
      hide Lists.Insert, ItemValuesOk, NextOk, WholeWraps, EpochOk, NonePending, Detach, QueuedByPriority;
      EventInserted(event, state.container, tcb, eventValue, maxPriorities, Object(eventList), current);
      EventQueued(event, state.container, tcb, eventValue, maxPriorities, Object(eventList), current);
      event := event.Insert(Object(eventList), current, eventValue);
      AddCurrentTaskToDelayedList(ticksToWait, true);
    }

    /** The first waiter of an event list becomes ready, or is held pending while the
        scheduler is suspended; the others keep their order. */
    method WakeFirst(eventList: nat) returns (t: Task)
      requires Valid() && event.Of(Object(eventList)) != []
      modifies this`state, this`event, this`topReadyPriority
      ensures Valid() && current in tcb && t == old(event.Of(Object(eventList)))[0]
      ensures t in tcb && t in old(event.container) && old(event.container)[t] == Object(eventList)
      ensures t in old(event).Of(Object(eventList))
      ensures schedulerSuspended == 0 ==>
        && state.container == old(state.container)[t := Ready(tcb[t].priority)]
        && event.container == old(event.container) - {t} && event == old(event).Remove(t)
      ensures schedulerSuspended != 0 ==>
        && state == old(state) && event.container == old(event.container)[t := PendingReady]
        && event == old(event).Remove(t).InsertEnd(PendingReady, t)
    {
      hide TasksAre, DueOk, ReadyOk, EventOk, SortedBy, Lists.Linked, Lists.Remove, Lists.InsertEnd;
      hide Lists.Insert, ItemValuesOk, NextOk, WholeWraps, EpochOk, NonePending, Detach;
      TasksKnown();
      WaiterTasksOk(Tasks(), Object(eventList));
      t := event.Of(Object(eventList))[0];
      if schedulerSuspended == 0 {
        ReadiedNextOk(state.container, Delayed(), stateValue, nextTaskUnblockTime, t, tcb[t].priority);
        StillNone(event.container, t);
        WaiterDetached(event, t);
        MakeReady(t, time + 1);
      } else {
        event := event.Remove(t).InsertEnd(PendingReady, t);
      }
    }

    /** xTaskRemoveFromEventList. A waiter of higher priority than the running task asks for
        a switch. */
    method RemoveFromEventList(eventList: nat) returns (higherPriority: bool)
      requires Valid() && event.Of(Object(eventList)) != []
      modifies this`state, this`event, this`topReadyPriority, this`yieldPending
      ensures Valid()
      ensures var t := old(event.Of(Object(eventList)))[0];
        && t in tcb && t in old(event.container) && old(event.container)[t] == Object(eventList)
        && (higherPriority <==> tcb[t].priority > tcb[current].priority)
        && yieldPending == (old(yieldPending) || higherPriority)
        && t in old(event).Of(Object(eventList))
        && if schedulerSuspended == 0 then
             && state.container == old(state.container)[t := Ready(tcb[t].priority)]
             && event.container == old(event.container) - {t} && event == old(event).Remove(t)
           else
             && state == old(state) && event.container == old(event.container)[t := PendingReady]
             && event == old(event).Remove(t).InsertEnd(PendingReady, t)
    {
      hide TasksOk, TimeOk, CountOk, NonePending, Lists.Remove, Lists.InsertEnd;
      var t := WakeFirst(eventList);
      higherPriority := tcb[t].priority > tcb[current].priority;
      if higherPriority {
        yieldPending := true;
      }
    }

    /** What vTaskSuspend and vTaskDelete share: a task's state item goes to a list where no
        timing event finds it, and its event item leaves its list. */
    method PutAway(t: Task, l: StateList)
      requires TasksOk() && SleepOk(time + 1) && t in tcb && t in state.container && state.container[t] != Termination
      requires l == Suspended || l == Termination
      modifies this`state, this`event, this`deletedWaitingCleanUp
      ensures TasksOk() && SleepOk(time + 1)
      ensures state.container == old(state.container)[t := l] && event.container == old(event.container) - {t}
      ensures deletedWaitingCleanUp == old(deletedWaitingCleanUp) + (if l == Termination then 1 else 0)
    {
      hide TasksAre, DueOk, EventOk, SortedBy, Lists.Linked, Lists.Remove, Lists.InsertEnd, Detach;
      AwayTasksOk(Tasks(), stateValue, t, l);
      AwayDueOk(state.container, ThisEpoch(), time + 1, t, l);
      state := state.Remove(t);
      event := Detach(event, t);
      state := state.InsertEnd(l, t);
      if l == Termination {
        deletedWaitingCleanUp := deletedWaitingCleanUp + 1;
      }
    }

    /** vTaskSuspend. The running task may suspend itself only while the scheduler runs. */
    method Suspend(t: Task)
      requires Valid() && t in tcb && state.container[t] != Termination
      requires t == current ==> schedulerSuspended == 0
      modifies this`state, this`event, this`nextTaskUnblockTime, this`deletedWaitingCleanUp
      ensures Valid() && deletedWaitingCleanUp == old(deletedWaitingCleanUp)
      ensures state.container == old(state.container)[t := Suspended] && event.container == old(event.container) - {t}
    {
      hide TasksAre, DueOk, EventOk, SortedBy, NextOk, WholeWraps, EpochOk, NonePending;
      TasksKnown();
      StillNone(event.container, t);
      PutAway(t, Suspended);
      InOrder();
      ResetNextTaskUnblockTime();
    }

    /** prvTaskIsTaskSuspended: suspended, not blocked without timeout, and not resumed by
        an interrupt already. */
    function TaskIsTaskSuspended(t: Task): (b: bool)
      requires t in state.container
      reads `state, `event
    {
      state.container[t] == Suspended && t !in event.container
    }

    /** vTaskResume; resuming the running task does nothing. */
    method Resume(t: Task)
      requires Valid() && t in tcb
      modifies this`state, this`event, this`topReadyPriority
      ensures Valid() && event.container == old(event.container)
      ensures state.container == if t != current && old(TaskIsTaskSuspended(t))
        then old(state.container)[t := Ready(tcb[t].priority)] else old(state.container)
    {
      hide DueOk, ReadyOk, EventOk, SortedBy, Lists.Linked, Lists.Remove, Lists.InsertEnd;
      hide Lists.Insert, ItemValuesOk, NextOk, WholeWraps, EpochOk, NonePending, Detach;
      if t != current && TaskIsTaskSuspended(t) {
        ReadiedNextOk(state.container, Delayed(), stateValue, nextTaskUnblockTime, t, tcb[t].priority);
        assert event.container - {t} == event.container;
        MakeReady(t, time + 1);
      }
    }

    /** xTaskResumeFromISR. */
    method ResumeFromISR(t: Task) returns (yieldRequired: bool)
      requires Valid() && t in tcb
      modifies this`state, this`event, this`topReadyPriority
      ensures Valid()
      ensures !old(TaskIsTaskSuspended(t)) ==> state == old(state) && event == old(event) && !yieldRequired
      ensures old(TaskIsTaskSuspended(t)) && schedulerSuspended == 0 ==>
        && state.container == old(state.container)[t := Ready(tcb[t].priority)]
        && event.container == old(event.container)
        && yieldRequired == (tcb[t].priority >= tcb[current].priority)
      ensures old(TaskIsTaskSuspended(t)) && schedulerSuspended != 0 ==>
        state == old(state) && event.container == old(event.container)[t := PendingReady] && !yieldRequired
    {
      hide DueOk, ReadyOk, EventOk, SortedBy, Lists.Linked, Lists.Remove, Lists.InsertEnd;
      hide Lists.Insert, ItemValuesOk, NextOk, WholeWraps, EpochOk, NonePending, Detach;
      yieldRequired := false;
      if TaskIsTaskSuspended(t) {
        if schedulerSuspended == 0 {
          yieldRequired := tcb[t].priority >= tcb[current].priority;
          ReadiedNextOk(state.container, Delayed(), stateValue, nextTaskUnblockTime, t, tcb[t].priority);
          assert event.container - {t} == event.container;
          MakeReady(t, time + 1);
        } else {
          SuspendedPended(event, state.container, t);
          event := event.InsertEnd(PendingReady, t);
        }
      }
    }

    /** The writes that create a task. */
    method Register(t: Task, priority: nat)
      requires priority < maxPriorities
      modifies this`tcb, this`eventValue, this`numberOfTasks
      ensures tcb == old(tcb)[t := Tcb(priority, priority, 0)] && numberOfTasks == old(numberOfTasks) + 1
      ensures eventValue == old(eventValue)[t := maxPriorities - priority]
    {
      numberOfTasks := numberOfTasks + 1;
      tcb := tcb[t := Tcb(priority, priority, 0)];
      eventValue := eventValue[t := maxPriorities - priority];
    }

    /** prvAddNewTaskToReadyList, with the scheduler running. */
    method AddNewTaskToReadyList(t: Task, priority: nat)
      requires Valid() && t !in tcb && priority < maxPriorities
      modifies this`tcb, this`eventValue, this`state, this`topReadyPriority, this`numberOfTasks
      ensures Valid() && event == old(event)
      ensures tcb == old(tcb)[t := Tcb(priority, priority, 0)] && numberOfTasks == old(numberOfTasks) + 1
      ensures state.container == old(state.container)[t := Ready(priority)]
    {
      hide TasksAre, DueOk, ReadyOk, EventOk, SortedBy, Lists.Linked, Lists.Remove, Lists.InsertEnd;
      hide Lists.Insert, ItemValuesOk, NextOk, WholeWraps, EpochOk, NonePending, Detach;
      CreatedTasksOk(Tasks(), stateValue, t, priority);
      ReadiedDueOk(state.container, ThisEpoch(), time + 1, t, priority);
      ReadiedNextOk(state.container, Delayed(), stateValue, nextTaskUnblockTime, t, priority);
      Register(t, priority);
      AddTaskToReadyList(t);
    }

    /** The writes of vTaskDelete for a task that is freed at once. */
    method Unlink(t: Task)
      requires t in state.container && t in state.Of(state.container[t]) && numberOfTasks > 0
      requires t in event.container ==> t in event.Of(event.container[t])
      modifies this`tcb, this`state, this`event, this`numberOfTasks
      ensures state == old(state).Remove(t) && event == Detach(old(event), t)
      ensures tcb == old(tcb) - {t} && numberOfTasks == old(numberOfTasks) - 1
    {
      state := state.Remove(t);
      event := Detach(event, t);
      numberOfTasks := numberOfTasks - 1;
      tcb := tcb - {t};
    }

    /** What vTaskDelete does of a task other than the running one, but for the cached time. */
    method Forget(t: Task)
      requires TasksOk() && SleepOk(time + 1) && t in tcb && t != current && t in state.container
      requires state.container[t] != Termination
      modifies this`tcb, this`state, this`event, this`numberOfTasks
      ensures TasksOk() && SleepOk(time + 1) && tcb == old(tcb) - {t} && numberOfTasks == old(numberOfTasks) - 1
      ensures state.container == old(state.container) - {t} && event.container == old(event.container) - {t}
    {
      hide TasksAre, DueOk, EventOk, SortedBy, Lists.Linked, Lists.Remove, NextOk, Detach;
      DeletedOk(Tasks(), stateValue, t);
      GoneDueOk(state.container, ThisEpoch(), time + 1, t);
      Unlink(t);
    }

    /** vTaskDelete of a task other than the running one: its memory is freed at once. */
    method DeleteOther(t: Task)
      requires Valid() && t in tcb && t != current && state.container[t] != Termination
      modifies this`tcb, this`state, this`event, this`numberOfTasks, this`nextTaskUnblockTime
      ensures Valid() && tcb == old(tcb) - {t} && numberOfTasks == old(numberOfTasks) - 1
      ensures state.container == old(state.container) - {t} && event.container == old(event.container) - {t}
    {
      hide TasksAre, DueOk, EventOk, SortedBy, NextOk, WholeWraps, EpochOk, NonePending;
      TasksKnown();
      StillNone(event.container, t);
      Forget(t);
      InOrder();
      ResetNextTaskUnblockTime();
    }

    lemma InOrder()
      requires TasksOk() && SleepOk(time + 1)
      ensures state.Linked() && SortedBy(state.Of(Delayed()), stateValue)
    {
    }

    /** vTaskDelete of the running task: the idle task will free it. */
    method DeleteSelf()
      requires Valid() && state.container[current] != Termination && schedulerSuspended == 0
      modifies this`state, this`event, this`deletedWaitingCleanUp
      ensures Valid() && deletedWaitingCleanUp == old(deletedWaitingCleanUp) + 1
      ensures state.container == old(state.container)[current := Termination]
      ensures event.container == old(event.container) - {current}
    {
      hide TasksAre, DueOk, EventOk, SortedBy, NextOk, WholeWraps, EpochOk, NonePending;
      TasksKnown();
      StillNone(event.container, current);
      AwayNextOk(state.container, Delayed(), stateValue, nextTaskUnblockTime, current, Termination);
      PutAway(current, Termination);
    }

    /** What a round of prvCheckTasksWaitingTermination does to the tasks. */
    method FreeHead() returns (freed: Task)
      requires TasksOk() && SleepOk(time + 1) && deletedWaitingCleanUp > 0
      requires current in state.container && state.container[current] != Termination
      modifies this`tcb, this`state, this`event, this`numberOfTasks, this`deletedWaitingCleanUp
      ensures TasksOk() && SleepOk(time + 1) && event == old(event)
      ensures freed in old(tcb) && freed in old(state.container) && old(state.container)[freed] == Termination
      ensures tcb == old(tcb) - {freed} && state.container == old(state.container) - {freed}
      ensures numberOfTasks == old(numberOfTasks) - 1 && deletedWaitingCleanUp == old(deletedWaitingCleanUp) - 1
    {
      hide TasksAre, DueOk, EventOk, SortedBy, Lists.Linked, Lists.Remove, Detach;
      TerminatedHead(Tasks());
      freed := state.Of(Termination)[0];
      DeletedOk(Tasks(), stateValue, freed);
      GoneDueOk(state.container, ThisEpoch(), time + 1, freed);
      Unlink(freed);
      deletedWaitingCleanUp := deletedWaitingCleanUp - 1;
    }

    /** One round of prvCheckTasksWaitingTermination. */
    method FreeTerminated() returns (ghost t: Task)
      requires TasksOk() && TimeOk() && deletedWaitingCleanUp > 0
      requires current in state.container && state.container[current] != Termination
      modifies this`tcb, this`state, this`event, this`numberOfTasks, this`deletedWaitingCleanUp
      ensures TasksOk() && TimeOk() && event == old(event)
      ensures t in old(tcb) && t in old(state.container) && old(state.container)[t] == Termination
      ensures tcb == old(tcb) - {t} && state.container == old(state.container) - {t}
      ensures numberOfTasks == old(numberOfTasks) - 1 && deletedWaitingCleanUp == old(deletedWaitingCleanUp) - 1
    {
      hide TasksOk, SleepOk, NextOk, WholeWraps, EpochOk;
      ghost var was := state.container;
      t := FreeHead();
      GoneNextOk(was, Delayed(), stateValue, nextTaskUnblockTime, t);
    }

    lemma NoneTerminatedNow()
      requires TasksOk() && deletedWaitingCleanUp == 0
      ensures forall t :: t in state.container ==> state.container[t] != Termination
    {
      NoneTerminated(state);
    }

    /** prvCheckTasksWaitingTermination, run by the idle task: every task that deleted itself
        is freed. */
    method CheckTasksWaitingTermination()
      requires Valid() && state.container[current] != Termination
      modifies this`tcb, this`state, this`event, this`numberOfTasks, this`deletedWaitingCleanUp
      ensures Valid() && deletedWaitingCleanUp == 0 && event == old(event)
      ensures numberOfTasks == old(numberOfTasks) - old(deletedWaitingCleanUp)
      ensures forall t :: t in tcb <==> t in old(tcb) && old(state.container)[t] != Termination
      ensures forall t :: t in tcb ==> tcb[t] == old(tcb)[t] && state.container[t] == old(state.container)[t]
    {
      hide TasksOk, TimeOk, NonePending;
      TasksKnown();
      ghost var was, freed: set<Task> := state.container, {};
      while deletedWaitingCleanUp > 0
        invariant TasksOk() && TimeOk() && event == old(event) && current in state.container
        invariant state.container[current] != Termination
        invariant numberOfTasks - deletedWaitingCleanUp == old(numberOfTasks) - old(deletedWaitingCleanUp)
        invariant tcb == old(tcb) - freed && state.container == was - freed
        invariant forall t :: t in freed ==> t in was && was[t] == Termination
        decreases deletedWaitingCleanUp
      {
        ghost var t := FreeTerminated();
        freed := freed + {t};
      }
      NoneTerminatedNow();
    }

    ghost predicate SomeReady()
      reads `state
    {
      exists t :: t in state.container && state.container[t].Ready?
    }

    /** The running task is ready, at the recorded top priority, and no ready task has a
        higher one. */
    ghost predicate HighestRuns()
      reads `state, `tcb, `current, `topReadyPriority
    {
      && current in tcb && current in state.container && tcb[current].priority == topReadyPriority
      && state.container[current] == Ready(topReadyPriority)
      && forall t :: t in state.container && state.container[t].Ready? ==>
        t in tcb && tcb[t].priority <= topReadyPriority
    }

    /** The loop of taskSELECT_HIGHEST_PRIORITY_TASK. */
    method HighestReadyPriority() returns (topPriority: nat)
      requires state.Linked() && ReadyOk(state.container, tcb, topReadyPriority) && SomeReady()
      ensures state.Of(Ready(topPriority)) != [] && ReadyOk(state.container, tcb, topPriority)
      ensures topPriority <= topReadyPriority
    {
      hide ReadyOk, Lists.Linked;
      ghost var ready :| ready in state.container && state.container[ready].Ready?;
      topPriority := topReadyPriority;
      TopNotBelow(state, tcb, topPriority, ready);
      while state.Of(Ready(topPriority)) == []
        invariant state.container[ready].priority <= topPriority <= topReadyPriority
        invariant ReadyOk(state.container, tcb, topPriority) && state.Of(state.container[ready]) != []
        decreases topPriority
      {
        LowerTop(state, tcb, topPriority);
        topPriority := topPriority - 1;
      }
    }

    /** taskSELECT_HIGHEST_PRIORITY_TASK. */
    method SelectHighestPriorityTask()
      requires TasksOk() && SleepOk(time + 1) && SomeReady()
      modifies this`current, this`topReadyPriority, this`state
      ensures TasksOk() && SleepOk(time + 1) && HighestRuns() && state.container == old(state).container
      ensures var was, l := old(state), Ready(topReadyPriority);
        was.Of(l) != [] && state == was.Served(l) && current == was.Of(l)[was.NextPlace(l)]
    {
      hide TasksAre, DueOk, ReadyOk, EventOk, SortedBy, Lists.Linked, Lists.Served, Lists.NextPlace, SomeReady;
      TopRecorded();
      var topPriority := HighestReadyPriority();
      ServedOk(Tasks(), stateValue, topPriority);
      current := state.Of(Ready(topPriority))[state.NextPlace(Ready(topPriority))];
      state := state.Served(Ready(topPriority));
      topReadyPriority := topPriority;
    }

    /** vTaskSwitchContext. Some task must be ready, as the idle task always is; then the
        task selected has the highest priority among the ready ones, and is the next one of
        its list to be served. */
    method SwitchContext()
      requires Valid() && SomeReady()
      modifies this`current, this`topReadyPriority, this`yieldPending, this`state
      ensures Valid() && state.container == old(state).container
      ensures schedulerSuspended != 0 ==> yieldPending && current == old(current) && state == old(state)
      ensures schedulerSuspended == 0 ==> !yieldPending && HighestRuns()
      ensures schedulerSuspended == 0 ==>
        var was, l := old(state), Ready(topReadyPriority);
        was.Of(l) != [] && state == was.Served(l) && current == was.Of(l)[was.NextPlace(l)]
    {
      hide TasksOk, SleepOk, NextOk, WholeWraps, EpochOk, NonePending, HighestRuns, SomeReady;
      hide Lists.Served, Lists.NextPlace;
      if schedulerSuspended != 0 {
        yieldPending := true;
      } else {
        yieldPending := false;
        SelectHighestPriorityTask();
      }
    }

    lemma TopRecorded()
      requires TasksOk()
      ensures state.Linked() && ReadyOk(state.container, tcb, topReadyPriority)
    {
    }

    /** Time slicing: as many switches in a row as there are ready tasks of the highest
        priority give each of them one turn, in the order of their list from the index on. */
    method TakeTurns() returns (turns: seq<Task>)
      requires Valid() && schedulerSuspended == 0 && SomeReady()
      modifies this`current, this`topReadyPriority, this`yieldPending, this`state
      ensures Valid() && state.container == old(state).container && HighestRuns()
      ensures var was, l := old(state), Ready(topReadyPriority);
        && was.Linked() && was.Of(l) != [] && turns == Rotation(was.Of(l), was.IndexPlace(l)) && turns != []
        && state == was.ServedTimes(l, |turns|) && current == turns[|turns| - 1]
        && |turns| == |was.Of(l)| && multiset(turns) == multiset(was.Of(l))
    {
      hide Valid, Lists.Linked, Lists.Served, Lists.NextPlace, Rotation;
      ghost var was := state;
      InOrderNow();
      SwitchContext();
      ghost var top := topReadyPriority;
      ghost var l, s, k := Ready(top), was.Of(Ready(top)), was.IndexPlace(Ready(top));
      turns := [current];
      OneTurn(was, l, 1);
      for i := 1 to |state.Of(Ready(topReadyPriority))|
        invariant Valid() && topReadyPriority == top && state == was.ServedTimes(l, i) && HighestRuns()
        invariant |turns| == i && turns == Rotation(s, k)[..i] && current == turns[i - 1]
      {
        SwitchContext();
        OneTurn(was, l, i + 1);
        turns := turns + [current];
      }
      AllTurns(was, l);
    }

    lemma InOrderNow()
      requires Valid()
      ensures state.Linked()
    {
    }

    ghost predicate MutexesOk()
      reads `mutexes, `tcb
    {
      MutexesAre(mutexes, tcb)
    }

    /** The writes that xTaskPriorityInherit and vTaskPriorityDisinheritAfterTimeout share. */
    method Reprioritise(t: Task, p: nat)
      requires TasksOk() && SleepOk(time + 1) && t in tcb && p < maxPriorities
      modifies this`tcb, this`eventValue, this`state, this`topReadyPriority
      ensures TasksOk() && SleepOk(time + 1) && tcb == old(tcb)[t := old(tcb)[t].(priority := p)]
      ensures t in old(state.container) && state.container == Requeued(old(state.container), t, p)
    {
      hide TasksAre, DueOk, EventOk, SortedBy, Lists.Linked, Lists.Remove, Lists.InsertEnd;
      RepriorityOk(Tasks(), stateValue, t, p);
      ReadiedDueOk(state.container, ThisEpoch(), time + 1, t, p);
      eventValue := eventValue[t := maxPriorities - p];
      if state.container[t] == Ready(tcb[t].priority) {
        state := state.Remove(t);
        tcb := tcb[t := tcb[t].(priority := p)];
        AddTaskToReadyList(t);
      } else {
        tcb := tcb[t := tcb[t].(priority := p)];
      }
    }

    /** A task gets another priority, and a ready task the ready list that goes with it. */
    method ChangePriority(t: Task, p: nat)
      requires Valid() && t in tcb && p < maxPriorities
      modifies this`tcb, this`eventValue, this`state, this`topReadyPriority
      ensures Valid() && tcb == old(tcb)[t := old(tcb)[t].(priority := p)]
      ensures t in old(state.container) && state.container == Requeued(old(state.container), t, p)
    {
      hide TasksOk, SleepOk, NextOk, WholeWraps, EpochOk, NonePending;
      ReadiedNextOk(state.container, Delayed(), stateValue, nextTaskUnblockTime, t, p);
      Reprioritise(t, p);
    }

    lemma PrioritiesBounded()
      requires TasksOk()
      ensures state.container.Keys == tcb.Keys
      ensures forall t :: t in tcb ==> tcb[t].priority < maxPriorities
    {
    }

    lemma InPlace(t: Task)
      requires TasksOk() && t in tcb
      ensures t in state.container && Requeued(state.container, t, tcb[t].priority) == state.container
    {
    }

    /** xTaskPriorityInherit: a holder of lower priority gets the running task's priority. */
    method PriorityInherit(holder: Task) returns (inherited: bool)
      requires Valid() && MutexesOk() && holder in tcb && tcb[holder].mutexesHeld > 0 && current in tcb
      modifies this`tcb, this`eventValue, this`state, this`topReadyPriority
      ensures Valid() && MutexesOk() && holder in old(state.container)
      ensures inherited <==> old(tcb)[holder].basePriority < old(tcb)[current].priority
      ensures var p := old(tcb)[current].priority;
        if old(tcb)[holder].priority < p then
          tcb == old(tcb)[holder := old(tcb)[holder].(priority := p)]
            && state.container == Requeued(old(state.container), holder, p)
        else
          tcb == old(tcb) && state == old(state)
    {
      hide TasksAre, MutexesAre, DueOk, EventOk, SortedBy, Lists.Linked, Lists.Remove;
      hide Lists.InsertEnd, NextOk, WholeWraps, EpochOk, NonePending, Requeued;
      PrioritiesBounded();
      HolderAboveBase(mutexes, tcb, holder);
      if tcb[holder].priority < tcb[current].priority {
        HolderRepriorityOk(mutexes, tcb, holder, tcb[current].priority);
        ChangePriority(holder, tcb[current].priority);
        inherited := true;
      } else {
        inherited := tcb[holder].basePriority < tcb[current].priority;
      }
    }

    /** xTaskPriorityDisinherit. Only the running task may give a mutex back. */
    method PriorityDisinherit()
      requires Valid() && MutexesOk() && current in tcb && tcb[current].mutexesHeld > 0
      requires current in state.container && state.container[current].Ready?
      modifies this`tcb, this`eventValue, this`state, this`topReadyPriority
      ensures Valid() && current in old(tcb) && old(tcb)[current].mutexesHeld > 0 && current in old(state.container)
      ensures tcb == old(tcb)[current := Disinherited(old(tcb)[current])]
      ensures state.container == Requeued(old(state.container), current, tcb[current].priority)
    {
      hide TasksAre, MutexesAre, DueOk, EventOk, SortedBy, Lists.Linked, Lists.Remove;
      hide Lists.InsertEnd, NextOk, WholeWraps, EpochOk, NonePending, Requeued;
      PrioritiesBounded();
      HolderAboveBase(mutexes, tcb, current);
      InPlace(current);
      HeldCountOk(Tasks(), current, tcb[current].mutexesHeld - 1);
      tcb := tcb[current := tcb[current].(mutexesHeld := tcb[current].mutexesHeld - 1)];
      if tcb[current].priority != tcb[current].basePriority {
        if tcb[current].mutexesHeld == 0 {
          ChangePriority(current, tcb[current].basePriority);
        }
      }
    }

    /** The critical section of xQueueSemaphoreTake that takes a mutex when it can. */
    method TakeMutex(m: nat) returns (taken: bool)
      requires Valid() && MutexesOk() && m in mutexes && current in tcb
      modifies this`mutexes, this`tcb
      ensures Valid() && MutexesOk()
      ensures taken <==> old(mutexes)[m].holder == None
      ensures taken ==> tcb == old(tcb)[current := old(tcb)[current].(mutexesHeld := old(tcb)[current].mutexesHeld + 1)]
      ensures taken ==> mutexes == old(mutexes)[m := Mutex(0, Some(current))]
      ensures !taken ==> tcb == old(tcb) && mutexes == old(mutexes)
    {
      hide TasksAre, MutexesAre, DueOk, EventOk, SortedBy, Lists.Linked, Lists.Remove;
      hide Lists.InsertEnd, NextOk, WholeWraps, EpochOk, NonePending, Requeued;
      FreeOrHeld(mutexes, tcb, m);
      taken := mutexes[m].count > 0;
      if taken {
        TakenOk(mutexes, tcb, m, current);
        HeldCountOk(Tasks(), current, tcb[current].mutexesHeld + 1);
        mutexes := mutexes[m := Mutex(mutexes[m].count - 1, Some(current))];
        tcb := tcb[current := tcb[current].(mutexesHeld := tcb[current].mutexesHeld + 1)];
      }
    }

    /** The running task blocks on a mutex that another task holds, and lends it its
        priority. */
    method BlockOnMutex(m: nat, ticksToWait: nat) returns (inherited: bool)
      requires Valid() && MutexesOk() && m in mutexes && mutexes[m].holder.Some? && mutexes[m].holder.value != current
      requires current in tcb && current in state.container && state.container[current].Ready?
      requires 0 < ticksToWait <= maxDelay
      requires schedulerSuspended > 0
      modifies this`tcb, this`eventValue, this`topReadyPriority
      modifies this`state, this`event, this`stateValue, this`due, this`nextTaskUnblockTime
      ensures Valid() && MutexesOk()
      ensures var h := mutexes[m].holder.value;
        && h in tcb && h in old(tcb) && current in old(tcb) && tcb[h].priority >= old(tcb)[current].priority
        && tcb == old(tcb)[h := old(tcb)[h].(priority := AtLeast(old(tcb)[h].priority, old(tcb)[current].priority))]
        && (inherited <==> old(tcb)[h].basePriority < old(tcb)[current].priority)
      ensures event.container == old(event.container)[current := Object(m)]
      ensures QueuedByPriority(old(event), event, tcb, Object(m), current)
      ensures
        var h := mutexes[m].holder.value;
        var l := BlockedIn(tickCount, ticksToWait, true, Delayed(), Overflow(), maxDelay);
        && h in old(tcb) && h in old(state.container) && current in tcb
        && var c := if old(tcb)[h].priority < tcb[current].priority
          then Requeued(old(state.container), h, tcb[current].priority) else old(state.container);
          && state.container == c[current := l]
          && due == if Asleep(l) then old(due)[current := time + ticksToWait] else old(due)
    {
      hide Valid, MutexesAre, Requeued, BlockedIn, QueuedByPriority;
      TasksKnown();
      HolderCounts(mutexes, tcb, m);
      var holder := mutexes[m].holder.value;
      inherited := PriorityInherit(holder);
      StillReady(old(state.container), current, holder, old(tcb)[current].priority);
      WaitForEvent(m, ticksToWait);
    }

    /** prvGetDisinheritPriorityAfterTimeout: the priority of the first task that still waits. */
    function FirstWaiterPriority(m: nat): (p: nat)
      requires event.Of(Object(m)) != [] ==>
        event.Of(Object(m))[0] in eventValue && eventValue[event.Of(Object(m))[0]] <= maxPriorities
      reads this`event, this`eventValue
    {
      if event.Of(Object(m)) == [] then 0 else maxPriorities - eventValue[event.Of(Object(m))[0]]
    }

    /** A task that waited for a mutex gives up. The holder keeps what it inherited only as
        far as the first task that still waits needs it, unless it holds other mutexes. */
    method DisinheritAfterTimeout(m: nat)
      requires Valid() && MutexesOk() && m in mutexes && mutexes[m].holder != Some(current)
      modifies this`tcb, this`eventValue, this`state, this`topReadyPriority
      ensures Valid() && MutexesOk()
      ensures mutexes[m].holder == None ==> tcb == old(tcb) && state == old(state)
      ensures mutexes[m].holder.Some? ==>
        var h, waiters := mutexes[m].holder.value, event.Of(Object(m));
        && h in old(tcb) && h in old(state.container) && (waiters != [] ==> waiters[0] in old(tcb))
        && var p := AtLeast(old(tcb)[h].basePriority, if waiters == [] then 0 else old(tcb)[waiters[0]].priority);
          if old(tcb)[h].mutexesHeld == 1 then
            tcb == old(tcb)[h := old(tcb)[h].(priority := p)] && state.container == Requeued(old(state.container), h, p)
          else
            tcb == old(tcb) && state == old(state)
    {
      hide TasksAre, MutexesAre, DueOk, EventOk, SortedBy, Lists.Linked, Lists.Remove;
      hide Lists.InsertEnd, NextOk, WholeWraps, EpochOk, NonePending, Requeued;
      if event.Of(Object(m)) != [] {
        HeadPriority(Tasks(), Object(m));
      }
      PrioritiesBounded();
      var highestWaiting := FirstWaiterPriority(m);
      if mutexes[m].holder.Some? {
        HolderCounts(mutexes, tcb, m);
        var holder := mutexes[m].holder.value;
        HolderAboveBase(mutexes, tcb, holder);
        InPlace(holder);
        var toUse := if tcb[holder].basePriority < highestWaiting then highestWaiting else tcb[holder].basePriority;
        if tcb[holder].priority != toUse {
          if tcb[holder].mutexesHeld == 1 {
            HolderRepriorityOk(mutexes, tcb, holder, toUse);
            ChangePriority(holder, toUse);
          }
        }
      }
    }

    /** xQueueGenericSend on a mutex. A mutex that is free is a full queue; the holder is the
        running task, as xTaskPriorityDisinherit asserts. */
    method GiveMutex(m: nat) returns (given: bool)
      requires Valid() && MutexesOk() && m in mutexes && current in tcb
      requires current in state.container && state.container[current].Ready?
      requires mutexes[m].holder.Some? ==> mutexes[m].holder == Some(current)
      modifies this`tcb, this`eventValue, this`mutexes
      modifies this`state, this`event, this`topReadyPriority, this`yieldPending
      ensures Valid() && MutexesOk()
      ensures given <==> old(mutexes)[m].holder.Some?
      ensures !given ==> tcb == old(tcb) && mutexes == old(mutexes) && state == old(state) && event == old(event)
      ensures given ==>
        && mutexes == old(mutexes)[m := Mutex(1, None)]
        && current in old(tcb) && old(tcb)[current].mutexesHeld > 0
        && tcb == old(tcb)[current := Disinherited(old(tcb)[current])]
      ensures given ==>
        && current in old(state.container)
        && var waiters, c := old(event.Of(Object(m))), Requeued(old(state.container), current, tcb[current].priority);
          if waiters == [] then
            state.container == c && event == old(event)
          else if schedulerSuspended == 0 then
            && waiters[0] in tcb && state.container == c[waiters[0] := Ready(tcb[waiters[0]].priority)]
            && event.container == old(event.container) - {waiters[0]}
          else
            state.container == c && event.container == old(event.container)[waiters[0] := PendingReady]
    {
      hide TasksOk, TimeOk, CountOk, NonePending, MutexesAre, Requeued;
      TasksKnown();
      FreeOrHeld(mutexes, tcb, m);
      given := mutexes[m].count < 1;
      if given {
        GivenOk(mutexes, tcb, m, current);
        PriorityDisinherit();
        mutexes := mutexes[m := Mutex(mutexes[m].count + 1, None)];
        if event.Of(Object(m)) != [] {
          var higher := RemoveFromEventList(m);
        }
      }
    }

    predicate Runs()
      reads this`state, this`current
    {
      current in state.container && state.container[current].Ready?
    }

    ghost function Now(): (m: Moment)
      reads this
    {
      Moment(time, pendedTicks, due, state.container, event, schedulerSuspended, current, tcb, mutexes, maxPriorities)
    }

    lemma HighestNow()
      requires Valid() && HighestRuns()
      ensures Runs()
      ensures forall t :: t in state.container && state.container[t].Ready? ==>
        state.container[t].priority <= state.container[current].priority
    {
    }

    /** The tick interrupt comes. */
    method TickEvent(e: Event)
      requires Valid() && MutexesOk() && e.Tick?
      modifies this
      ensures Valid() && MutexesOk() && interrupts == old(interrupts) + 1
      ensures Step(e, old(Now()), Now(), maxDelay)
    {
      hide Valid, MutexesAre, Keeps, SleepAfter, WokeAtLeast, WokenBy, EventsLeft;
      TasksKnown();
      SleepersAreLaterNow();
      ghost var was := Now();
      var yieldRequired := TickInterrupt();
      if schedulerSuspended == 0 {
        WokenKept(was, Now(), tcb);
      } else {
        AllKept(was, Now());
      }
    }

    /** The scheduler is suspended or resumed. */
    method ScheduleEvent(e: Event)
      requires Valid() && MutexesOk() && (e.SuspendsAll? || e.ResumesAll?)
      modifies this
      ensures Valid() && MutexesOk() && interrupts == old(interrupts)
      ensures Step(e, old(Now()), Now(), maxDelay)
    {
      hide Valid, MutexesAre, NonePending, EventOk, Keeps, SleepAfter, HighestRuns;
      hide WokeAtLeast, WokenBy, EventsLeft, Resumed;
      TasksKnown();
      NonePendingNow();
      SleepersAreLaterNow();
      ghost var was := Now();
      AllKept(was, was);
      if e.SuspendsAll? {
        SuspendAll();
        AllKept(was, Now());
      } else if schedulerSuspended > 0 {
        var yielded := ResumeAll();
        if schedulerSuspended == 0 {
          ResumedKept(was, Now(), tcb);
          ResumedDoes(was, Now(), tcb, maxDelay);
        } else {
          AllKept(was, Now());
        }
      }
    }

    /** The scheduler selects a task. */
    method SwitchEvent(e: Event)
      requires Valid() && MutexesOk() && e.Switches?
      modifies this
      ensures Valid() && MutexesOk() && interrupts == old(interrupts)
      ensures Step(e, old(Now()), Now(), maxDelay)
    {
      hide Valid, MutexesAre, NonePending, EventOk, Keeps, SleepAfter, HighestRuns;
      hide WokeAtLeast, WokenBy, EventsLeft, Resumed;
      TasksKnown();
      SleepersAreLaterNow();
      ghost var was := Now();
      AllKept(was, was);
      if exists t :: t in state.container && state.container[t].Ready? {
        assert SomeReady();
        SwitchContext();
        if schedulerSuspended == 0 {
          HighestNow();
        }
        AllKept(was, Now());
      }
    }

    /** The running task delays. */
    method DelayEvent(e: Event)
      requires Valid() && MutexesOk() && e.Delays?
      modifies this
      ensures Valid() && MutexesOk() && interrupts == old(interrupts)
      ensures Step(e, old(Now()), Now(), maxDelay)
    {
      hide Valid, MutexesAre, Step, SleepAfter;
      TasksKnown();
      SleepersAreLaterNow();
      ghost var was := Now();
      if Runs() && e.ticks <= maxDelay && schedulerSuspended == 0 {
        NotWaitingNow();
        Delay(e.ticks);
        OneMoves(e, was, Now(), current, maxDelay);
      } else {
        NobodyMoves(e, was, was, maxDelay);
      }
    }

    /** The running task waits for an event. */
    method WaitEvent(e: Event)
      requires Valid() && MutexesOk() && e.Waits?
      modifies this
      ensures Valid() && MutexesOk() && interrupts == old(interrupts)
      ensures Step(e, old(Now()), Now(), maxDelay)
    {
      hide Valid, MutexesAre, BlockedIn, Step, SleepAfter, Does, QueuedByPriority;
      TasksKnown();
      SleepersAreLaterNow();
      ghost var was := Now();
      if Runs() && 0 < e.ticks <= maxDelay && schedulerSuspended > 0 {
        BlockedInIs(tickCount, e.ticks, Delayed(), Overflow(), maxDelay);
        WaitForEvent(e.eventList, e.ticks);
        WaitDoes(was, Now(), e.eventList, e.ticks, maxDelay);
        OneMoves(e, was, Now(), current, maxDelay);
      } else {
        WaitDoes(was, was, e.eventList, e.ticks, maxDelay);
        NobodyMoves(e, was, was, maxDelay);
      }
    }

    /** An event comes, for the first task that waits for it. */
    method WakeEvent(e: Event)
      requires Valid() && MutexesOk() && e.Wakes?
      modifies this
      ensures Valid() && MutexesOk() && interrupts == old(interrupts)
      ensures Step(e, old(Now()), Now(), maxDelay)
    {
      hide Valid, MutexesAre, Step, SleepAfter;
      TasksKnown();
      SleepersAreLaterNow();
      ghost var was := Now();
      if event.Of(Object(e.eventList)) != [] {
        var higher := RemoveFromEventList(e.eventList);
        OneMoves(e, was, Now(), was.event.Of(Object(e.eventList))[0], maxDelay);
      } else {
        NobodyMoves(e, was, was, maxDelay);
      }
    }

    /** A suspended task is resumed. */
    method ResumeEvent(e: Event)
      requires Valid() && MutexesOk() && (e.Resumes? || e.ResumesFromISR?)
      modifies this
      ensures Valid() && MutexesOk() && interrupts == old(interrupts)
      ensures Step(e, old(Now()), Now(), maxDelay)
    {
      hide Valid, MutexesAre, Step, SleepAfter;
      TasksKnown();
      SleepersAreLaterNow();
      ghost var was := Now();
      if e.t in tcb {
        match e {
          case Resumes(t) => Resume(t);
          case ResumesFromISR(t) => var yieldRequired := ResumeFromISR(t);
        }
      }
      if OnlySuspended(was, e.t) {
        OneMoves(e, was, Now(), e.t, maxDelay);
      } else {
        NobodyMoves(e, was, Now(), maxDelay);
      }
    }

    /** A task is created. */
    method CreateEvent(e: Event)
      requires Valid() && MutexesOk() && e.Creates?
      modifies this
      ensures Valid() && MutexesOk() && interrupts == old(interrupts)
      ensures Step(e, old(Now()), Now(), maxDelay)
    {
      hide Valid, MutexesAre, Step, SleepAfter;
      TasksKnown();
      SleepersAreLaterNow();
      ghost var was := Now();
      if e.t !in tcb && e.priority < maxPriorities {
        NewTaskOk(mutexes, tcb, e.t, e.priority);
        AddNewTaskToReadyList(e.t, e.priority);
        OneMoves(e, was, Now(), e.t, maxDelay);
      } else {
        NobodyMoves(e, was, was, maxDelay);
      }
    }

    /** A task is suspended. */
    method SuspendEvent(e: Event)
      requires Valid() && MutexesOk() && e.Suspends?
      modifies this
      ensures Valid() && MutexesOk() && interrupts == old(interrupts)
      ensures Step(e, old(Now()), Now(), maxDelay)
    {
      hide Valid, MutexesAre, Step, SleepAfter;
      TasksKnown();
      SleepersAreLaterNow();
      ghost var was := Now();
      if e.t in tcb && state.container[e.t] != Termination && (e.t == current ==> schedulerSuspended == 0) {
        Suspend(e.t);
        OneMoves(e, was, Now(), e.t, maxDelay);
      } else {
        NobodyMoves(e, was, was, maxDelay);
      }
    }

    /** A task that holds no mutex is deleted. */
    method DeleteEvent(e: Event)
      requires Valid() && MutexesOk() && e.Deletes?
      modifies this
      ensures Valid() && MutexesOk() && interrupts == old(interrupts)
      ensures Step(e, old(Now()), Now(), maxDelay)
    {
      hide Valid, MutexesAre, Step, SleepAfter;
      TasksKnown();
      SleepersAreLaterNow();
      ghost var was := Now();
      if && e.t in tcb && state.container[e.t] != Termination && tcb[e.t].mutexesHeld == 0
         && (e.t == current ==> schedulerSuspended == 0) {
        Delete(e.t);
        OneMoves(e, was, Now(), e.t, maxDelay);
      } else {
        NobodyMoves(e, was, was, maxDelay);
      }
    }

    /** The idle task frees the tasks that deleted themselves. */
    method IdleEvent(e: Event)
      requires Valid() && MutexesOk() && e.Idles?
      modifies this
      ensures Valid() && MutexesOk() && interrupts == old(interrupts)
      ensures Step(e, old(Now()), Now(), maxDelay)
    {
      hide Valid, MutexesAre, Keeps, SleepAfter;
      TasksKnown();
      SleepersAreLaterNow();
      ghost var was := Now();
      AllKept(was, was);
      if state.container[current] != Termination && TerminatedHoldNone() {
        ghost var tasks := tcb;
        CheckTasksWaitingTermination();
        TasksKnown();
        GoneTasksOk(mutexes, tasks, tcb);
        FreedKept(was, Now());
      }
    }

    /** A task takes a mutex, or gives up waiting for it. */
    method TakeEvent(e: Event)
      requires Valid() && MutexesOk() && (e.TakesMutex? || e.TimesOut?)
      modifies this
      ensures Valid() && MutexesOk() && interrupts == old(interrupts)
      ensures Step(e, old(Now()), Now(), maxDelay)
    {
      hide Valid, MutexesAre, Step, SleepAfter;
      TasksKnown();
      SleepersAreLaterNow();
      ghost var was := Now();
      match e {
        case TakesMutex(m) =>
          if m in mutexes && Runs() {
            var taken := TakeMutex(m);
          }
        case TimesOut(m) =>
          if m in mutexes && mutexes[m].holder != Some(current) {
            DisinheritAfterTimeout(m);
          }
      }
      NobodyMoves(e, was, Now(), maxDelay);
    }

    method Lend(e: Event)
      requires Valid() && MutexesOk() && e.BlocksOnMutex? && CanLend(Now(), e.m, e.ticks, maxDelay) && current in tcb
      requires SleepAfter(state.container, due, time)
      modifies this`tcb, this`eventValue, this`topReadyPriority
      modifies this`state, this`event, this`stateValue, this`due, this`nextTaskUnblockTime
      ensures Valid() && MutexesOk() && Step(e, old(Now()), Now(), maxDelay)
    {
      hide Valid, MutexesAre, BlockedIn, Step, SleepAfter, Requeued, MovedOnly, Names, Does, QueuedByPriority;
      ghost var was := Now();
      BlockedInIs(tickCount, e.ticks, Delayed(), Overflow(), maxDelay);
      var inherited := BlockOnMutex(e.m, e.ticks);
      RequeuedMoves(was.container, state.container, current, mutexes[e.m].holder.value, tcb[current].priority);
      LendDoes(was, Now(), e.m, e.ticks, maxDelay);
      OneMoves(e, was, Now(), current, maxDelay);
    }

    /** The running task blocks on a mutex and lends the holder its priority. */
    method LendEvent(e: Event)
      requires Valid() && MutexesOk() && e.BlocksOnMutex?
      modifies this
      ensures Valid() && MutexesOk() && interrupts == old(interrupts)
      ensures Step(e, old(Now()), Now(), maxDelay)
    {
      hide Valid, MutexesAre, Step, SleepAfter;
      TasksKnown();
      SleepersAreLaterNow();
      if && e.m in mutexes && mutexes[e.m].holder.Some? && mutexes[e.m].holder.value != current
         && Runs() && 0 < e.ticks <= maxDelay && schedulerSuspended > 0 {
        Lend(e);
      } else {
        NobodyMoves(e, Now(), Now(), maxDelay);
      }
    }

    /** The running task gives a mutex back. */
    method GiveEvent(e: Event)
      requires Valid() && MutexesOk() && e.GivesMutex?
      modifies this
      ensures Valid() && MutexesOk() && interrupts == old(interrupts)
      ensures Step(e, old(Now()), Now(), maxDelay)
    {
      hide Valid, MutexesAre, Step, SleepAfter, Requeued, MovedOnly, MovedAmongReady, Disinherited;
      TasksKnown();
      SleepersAreLaterNow();
      ghost var was := Now();
      if e.m in mutexes && Runs() && (mutexes[e.m].holder.Some? ==> mutexes[e.m].holder == Some(current)) {
        var given := GiveMutex(e.m);
        if given && was.event.Of(Object(e.m)) != [] {
          RequeuedMoves(was.container, state.container, was.event.Of(Object(e.m))[0], current, tcb[current].priority);
          OneMoves(e, was, Now(), was.event.Of(Object(e.m))[0], maxDelay);
        } else {
          RequeuedOnly(was.container, state.container, current, tcb[current].priority);
          NobodyMoves(e, was, Now(), maxDelay);
        }
      } else {
        RequeuedOnly(was.container, was.container, current, 0);
        NobodyMoves(e, was, was, maxDelay);
      }
    }

    /** What one event does. An event that cannot happen in the state it meets is left out;
        so is the deletion of a task that holds a mutex. Whatever happens, a task that the
        event does not name sleeps on until it is due, and is ready when it is. */
    method Happen(e: Event)
      requires Valid() && MutexesOk()
      modifies this
      ensures Valid() && MutexesOk() && interrupts == old(interrupts) + (if e.Tick? then 1 else 0)
      ensures Step(e, old(Now()), Now(), maxDelay)
    {
      hide Valid, MutexesAre, Step;
      if e.Tick? {
        TickEvent(e);
      } else if e.SuspendsAll? || e.ResumesAll? {
        ScheduleEvent(e);
      } else if e.Switches? {
        SwitchEvent(e);
      } else if e.Delays? {
        DelayEvent(e);
      } else if e.Waits? {
        WaitEvent(e);
      } else if e.Wakes? {
        WakeEvent(e);
      } else if e.Resumes? || e.ResumesFromISR? {
        ResumeEvent(e);
      } else if e.Creates? {
        CreateEvent(e);
      } else if e.Suspends? {
        SuspendEvent(e);
      } else if e.Deletes? {
        DeleteEvent(e);
      } else if e.Idles? {
        IdleEvent(e);
      } else if e.TakesMutex? || e.TimesOut? {
        TakeEvent(e);
      } else if e.BlocksOnMutex? {
        LendEvent(e);
      } else {
        GiveEvent(e);
      }
    }

    predicate TerminatedHoldNone()
      requires state.container.Keys == tcb.Keys
      reads this`state, this`tcb
    {
      forall t :: t in state.container && state.container[t] == Termination ==> tcb[t].mutexesHeld == 0
    }

    /** vTaskPlaceOnEventList, as a call of its own. */
    method WaitForEvent(eventList: nat, ticksToWait: nat)
      requires Valid() && Runs() && 0 < ticksToWait <= maxDelay && schedulerSuspended > 0
      modifies this`state, this`event, this`stateValue, this`due, this`nextTaskUnblockTime
      ensures Valid() && event.container == old(event.container)[current := Object(eventList)]
      ensures QueuedByPriority(old(event), event, tcb, Object(eventList), current)
      ensures state.container
        == old(state.container)[current := BlockedIn(tickCount, ticksToWait, true, Delayed(), Overflow(), maxDelay)]
      ensures due == if Asleep(state.container[current]) then old(due)[current := time + ticksToWait] else old(due)
    {
      hide TasksOk, TimeOk, NonePending, BlockedIn, QueuedByPriority;
      PlaceOnEventList(eventList, ticksToWait);
    }

    /** vTaskDelete. */
    method Delete(t: Task)
      requires Valid() && MutexesOk() && t in tcb && t in state.container && state.container[t] != Termination
      requires tcb[t].mutexesHeld == 0
      requires t == current ==> schedulerSuspended == 0
      modifies this`tcb, this`state, this`event
      modifies this`numberOfTasks, this`nextTaskUnblockTime, this`deletedWaitingCleanUp
      ensures Valid() && MutexesOk()
      ensures event.container == old(event.container) - {t}
      ensures old(current) != t ==> tcb == old(tcb) - {t} && state.container == old(state.container) - {t}
      ensures old(current) == t ==> tcb == old(tcb) && state.container == old(state.container)[t := Termination]
    {
      hide Valid, MutexesAre;
      if t != current {
        GoneTaskOk(mutexes, tcb, t);
        DeleteOther(t);
      } else {
        DeleteSelf();
      }
    }

    /** Whatever happens, in whatever order, the kernel keeps its lists, its mutexes and its
        count of ticks, and every sleeper its time: it is ready, and not before, once the
        time it is due at is reached. The ghost result is what each event met, and the end. */
    method Run(events: seq<Event>) returns (ghost trace: seq<Moment>)
      requires Valid() && MutexesOk()
      modifies this
      ensures Valid() && MutexesOk() && interrupts == old(interrupts) + TicksIn(events)
      ensures |trace| == |events| + 1 && trace[0] == old(Now()) && trace[|events|] == Now()
      ensures Follows(events, trace, maxDelay)
      ensures forall i, k, t ::
        0 <= i <= k <= |events| && Sleeps(trace[i], t) && Spared(events, trace, t, i, k) ==>
          OnTime(trace[i], trace[k], t)
    {
      hide Valid, MutexesAre, Step, Sleeps, Spared, OnTime, Sound;
      trace := [Now()];
      SoundNow();
      for i := 0 to |events|
        invariant Valid() && MutexesOk() && interrupts == old(interrupts) + TicksIn(events[..i])
        invariant |trace| == i + 1 && trace[0] == old(Now()) && trace[i] == Now()
        invariant Follows(events, trace, maxDelay)
      {
        assert events[..i + 1][..i] == events[..i];
        Happen(events[i]);
        SoundNow();
        FollowsOn(events, trace, Now(), maxDelay);
        trace := trace + [Now()];
      }
      assert events[..|events|] == events;
      forall i, k, t | 0 <= i <= k <= |events| && Sleeps(trace[i], t) && Spared(events, trace, t, i, k)
        ensures OnTime(trace[i], trace[k], t)
      {
        WakesOnTime(events, trace, maxDelay, t, i, k);
      }
    }

    lemma SoundNow()
      requires Valid()
      ensures Sound(Now())
    {
      SleepersAreLaterNow();
    }

    /** Exact wake in any run: a task that delays for w ticks, and that nobody suspends or
        deletes, is ready before it next runs exactly from the w-th tick processed on. */
    method DelayThenRun(ticksToDelay: nat, events: seq<Event>) returns (ghost trace: seq<Moment>)
      requires Valid() && MutexesOk() && schedulerSuspended == 0 && Runs() && 0 < ticksToDelay <= maxDelay
      modifies this
      ensures Valid() && MutexesOk() && |trace| == |events| + 1 && trace[|events|] == Now()
      ensures trace[0].time == old(time) && trace[0].suspended == trace[0].pended == 0
      ensures Follows(events, trace, maxDelay)
      ensures forall k ::
        0 <= k <= |events| && LeftAlone(events, trace, old(current), old(time) + ticksToDelay, 0, k) ==>
        && old(current) in trace[k].container
        && (trace[k].container[old(current)].Ready? <==> trace[k].time >= old(time) + ticksToDelay)
    {
      hide Valid, MutexesAre, Names, Spared, OnTime, Follows, LeftAlone;
      ghost var t, wake := current, time + ticksToDelay;
      NotWaitingNow();
      BlockSuspended(ticksToDelay);
      trace := Run(events);
      forall k | 0 <= k <= |events| && LeftAlone(events, trace, t, wake, 0, k)
        ensures t in trace[k].container && (trace[k].container[t].Ready? <==> trace[k].time >= wake)
      {
        LeftAloneIsSpared(events, trace, maxDelay, t, wake, 0, k);
        OnTimeMeans(trace[0], trace[k], t);
      }
    }

    lemma NotWaitingNow()
      requires Valid() && Runs()
      ensures current !in event.container
    {
      EventsNow();
    }
  }
}
