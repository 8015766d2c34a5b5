/** Runs of the kernel: what its events do, as can be seen from one moment to the next, and
    what that means for a task that sleeps while others do as they like. */
module KernelRuns {
  import opened Arithmetic
  import opened TaskLists
  import opened KernelState
  import opened MutexState
  import opened Options

  datatype Event =
    | Tick
    | SuspendsAll
    | ResumesAll
    | Delays(ticks: nat)
    | Waits(eventList: nat, ticks: nat)
    | Wakes(eventList: nat)
    | Suspends(t: Task)
    | Resumes(t: Task)
    | ResumesFromISR(t: Task)
    | Creates(t: Task, priority: nat)
    | Deletes(t: Task)
    | Idles
    | Switches
    | TakesMutex(m: nat)
    | BlocksOnMutex(m: nat, ticks: nat)
    | TimesOut(m: nat)
    | GivesMutex(m: nat)

  /** How many ticks an event processes: one while the scheduler runs, and the pended ones
      when it resumes. */
  function TicksProcessed(e: Event, suspended: nat, pended: nat): (n: nat) {
    if e.Tick? && suspended == 0 then 1 else if e.ResumesAll? && suspended == 1 then pended else 0
  }

  /** How deep the scheduler is suspended after an event. */
  function SuspendedAfter(e: Event, suspended: nat): (n: nat) {
    if e.SuspendsAll? then suspended + 1 else if e.ResumesAll? && suspended > 0 then suspended - 1 else suspended
  }

  /** How many ticks are pended after an event: a tick is counted, in the word, while the
      scheduler is suspended, and the last resumption processes them all. */
  function PendedAfter(e: Event, suspended: nat, pended: nat, maxDelay: nat): (n: nat) {
    if e.Tick? && suspended > 0 then
      if pended == maxDelay then 0 else pended + 1
    else if e.ResumesAll? && suspended == 1 then
      0
    else
      pended
  }

  /** What a run can be observed by, before each of its events and at its end. */
  datatype Moment = Moment(time: nat, pended: nat, due: Ticks, container: Containers, event: Lists<EventList>,
                           suspended: nat, current: Task, tcb: Tcbs, mutexes: Mutexes, priorities: nat)

  /** What an event does to the time, to the suspension of the scheduler and to the ticks
      pended by it. Only a switch while the scheduler runs changes the running task. */
  ghost predicate Proceeds(e: Event, was: Moment, now: Moment, maxDelay: nat) {
    && now.time == was.time + TicksProcessed(e, was.suspended, was.pended)
    && now.suspended == SuspendedAfter(e, was.suspended)
    && now.pended == PendedAfter(e, was.suspended, was.pended, maxDelay)
    && (!e.Switches? || was.suspended > 0 ==> now.current == was.current)
  }

  /** The event unblocks, suspends or deletes the task by name: as the first waiter of a list
      that is woken, or as one whose wakeup was held pending until now. */
  ghost predicate Names(e: Event, m: Moment, t: Task) {
    match e
    case Suspends(x) => x == t
    case Deletes(x) => x == t
    case Wakes(l) => m.event.Of(Object(l)) != [] && m.event.Of(Object(l))[0] == t
    case GivesMutex(l) => m.event.Of(Object(l)) != [] && m.event.Of(Object(l))[0] == t
    case ResumesAll => m.suspended == 1 && t in m.event.container && m.event.container[t] == PendingReady
    case _ => false
  }

  /** The task waits where it waited, in the same lists, for the same time. */
  ghost predicate SleepsOn(was: Moment, now: Moment, t: Task) {
    && t in was.container && t in now.container && now.container[t] == was.container[t]
    && t in was.due && t in now.due && now.due[t] == was.due[t]
    && (t in was.event.container <==> t in now.event.container)
    && (t in was.event.container ==> now.event.container[t] == was.event.container[t])
  }

  /** A task that an event does not name sleeps on until it is due, and is ready from then
      on; one that is ready already stays so, unless it is the one that runs. */
  ghost predicate Keeps(was: Moment, now: Moment, t: Task) {
    t in was.container ==>
    && (Asleep(was.container[t]) ==>
          t in was.due && was.time < was.due[t]
          && if now.time < was.due[t] then SleepsOn(was, now, t) else t in now.container && now.container[t].Ready?)
    && (was.container[t].Ready? && t != was.current ==> t in now.container && now.container[t].Ready?)
  }

  predicate CanRun(m: Moment) {
    m.current in m.container && m.container[m.current].Ready?
  }

  /** The task sleeps until a time; nothing but that time, or another task, wakes it. */
  ghost predicate SleepsUntil(m: Moment, t: Task, wake: nat) {
    t in m.container && Asleep(m.container[t]) && t in m.due && m.due[t] == wake
  }

  /** The running task waits in an event list, until a time unless it waits without end. */
  ghost predicate WaitsIn(was: Moment, now: Moment, eventList: nat, ticks: nat, maxDelay: nat) {
    var t := was.current;
    && t in now.event.container && now.event.container[t] == Object(eventList)
    && if ticks == maxDelay then t in now.container && now.container[t] == Suspended
      else SleepsUntil(now, t, was.time + ticks)
  }

  /** The first waiter is ready, or held pending while the scheduler is suspended. */
  ghost predicate FirstWoken(was: Moment, now: Moment, eventList: nat) {
    was.event.Of(Object(eventList)) != [] ==>
    var t := was.event.Of(Object(eventList))[0];
    if was.suspended == 0 then
      t in now.container && now.container[t].Ready? && t !in now.event.container
    else
      t in now.event.container && now.event.container[t] == PendingReady
  }

  predicate OnlySuspended(m: Moment, t: Task) {
    t in m.container && m.container[t] == Suspended && t !in m.event.container
  }

  predicate CanDelete(m: Moment, t: Task) {
    && t in m.container && m.container[t] != Termination && t in m.tcb && m.tcb[t].mutexesHeld == 0
    && (t == m.current ==> m.suspended == 0)
  }

  predicate CanFree(m: Moment) {
    && m.current in m.container && m.container[m.current] != Termination
    && forall t :: t in m.container && m.container[t] == Termination ==> t in m.tcb && m.tcb[t].mutexesHeld == 0
  }

  /** The running task finds the mutex in the hands of another task. */
  predicate CanLend(was: Moment, m: nat, ticks: nat, maxDelay: nat) {
    && m in was.mutexes && was.mutexes[m].holder.Some? && was.mutexes[m].holder.value != was.current
    && CanRun(was) && 0 < ticks <= maxDelay && was.suspended > 0
  }

  /** The holder of the mutex runs at the priority of the task that waits for it, or higher. */
  ghost predicate Lent(was: Moment, now: Moment, m: nat) {
    && m in was.mutexes && was.mutexes[m].holder.Some? && was.mutexes[m].holder.value in now.tcb
    && was.current in was.tcb
    && now.tcb[was.mutexes[m].holder.value].priority >= was.tcb[was.current].priority
  }

  predicate Holds(was: Moment, m: nat) {
    CanRun(was) && m in was.mutexes && was.mutexes[m].holder == Some(was.current)
  }

  /** The holder of a mutex that nobody else keeps busy needs no more priority than its own
      and that of the first task that still waits. */
  ghost predicate Unlent(was: Moment, now: Moment, m: nat) {
    m in was.mutexes && was.mutexes[m].holder.Some? && was.mutexes[m].holder != Some(was.current) ==>
      var h, waiters := was.mutexes[m].holder.value, was.event.Of(Object(m));
      && h in was.tcb && (waiters != [] ==> waiters[0] in was.tcb)
      && var p := AtLeast(was.tcb[h].basePriority, if waiters == [] then 0 else was.tcb[waiters[0]].priority);
        now.tcb == if was.tcb[h].mutexesHeld == 1 then was.tcb[h := was.tcb[h].(priority := p)] else was.tcb
  }

  /** What an event does to the tasks it concerns, when it can happen in the state it meets. */
  ghost predicate Does(e: Event, was: Moment, now: Moment, maxDelay: nat) {
    match e
    case Delays(ticks) =>
      CanRun(was) && 0 < ticks <= maxDelay && was.suspended == 0 ==>
        SleepsUntil(now, was.current, was.time + ticks) && was.current !in now.event.container
    case Waits(l, ticks) =>
      CanRun(was) && 0 < ticks <= maxDelay && was.suspended > 0 ==> WaitsIn(was, now, l, ticks, maxDelay)
    case BlocksOnMutex(m, ticks) =>
      if CanLend(was, m, ticks, maxDelay) then WaitsIn(was, now, m, ticks, maxDelay) && Lent(was, now, m)
      else now.event.container == was.event.container
    case Wakes(l) =>
      FirstWoken(was, now, l)
    case GivesMutex(m) =>
      if Holds(was, m) then now.mutexes == was.mutexes[m := Mutex(1, None)] && FirstWoken(was, now, m)
      else now.mutexes == was.mutexes && now.event.container == was.event.container
    case Suspends(t) =>
      t in was.container && was.container[t] != Termination && (t == was.current ==> was.suspended == 0) ==>
        OnlySuspended(now, t)
    case Resumes(t) =>
      OnlySuspended(was, t) && t != was.current ==> t in now.container && now.container[t].Ready?
    case ResumesFromISR(t) =>
      OnlySuspended(was, t) ==>
        if was.suspended == 0 then t in now.container && now.container[t].Ready?
        else t in now.event.container && now.event.container[t] == PendingReady
    case ResumesAll =>
      was.suspended == 1 ==>
        forall t :: t in was.event.container && was.event.container[t] == PendingReady ==>
          t in now.container && now.container[t].Ready? && t !in now.event.container
    case Switches =>
      was.suspended == 0 && (exists t :: t in was.container && was.container[t].Ready?) ==>
        && CanRun(now)
        && forall t :: t in now.container && now.container[t].Ready? ==>
          now.container[t].priority <= now.container[now.current].priority
    case Creates(t, priority) =>
      if t !in was.container && priority < was.priorities then now.container == was.container[t := Ready(priority)]
      else now.container == was.container
    case Deletes(t) =>
      if CanDelete(was, t) then
        && t !in now.event.container
        && if t == was.current then t in now.container && now.container[t] == Termination else t !in now.container
      else now.container == was.container
    case Idles =>
      CanFree(was) ==> forall t :: t in now.container ==> now.container[t] != Termination
    case Tick =>
      was.suspended > 0 ==> now.container == was.container && now.event.container == was.event.container
    case TakesMutex(m) =>
      && now.event.container == was.event.container
      && now.mutexes == if CanRun(was) && m in was.mutexes && was.mutexes[m].holder == None
        then was.mutexes[m := Mutex(0, Some(was.current))] else was.mutexes
    case TimesOut(m) =>
      now.event.container == was.event.container && now.mutexes == was.mutexes && Unlent(was, now, m)
    case SuspendsAll =>
      now.container == was.container && now.event.container == was.event.container
  }

  lemma WaitDoes(was: Moment, now: Moment, l: nat, ticks: nat, maxDelay: nat)
    requires CanRun(was) && 0 < ticks <= maxDelay && was.suspended > 0 ==> WaitsIn(was, now, l, ticks, maxDelay)
    ensures Does(Waits(l, ticks), was, now, maxDelay)
  {
  }

  lemma LendDoes(was: Moment, now: Moment, m: nat, ticks: nat, maxDelay: nat)
    requires CanLend(was, m, ticks, maxDelay) && WaitsIn(was, now, m, ticks, maxDelay) && Lent(was, now, m)
    ensures Does(BlocksOnMutex(m, ticks), was, now, maxDelay)
  {
  }

  /** One step of a run. */
  ghost predicate Step(e: Event, was: Moment, now: Moment, maxDelay: nat) {
    Proceeds(e, was, now, maxDelay) && Does(e, was, now, maxDelay)
      && forall t :: !Names(e, was, t) ==> Keeps(was, now, t)
  }

  ghost predicate SameBut<V(!new)>(x: Task, was: map<Task, V>, now: map<Task, V>) {
    forall t :: t != x ==> (t in was <==> t in now) && (t in was && t in now ==> now[t] == was[t])
  }

  /** All but one task are where they were, or went from one ready list to another. */
  ghost predicate MovedOnly(x: Task, was: Containers, now: Containers) {
    forall t :: t != x && t in was ==> t in now && (now[t] == was[t] || (now[t].Ready? && was[t].Ready?))
  }

  /** A change of priority moves a task among the ready lists at most. */
  lemma RequeuedMoves(was: Containers, now: Containers, x: Task, h: Task, p: nat)
    requires h in was
    requires
      || now == was || now == Requeued(was, h, p)
      || (x in now && (now == was[x := now[x]] || now == Requeued(was, h, p)[x := now[x]]))
    ensures MovedOnly(x, was, now)
  {
  }

  lemma RequeuedOnly(was: Containers, now: Containers, h: Task, p: nat)
    requires now == was || (h in was && now == Requeued(was, h, p))
    ensures MovedAmongReady(was, now)
  {
  }

  ghost predicate MovedAmongReady(was: Containers, now: Containers) {
    forall t :: t in was ==> t in now && (now[t] == was[t] || (now[t].Ready? && was[t].Ready?))
  }

  /** An event that moves one task keeps all others; it keeps that one too, unless it was
      asleep, or ready to run. */
  lemma OthersKept(was: Moment, now: Moment, x: Task)
    requires SleepAfter(was.container, was.due, was.time) && now.time == was.time
    requires MovedOnly(x, was.container, now.container) && SameBut(x, was.event.container, now.event.container)
    requires SameBut(x, was.due, now.due)
    ensures forall t :: t != x ==> Keeps(was, now, t)
    ensures (x in was.container && (Asleep(was.container[x]) || (was.container[x].Ready? && x != was.current)))
      || Keeps(was, now, x)
  {
  }

  lemma AllKept(was: Moment, now: Moment)
    requires SleepAfter(was.container, was.due, was.time) && now.time == was.time
    requires now.container == was.container && now.event.container == was.event.container && now.due == was.due
    ensures forall t :: Keeps(was, now, t)
  {
  }

  /** Freeing tasks that deleted themselves keeps all others. */
  lemma FreedKept(was: Moment, now: Moment)
    requires SleepAfter(was.container, was.due, was.time) && now.time == was.time && now.event == was.event
    requires now.due == was.due
    requires forall t :: t in was.container && was.container[t] != Termination ==>
      t in now.container && now.container[t] == was.container[t]
    ensures forall t :: Keeps(was, now, t)
  {
  }

  /** Moving ready tasks among the ready lists keeps all tasks. */
  lemma RequeuedKept(was: Moment, now: Moment)
    requires SleepAfter(was.container, was.due, was.time) && now.time == was.time
    requires now.event.container == was.event.container && now.due == was.due
    requires MovedAmongReady(was.container, now.container)
    ensures forall t :: Keeps(was, now, t)
  {
  }

  /** The clock and the scheduler stand still, and the same task runs. */
  ghost predicate Still(was: Moment, now: Moment) {
    now.time == was.time && now.suspended == was.suspended && now.pended == was.pended && now.current == was.current
  }

  predicate OfTasks(e: Event) {
    !e.Tick? && !e.SuspendsAll? && !e.ResumesAll? && !e.Switches?
  }

  /** The step of an event that moves one task. */
  lemma OneMoves(e: Event, was: Moment, now: Moment, x: Task, maxDelay: nat)
    requires OfTasks(e) && Still(was, now) && SleepAfter(was.container, was.due, was.time)
    requires MovedOnly(x, was.container, now.container)
    requires SameBut(x, was.event.container, now.event.container) && SameBut(x, was.due, now.due)
    requires
      || Names(e, was, x) || x !in was.container
      || (!Asleep(was.container[x]) && (was.container[x].Ready? ==> x == was.current))
    requires Does(e, was, now, maxDelay)
    ensures Step(e, was, now, maxDelay)
  {
    hide Does, Keeps, SleepAfter, MovedOnly, SameBut;
    OthersKept(was, now, x);
  }

  /** The step of an event that moves nobody, but among the ready lists. */
  lemma NobodyMoves(e: Event, was: Moment, now: Moment, maxDelay: nat)
    requires OfTasks(e) && Still(was, now) && SleepAfter(was.container, was.due, was.time)
    requires now.event.container == was.event.container && now.due == was.due
    requires MovedAmongReady(was.container, now.container)
    requires Does(e, was, now, maxDelay)
    ensures Step(e, was, now, maxDelay)
  {
    hide Does, Keeps, SleepAfter, MovedAmongReady;
    RequeuedKept(was, now);
  }

  /** Ticks keep every task. */
  lemma WokenKept(was: Moment, now: Moment, tcb: Tcbs)
    requires SleepAfter(was.container, was.due, was.time) && was.container.Keys == tcb.Keys && now.due == was.due
    requires WokenBy(was.container, now.container, tcb, was.due, now.time)
    requires EventsLeft(was.event.container, now.event.container, was.container, now.container)
    ensures forall t :: Keeps(was, now, t)
  {
  }

  /** So does the resumption of the scheduler, but for the tasks held pending. */
  lemma ResumedKept(was: Moment, now: Moment, tcb: Tcbs)
    requires SleepAfter(was.container, was.due, was.time) && was.container.Keys == tcb.Keys && now.due == was.due
    requires Resumed(was.event.container, now.event.container, was.container, now.container, tcb, was.due, now.time)
    ensures forall t :: Keeps(was, now, t) || (t in was.event.container && was.event.container[t] == PendingReady)
  {
  }

  /** The resumption of the scheduler readies whoever was held pending. */
  lemma ResumedDoes(was: Moment, now: Moment, tcb: Tcbs, maxDelay: nat)
    requires EventOk(was.container, was.event.container) && was.container.Keys == tcb.Keys
    requires Resumed(was.event.container, now.event.container, was.container, now.container, tcb, was.due, now.time)
    ensures Does(ResumesAll, was, now, maxDelay)
  {
  }

  ghost predicate Sleeps(m: Moment, t: Task) {
    t in m.container && Asleep(m.container[t])
  }

  /** From one moment to a later one, the run neither names the task nor, after its time has
      come, lets it run. */
  ghost predicate Spared(events: seq<Event>, trace: seq<Moment>, t: Task, i: nat, k: nat)
    requires i <= k < |trace| && k <= |events|
  {
    forall j :: i <= j < k ==>
      !Names(events[j], trace[j], t)
        && (t in trace[i].due && trace[i].due[t] <= trace[j].time ==> trace[j].current != t)
  }

  /** The task is ready exactly when its time has come; until then it sleeps where it slept. */
  ghost predicate OnTime(first: Moment, now: Moment, t: Task) {
    && t in first.due && t in now.container
    && (now.container[t].Ready? <==> first.due[t] <= now.time)
    && (now.time < first.due[t] ==> SleepsOn(first, now, t))
  }

  lemma OnTimeMeans(first: Moment, now: Moment, t: Task)
    requires OnTime(first, now, t)
    ensures t in first.due && t in now.container && (now.container[t].Ready? <==> first.due[t] <= now.time)
  {
  }

  /** A task waits for an event only in one list, and while it is blocked; and whoever
      sleeps is due later. */
  ghost predicate Sound(m: Moment) {
    m.event.Linked() && EventOk(m.container, m.event.container) && SleepAfter(m.container, m.due, m.time)
  }

  /** The moments are those of a run of the events. */
  ghost predicate Follows(events: seq<Event>, trace: seq<Moment>, maxDelay: nat) {
    && 0 < |trace| <= |events| + 1 && (forall k :: 0 <= k < |trace| ==> Sound(trace[k]))
    && forall k :: 0 <= k < |trace| - 1 ==> Step(events[k], trace[k], trace[k + 1], maxDelay)
  }

  lemma FollowsOn(events: seq<Event>, trace: seq<Moment>, now: Moment, maxDelay: nat)
    requires Follows(events, trace, maxDelay) && |trace| <= |events| && Sound(now)
    requires Step(events[|trace| - 1], trace[|trace| - 1], now, maxDelay)
    ensures Follows(events, trace + [now], maxDelay)
  {
    hide Step, Sound;
  }

  /** Ticks are processed as they come while nobody suspends the scheduler. */
  lemma {:induction false} TimeCountsTicks(events: seq<Event>, trace: seq<Moment>, maxDelay: nat, k: nat)
    requires Follows(events, trace, maxDelay) && k < |trace| <= |events| + 1 && trace[0].suspended == 0
    requires forall j :: 0 <= j < k ==> events[j] != SuspendsAll
    ensures trace[k].suspended == 0 && trace[k].time == trace[0].time + TicksIn(events[..k])
  {
    hide Does, Keeps, Names, Follows, TicksIn;
    OneMoreEvent(events, k - 1);
    if k > 0 {
      TimeCountsTicks(events, trace, maxDelay, k - 1);
      FollowsStep(events, trace, maxDelay, k - 1);
    }
  }

  /** However deep the scheduler gets suspended, every tick of a run is processed, or pended
      in the word. */
  lemma {:induction false} TicksAreKept(events: seq<Event>, trace: seq<Moment>, maxDelay: nat, k: nat)
    requires Follows(events, trace, maxDelay) && k < |trace| <= |events| + 1 && trace[0].pended <= maxDelay
    ensures trace[k].pended <= maxDelay
    ensures Word(trace[k].time + trace[k].pended, maxDelay + 1)
      == Word(trace[0].time + trace[0].pended + TicksIn(events[..k]), maxDelay + 1)
  {
    hide Does, Keeps, Names, Follows, Proceeds, TicksIn, Word;
    OneMoreEvent(events, k - 1);
    if k > 0 {
      TicksAreKept(events, trace, maxDelay, k - 1);
      FollowsStep(events, trace, maxDelay, k - 1);
      var ticks := trace[0].time + trace[0].pended + TicksIn(events[..k - 1]);
      OneMoreTick(events[k - 1], trace[k - 1], trace[k], maxDelay, ticks);
    }
  }

  lemma OneMoreEvent(events: seq<Event>, k: int)
    requires -1 <= k < |events|
    ensures TicksIn(events[..k + 1]) ==
            if k == -1 then 0 else TicksIn(events[..k]) + (if events[k].Tick? then 1 else 0)
  {
    if k >= 0 {
      assert events[..k + 1][..k] == events[..k];
    }
  }

  lemma OneMoreTick(e: Event, was: Moment, now: Moment, maxDelay: nat, ticks: nat)
    requires Proceeds(e, was, now, maxDelay) && was.pended <= maxDelay
    requires Word(was.time + was.pended, maxDelay + 1) == Word(ticks, maxDelay + 1)
    ensures now.pended <= maxDelay
    ensures Word(now.time + now.pended, maxDelay + 1) == Word(ticks + (if e.Tick? then 1 else 0), maxDelay + 1)
  {
    if e.Tick? && maxDelay > 0 {
      WordStep(was.time + was.pended, 1, maxDelay + 1);
      WordStep(ticks, 1, maxDelay + 1);
      assert Word(was.time + maxDelay + 1, maxDelay + 1) == Word(was.time, maxDelay + 1);
    }
  }

  /** What one event keeps for a sleeper carries over from any moment of a run. */
  lemma StillOnTime(first: Moment, was: Moment, now: Moment, t: Task)
    requires Sleeps(first, t) && OnTime(first, was, t) && Keeps(was, now, t) && was.time <= now.time
    requires first.due[t] <= was.time ==> was.current != t
    ensures OnTime(first, now, t)
  {
  }

  lemma OnTimeAtFirst(first: Moment, t: Task)
    requires Sleeps(first, t) && SleepAfter(first.container, first.due, first.time)
    ensures OnTime(first, first, t)
  {
  }

  /** Exact wake: whoever sleeps at some moment of a run, and is spared from then on, is
      ready if and only if its due time has come, and sleeps on where it slept until then. */
  lemma {:induction false} WakesOnTime(events: seq<Event>, trace: seq<Moment>, maxDelay: nat, t: Task, i: nat, k: nat)
    requires Follows(events, trace, maxDelay) && i <= k < |trace|
    requires Sleeps(trace[i], t) && Spared(events, trace, t, i, k)
    ensures OnTime(trace[i], trace[k], t)
  {
    hide Does, Names, OnTime, Sleeps;
    assert Sound(trace[i]);
    if i == k {
      OnTimeAtFirst(trace[i], t);
    } else {
      WakesOnTime(events, trace, maxDelay, t, i, k - 1);
      assert Step(events[k - 1], trace[k - 1], trace[k], maxDelay);
      OnTimeMeans(trace[i], trace[k - 1], t);
      StillOnTime(trace[i], trace[k - 1], trace[k], t);
    }
  }

  /** From one moment to a later one, the run neither suspends nor deletes the task, nor,
      after its time has come, lets it run. */
  ghost predicate LeftAlone(events: seq<Event>, trace: seq<Moment>, t: Task, wake: nat, i: nat, k: nat)
    requires i <= k < |trace| && k <= |events|
  {
    forall j :: i <= j < k ==>
      events[j] != Suspends(t) && events[j] != Deletes(t) && (wake <= trace[j].time ==> trace[j].current != t)
  }

  /** Only a task that waits for an event can be woken by one. */
  lemma NotNamed(e: Event, first: Moment, m: Moment, t: Task)
    requires Sound(m) && OnTime(first, m, t) && t !in first.event.container && e != Suspends(t) && e != Deletes(t)
    ensures !Names(e, m, t)
  {
    if e.Wakes? && m.event.Of(Object(e.eventList)) != [] {
      assert m.event.Of(Object(e.eventList))[0] in m.event.Of(Object(e.eventList));
    }
    if e.GivesMutex? && m.event.Of(Object(e.m)) != [] {
      assert m.event.Of(Object(e.m))[0] in m.event.Of(Object(e.m));
    }
  }

  lemma {:induction false} LeftAloneIsSpared(events: seq<Event>, trace: seq<Moment>, maxDelay: nat, t: Task, wake: nat,
                                             i: nat, k: nat)
    requires Follows(events, trace, maxDelay) && i <= k < |trace|
    requires SleepsUntil(trace[i], t, wake) && t !in trace[i].event.container && LeftAlone(events, trace, t, wake, i, k)
    ensures Spared(events, trace, t, i, k)
  {
    hide Names, OnTime, Step;
    if i < k {
      LeftAloneIsSpared(events, trace, maxDelay, t, wake, i, k - 1);
      WakesOnTime(events, trace, maxDelay, t, i, k - 1);
      assert Sound(trace[k - 1]);
      NotNamed(events[k - 1], trace[i], trace[k - 1], t);
    }
  }

  /** A task that delays for w ticks at any point of a run, and that nobody suspends or
      deletes, is ready before it next runs exactly from the w-th tick processed on. */
  lemma DelayIsExact(events: seq<Event>, trace: seq<Moment>, maxDelay: nat, i: nat, k: nat, ticks: nat)
    requires Follows(events, trace, maxDelay) && i < k < |trace| && events[i] == Delays(ticks)
    requires CanRun(trace[i]) && 0 < ticks <= maxDelay && trace[i].suspended == 0
    requires LeftAlone(events, trace, trace[i].current, trace[i].time + ticks, i + 1, k)
    ensures var t := trace[i].current;
      t in trace[k].container && (trace[k].container[t].Ready? <==> trace[i].time + ticks <= trace[k].time)
  {
    FollowsStep(events, trace, maxDelay, i);
    hide Names, OnTime, Keeps;
    var t, wake := trace[i].current, trace[i].time + ticks;
    LeftAloneIsSpared(events, trace, maxDelay, t, wake, i + 1, k);
    WakesOnTime(events, trace, maxDelay, t, i + 1, k);
    OnTimeMeans(trace[i + 1], trace[k], t);
  }

  lemma FollowsStep(events: seq<Event>, trace: seq<Moment>, maxDelay: nat, k: nat)
    requires Follows(events, trace, maxDelay) && k + 1 < |trace|
    ensures Step(events[k], trace[k], trace[k + 1], maxDelay)
  {
  }

  ghost function TicksIn(events: seq<Event>): (n: nat) {
    if events == [] then 0 else TicksIn(events[..|events| - 1]) + (if events[|events| - 1].Tick? then 1 else 0)
  }
}
