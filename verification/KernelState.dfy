/** What the kernel of tasks.c keeps true of its lists, and how one task's move, or the
    passing of time, keeps it. */
module KernelState {
  import opened Arithmetic
  import opened SortedInsertion
  import opened RingLinks
  import opened TaskLists

  /** The list that holds a task's state item. */
  datatype StateList = Ready(priority: nat) | DelayedOne | DelayedTwo | Suspended | Termination

  /** The list that holds a task's event item, when one does. */
  datatype EventList = PendingReady | Object(id: nat)

  datatype Tcb = Tcb(priority: nat, basePriority: nat, mutexesHeld: nat)

  ghost function AllLists(maxPriorities: nat): (l: seq<StateList>) {
    if maxPriorities == 0 then [DelayedOne, DelayedTwo, Suspended, Termination]
    else AllLists(maxPriorities - 1) + [Ready(maxPriorities - 1)]
  }

  lemma {:induction false} AllListsAre(maxPriorities: nat)
    ensures NoDuplicates(AllLists(maxPriorities))
    ensures forall l :: l in AllLists(maxPriorities) <==> !l.Ready? || l.priority < maxPriorities
  {
    if maxPriorities > 0 {
      AllListsAre(maxPriorities - 1);
    }
  }

  type Tcbs = map<Task, Tcb>
  type Containers = map<Task, StateList>
  type Ticks = map<Task, nat>

  ghost predicate Asleep(l: StateList) {
    l.DelayedOne? || l.DelayedTwo?
  }

  /** Ready list p holds only tasks of priority p, and none above the recorded top. */
  ghost predicate ReadyOk(container: Containers, tcb: Tcbs, top: nat) {
    forall t :: t in container && container[t].Ready? ==> t in tcb && container[t].priority == tcb[t].priority <= top
  }

  /** A task waits for an event only while it is blocked. */
  ghost predicate EventOk(container: Containers, event: map<Task, EventList>) {
    forall t :: t in event ==> t in container && (Asleep(container[t]) || container[t].Suspended?)
  }

  ghost predicate NonePending(event: map<Task, EventList>) {
    forall t :: t in event ==> event[t] != PendingReady
  }

  /** The two delayed lists and what their item values say: `base` is the time at which the
      tick word was last zero. */
  datatype Epoch = Epoch(current: StateList, overflow: StateList, wake: Ticks, due: Ticks, base: nat, maxDelay: nat)

  /** What the wake times in the two delayed lists mean. `base` is the time at which the
      tick word was last zero, and nobody is due before `floor`. A task in the current
      list is due before the word wraps, at the tick its item value names; only a task
      that blocked for zero ticks is due one tick behind its item value. A task in the
      overflow list is due after the wrap. */
  ghost predicate DueOk(container: Containers, epoch: Epoch, floor: nat)
  {
    && (forall t :: t in container && container[t] == epoch.current ==>
          && t in epoch.wake && t in epoch.due && epoch.wake[t] <= epoch.maxDelay
          && floor <= epoch.due[t] <= epoch.base + epoch.maxDelay
          && (epoch.due[t] == epoch.base + epoch.wake[t]
              || (epoch.base + epoch.wake[t] < floor && epoch.due[t] == floor)))
    && (forall t :: t in container && container[t] == epoch.overflow ==>
          && t in epoch.wake && t in epoch.due && epoch.wake[t] <= epoch.maxDelay
          && epoch.due[t] == epoch.base + epoch.maxDelay + 1 + epoch.wake[t])
  }

  /** No sleeper of the current list wakes before the cached next unblock time. */
  ghost predicate NextOk(container: Containers, current: StateList, wake: Ticks, next: nat) {
    forall t :: t in container && container[t] == current ==> t in wake && next <= wake[t]
  }

  /** A number of ticks that leaves the tick word where it was. */
  ghost predicate WholeWraps(ticks: nat, maxDelay: nat) {
    Word(ticks, maxDelay + 1) == 0
  }

  lemma OneMoreWrap(ticks: nat, maxDelay: nat)
    requires WholeWraps(ticks, maxDelay)
    ensures WholeWraps(ticks + maxDelay + 1, maxDelay)
  {
  }

  lemma {:induction false} WrapsDropOut(ticks: nat, wraps: nat, maxDelay: nat)
    requires WholeWraps(wraps, maxDelay)
    ensures Word(ticks + wraps, maxDelay + 1) == Word(ticks, maxDelay + 1)
  {
    if wraps >= maxDelay + 1 {
      WrapsDropOut(ticks, wraps - maxDelay - 1, maxDelay);
    }
  }

  /** The effect of letting time reach `until`: exactly the sleepers due by then are ready,
      and every other state item is where it was. */
  ghost predicate WokenBy(was: Containers, now: Containers, tcb: Tcbs, due: Ticks, until: nat) {
    && now.Keys == was.Keys
    && forall t :: t in was ==>
         now[t] == (if Asleep(was[t]) && t in due && t in tcb && due[t] <= until then Ready(tcb[t].priority)
                    else was[t])
  }

  ghost predicate ItemValuesOk(tcb: Tcbs, eventValue: Ticks, maxPriorities: nat) {
    forall t :: t in tcb ==>
      t in eventValue && tcb[t].priority < maxPriorities && eventValue[t] == maxPriorities - tcb[t].priority
  }

  /** What the kernel keeps of its tasks. */
  datatype Kept = Kept(state: Lists<StateList>, event: Lists<EventList>, tcb: Tcbs, numberOfTasks: nat, current: Task,
                       eventValue: Ticks, maxPriorities: nat, top: nat, deleted: nat)

  /** Every task's state item is in one list, and what the lists, the TCBs and the counts
      say of the tasks agrees. */
  ghost predicate TasksAre(k: Kept) {
    && k.state.Linked() && k.event.Linked()
    && k.state.container.Keys == k.tcb.Keys && k.numberOfTasks == |k.tcb| && k.current in k.tcb
    && ItemValuesOk(k.tcb, k.eventValue, k.maxPriorities)
    && ReadyOk(k.state.container, k.tcb, k.top) && k.top < k.maxPriorities
    && k.deleted == |k.state.Of(Termination)|
  }

  function Detach(event: Lists<EventList>, t: Task): (r: Lists<EventList>)
    requires t in event.container ==> t in event.Of(event.container[t])
  {
    if t in event.container then event.Remove(t) else event
  }

  lemma WaiterDetached(event: Lists<EventList>, t: Task)
    requires t in event.container && t in event.Of(event.container[t])
    ensures Detach(event, t) == event.Remove(t)
  {
  }

  lemma DetachLinked(event: Lists<EventList>, t: Task)
    requires event.Linked()
    ensures t in event.container ==> t in event.Of(event.container[t])
    ensures Detach(event, t).Linked() && Detach(event, t).container == event.container - {t}
  {
    if t in event.container {
      event.RemoveLinked(t);
    }
  }

  /** A blocked task that moves to another list leaves the other lists in order. */
  lemma MovedLinked(state: Lists<StateList>, t: Task, l: StateList, wake: Ticks)
    requires state.Linked() && t in state.container && !Asleep(l)
    requires SortedBy(state.Of(DelayedOne), wake) && SortedBy(state.Of(DelayedTwo), wake)
    ensures t in state.Of(state.container[t]) && t !in state.Remove(t).container
    ensures var r := state.Remove(t).InsertEnd(l, t);
      && r.Linked() && r.container == state.container[t := l]
      && SortedBy(r.Of(DelayedOne), wake) && SortedBy(r.Of(DelayedTwo), wake)
      && (forall m ::
          |r.Of(m)| == |state.Of(m)| + (if m == l then 1 else 0) - (if m == state.container[t] then 1 else 0))
  {
    state.MoveLinked(t, l);
    state.MoveKeepsSorted(t, l, DelayedOne, wake);
    state.MoveKeepsSorted(t, l, DelayedTwo, wake);
  }

  /** A task that becomes ready leaves every condition on the lists as it was. */
  lemma ReadiedOk(container: Containers, event: map<Task, EventList>, tcb: Tcbs, top: nat,
                  maxPriorities: nat, eventValue: Ticks, t: Task)
    requires ReadyOk(container, tcb, top) && EventOk(container, event) && t in container && t in tcb
    requires ItemValuesOk(tcb, eventValue, maxPriorities)
    ensures tcb[t].priority < maxPriorities
    ensures var now, p := container[t := Ready(tcb[t].priority)], tcb[t].priority;
      ReadyOk(now, tcb, if p > top then p else top) && EventOk(now, event - {t})
  {
  }

  lemma ReadiedDueOk(container: Containers, epoch: Epoch, floor: nat, t: Task, p: nat)
    requires DueOk(container, epoch, floor) && Asleep(epoch.current) && Asleep(epoch.overflow)
    ensures DueOk(container[t := Ready(p)], epoch, floor)
  {
  }

  /** When the word wraps nobody sleeps in the current list any more, and the item values of
      both lists mean the new epoch with the lists exchanged. */
  lemma EpochOver(state: Lists<StateList>, epoch: Epoch)
    requires state.Linked() && DueOk(state.container, epoch, epoch.base + epoch.maxDelay + 1)
    ensures state.Of(epoch.current) == []
    ensures var next := epoch.base + epoch.maxDelay + 1;
      DueOk(state.container, epoch.(current := epoch.overflow, overflow := epoch.current, base := next), next)
  {
    state.EmptyUnlessContained(epoch.current);
  }

  /** Part of the sleepers due now are ready already. */
  ghost predicate PartWoken(was: Containers, now: Containers, tcb: Tcbs, current: StateList, due: Ticks, time: nat) {
    && now.Keys == was.Keys
    && forall t :: t in was ==>
         now[t] == was[t]
           || (was[t] == current && t in due && due[t] == time && t in tcb && now[t] == Ready(tcb[t].priority))
  }

  /** The event items left are those of the tasks whose state item has not moved. */
  ghost predicate EventsLeft(events: map<Task, EventList>, left: map<Task, EventList>, was: Containers,
                             now: Containers) {
    && (forall t :: t in left ==> t in events && left[t] == events[t] && t in was && t in now && now[t] == was[t])
    && (forall t :: t in events && t in was && t in now && now[t] == was[t] ==> t in left)
  }

  /** Some task that woke has at least priority `p`. */
  ghost predicate WokeAtLeast(was: Containers, now: Containers, tcb: Tcbs, p: nat) {
    exists t :: t in was && t in now && t in tcb && now[t] != was[t] && tcb[t].priority >= p
  }

  lemma NoneWoken(was: Containers, tcb: Tcbs, current: StateList, due: Ticks, time: nat)
    ensures PartWoken(was, was, tcb, current, due, time) && forall p :: !WokeAtLeast(was, was, tcb, p)
    ensures forall e: map<Task, EventList> :: EventOk(was, e) ==> EventsLeft(e, e, was, was)
  {
  }

  /** The head of a sorted list speaks for the whole list: when it is not due, nobody is. */
  lemma NoneExpired(state: Lists<StateList>, epoch: Epoch, tick: nat, next: nat)
    requires state.Linked() && SortedBy(state.Of(epoch.current), epoch.wake) && tick <= epoch.maxDelay
    requires Asleep(epoch.current)
    requires DueOk(state.container, epoch, epoch.base + tick)
    requires if state.Of(epoch.current) == [] then next == epoch.maxDelay
      else next == epoch.wake[state.Of(epoch.current)[0]] && tick < next
    ensures DueOk(state.container, epoch, epoch.base + tick + 1)
    ensures NextOk(state.container, epoch.current, epoch.wake, next)
  {
    forall t | t in state.container && state.container[t] == epoch.current
      ensures tick < epoch.wake[t] && next <= epoch.wake[t]
    {
      assert t in state.Of(epoch.current);
    }
  }

  lemma HeadHasValue(state: Lists<StateList>, l: StateList, wake: Ticks)
    requires SortedBy(state.Of(l), wake) && state.Of(l) != []
    ensures state.Of(l)[0] in wake
  {
  }

  lemma AllWoken(was: Containers, now: Containers, tcb: Tcbs, epoch: Epoch, time: nat)
    requires PartWoken(was, now, tcb, epoch.current, epoch.due, time)
    requires epoch.base <= time <= epoch.base + epoch.maxDelay && was.Keys == tcb.Keys
    requires forall l :: Asleep(l) ==> l == epoch.current || l == epoch.overflow
    requires DueOk(now, epoch, time + 1) && Asleep(epoch.current)
    ensures WokenBy(was, now, tcb, epoch.due, time)
  {
  }

  lemma ExpiredOk(was: Containers, state: Lists<StateList>, tcb: Tcbs, epoch: Epoch, time: nat, t: Task,
                  events: map<Task, EventList>, left: map<Task, EventList>)
    requires EventsLeft(events, left, was, state.container)
    requires state.Linked() && state.Of(epoch.current) != [] && t == state.Of(epoch.current)[0] && Asleep(epoch.current)
    requires DueOk(state.container, epoch, time) && epoch.base <= time && epoch.wake[t] <= time - epoch.base
    requires PartWoken(was, state.container, tcb, epoch.current, epoch.due, time) && state.container.Keys == tcb.Keys
    ensures t in tcb && state.container[t] == epoch.current
    ensures EventsLeft(events, left - {t}, was, state.container[t := Ready(tcb[t].priority)])
    ensures PartWoken(was, state.container[t := Ready(tcb[t].priority)], tcb, epoch.current, epoch.due, time)
    ensures forall p :: WokeAtLeast(was, state.container[t := Ready(tcb[t].priority)], tcb, p)
              <==> (WokeAtLeast(was, state.container, tcb, p) || tcb[t].priority >= p)
  {
    assert t in state.Of(epoch.current);
    var now := state.container[t := Ready(tcb[t].priority)];
    forall p
      ensures WokeAtLeast(was, now, tcb, p) <==> (WokeAtLeast(was, state.container, tcb, p) || tcb[t].priority >= p)
    {
      if tcb[t].priority >= p {
        assert now[t] != was[t];
      }
      if x :| x in was && now[x] != was[x] && tcb[x].priority >= p && x != t {
        assert state.container[x] != was[x];
      }
      if x :| x in was && state.container[x] != was[x] && tcb[x].priority >= p {
        assert now[x] != was[x];
      }
    }
  }

  /** While the cached time has not come, a tick wakes nobody. */
  lemma NobodyDue(container: Containers, event: map<Task, EventList>, tcb: Tcbs, epoch: Epoch, tick: nat, next: nat)
    requires DueOk(container, epoch, epoch.base + tick) && tick <= epoch.maxDelay
    requires NextOk(container, epoch.current, epoch.wake, next) && tick < next && EventOk(container, event)
    requires forall l :: Asleep(l) ==> l == epoch.current || l == epoch.overflow
    ensures DueOk(container, epoch, epoch.base + tick + 1)
    ensures WokenBy(container, container, tcb, epoch.due, epoch.base + tick)
    ensures EventsLeft(event, event, container, container)
  {
  }

  lemma NobodyDueYet(container: Containers, event: map<Task, EventList>, tcb: Tcbs, epoch: Epoch, time: nat)
    requires DueOk(container, epoch, time + 1) && time <= epoch.base + epoch.maxDelay
    requires EventOk(container, event)
    requires forall l :: Asleep(l) ==> l == epoch.current || l == epoch.overflow
    ensures WokenBy(container, container, tcb, epoch.due, time) && EventsLeft(event, event, container, container)
  {
  }

  /** Waking up to one time and then up to a later one is waking up to the later one. */
  lemma WokenInSteps(was: Containers, mid: Containers, now: Containers, tcb: Tcbs, due: Ticks, first: nat, second: nat,
                     events: map<Task, EventList>, some: map<Task, EventList>, left: map<Task, EventList>)
    requires WokenBy(was, mid, tcb, due, first) && WokenBy(mid, now, tcb, due, second) && first <= second
    requires EventsLeft(events, some, was, mid) && EventsLeft(some, left, mid, now)
    ensures WokenBy(was, now, tcb, due, second) && EventsLeft(events, left, was, now)
  {
  }

  /** Part of the tasks held in the pending ready list are ready already. */
  ghost predicate Drained(events: map<Task, EventList>, left: map<Task, EventList>, was: Containers, now: Containers,
                          tcb: Tcbs) {
    && EventsLeft(events, left, was, now) && now.Keys == was.Keys
    && forall t :: t in was ==>
         now[t] == was[t] || (t in events && events[t] == PendingReady && t in tcb && now[t] == Ready(tcb[t].priority))
  }

  lemma NoneDrained(events: map<Task, EventList>, was: Containers, tcb: Tcbs)
    requires EventOk(was, events)
    ensures Drained(events, events, was, was, tcb)
  {
  }

  lemma DrainStep(events: map<Task, EventList>, event: Lists<EventList>, was: Containers, now: Containers, tcb: Tcbs,
                  t: Task)
    requires Drained(events, event.container, was, now, tcb) && event.Linked() && EventOk(now, event.container)
    requires event.Of(PendingReady) != [] && t == event.Of(PendingReady)[0] && now.Keys == tcb.Keys
    ensures t in event.container && t in tcb && (Asleep(now[t]) || now[t].Suspended?)
    ensures Drained(events, event.container - {t}, was, now[t := Ready(tcb[t].priority)], tcb)
    ensures t in was && t in now && now[t] == was[t]
  {
    assert t in event.Of(PendingReady);
  }

  /** One more task wakes. */
  lemma OneMoreWoken(was: Containers, now: Containers, tcb: Tcbs, t: Task, p: nat)
    requires t in was && t in now && t in tcb && now[t] == was[t] && !was[t].Ready?
    ensures WokeAtLeast(was, now[t := Ready(tcb[t].priority)], tcb, p)
         == (WokeAtLeast(was, now, tcb, p) || tcb[t].priority >= p)
  {
    var next := now[t := Ready(tcb[t].priority)];
    if tcb[t].priority >= p {
      assert next[t] != was[t];
    }
    if x :| x in was && x in now && x in tcb && now[x] != was[x] && tcb[x].priority >= p {
      assert next[x] != was[x];
    }
  }

  /** The tasks that wake while pending tasks are drained are those held pending. */
  lemma HeldAtLeast(events: map<Task, EventList>, left: map<Task, EventList>, was: Containers, now: Containers,
                    tcb: Tcbs, p: nat)
    requires Drained(events, left, was, now, tcb) && NonePending(left) && EventOk(was, events)
    ensures WokeAtLeast(was, now, tcb, p)
      <==> exists t :: t in events && events[t] == PendingReady && t in tcb && tcb[t].priority >= p
  {
    forall t | t in events && events[t] == PendingReady && t in tcb && tcb[t].priority >= p
      ensures t in was && t in now && now[t] != was[t]
    {
    }
  }

  /** Nobody who woke in a first step goes back to sleep in a second one. */
  lemma WokeInSteps(was: Containers, mid: Containers, now: Containers, tcb: Tcbs, due: Ticks, until: nat, p: nat)
    requires mid.Keys == was.Keys && WokenBy(mid, now, tcb, due, until)
    requires forall t :: t in was ==> mid[t] == was[t] || mid[t].Ready?
    ensures WokeAtLeast(was, now, tcb, p) <==> WokeAtLeast(was, mid, tcb, p) || WokeAtLeast(mid, now, tcb, p)
  {
    forall t | t in was && t in tcb && tcb[t].priority >= p
      ensures now[t] != was[t] <==> mid[t] != was[t] || now[t] != mid[t]
    {
    }
  }

  ghost predicate Peers(container: Containers, p: nat) {
    exists x, y :: x in container && y in container && x != y && container[x] == Ready(p) && container[y] == Ready(p)
  }

  /** The tasks of a ready list have peers if and only if the list is longer than one. */
  lemma PeersAre(state: Lists<StateList>, p: nat)
    requires state.Linked()
    ensures |state.Of(Ready(p))| > 1 <==> Peers(state.container, p)
  {
    var s := state.Of(Ready(p));
    if |s| > 1 {
      var x, y := s[0], s[1];
      assert x in s && y in s && x != y;
      assert state.container[x] == Ready(p) && state.container[y] == Ready(p);
      assert Peers(state.container, p);
    }
    if Peers(state.container, p) {
      var x, y :| x in state.container && y in state.container && x != y
                  && state.container[x] == Ready(p) && state.container[y] == Ready(p);
      assert x in s && y in s;
      var i, j :| 0 <= i < |s| && 0 <= j < |s| && s[i] == x && s[j] == y;
    }
  }

  lemma PeersStay(mid: Containers, now: Containers, tcb: Tcbs, due: Ticks, until: nat, p: nat)
    requires WokenBy(mid, now, tcb, due, until) && Peers(mid, p)
    ensures Peers(now, p)
  {
    var x, y :| x in mid && y in mid && x != y && mid[x] == Ready(p) && mid[y] == Ready(p);
    assert now[x] == Ready(p) && now[y] == Ready(p);
  }

  /** When some ticks have been replayed, a switch is wanted if somebody of the running
      priority or more woke, or the running task has peers. */
  ghost predicate SwitchWanted(was: Containers, now: Containers, tcb: Tcbs, p: nat, ticks: nat) {
    ticks > 0 && (WokeAtLeast(was, now, tcb, p) || Peers(now, p))
  }

  lemma OneMoreReplayed(was: Containers, mid: Containers, state: Lists<StateList>, tcb: Tcbs, due: Ticks, first: nat,
                        second: nat, p: nat, ticks: nat)
    requires WokenBy(was, mid, tcb, due, first) && WokenBy(mid, state.container, tcb, due, second) && state.Linked()
    requires ticks == 0 ==> mid == was
    ensures SwitchWanted(was, state.container, tcb, p, ticks + 1)
         == (SwitchWanted(was, mid, tcb, p, ticks)
             || WokeAtLeast(mid, state.container, tcb, p) || |state.Of(Ready(p))| > 1)
  {
    hide Peers, WokeAtLeast;
    WokeInSteps(was, mid, state.container, tcb, due, second, p);
    PeersAre(state, p);
    NobodyWoke(was, tcb, p);
    if Peers(mid, p) {
      PeersStay(mid, state.container, tcb, due, second, p);
    }
  }

  lemma NoTicksYet(was: Containers, tcb: Tcbs, p: nat)
    ensures !SwitchWanted(was, was, tcb, p, 0)
  {
  }

  /** Draining and then replaying wants a switch if somebody became ready in either, or if
      the running task has peers when ticks were replayed. */
  lemma SwitchAfterBoth(events: map<Task, EventList>, some: map<Task, EventList>, was: Containers, mid: Containers,
                        state: Lists<StateList>, tcb: Tcbs, due: Ticks, until: nat, p: nat, ticks: nat)
    requires Drained(events, some, was, mid, tcb) && WokenBy(mid, state.container, tcb, due, until) && state.Linked()
    requires ticks == 0 ==> state.container == mid
    ensures (WokeAtLeast(was, mid, tcb, p) || SwitchWanted(mid, state.container, tcb, p, ticks))
         == (WokeAtLeast(was, state.container, tcb, p) || (ticks > 0 && |state.Of(Ready(p))| > 1))
  {
    hide Peers, WokeAtLeast;
    WokeInSteps(was, mid, state.container, tcb, due, until, p);
    PeersAre(state, p);
    NobodyWoke(mid, tcb, p);
  }

  lemma NobodyWoke(was: Containers, tcb: Tcbs, p: nat)
    ensures !WokeAtLeast(was, was, tcb, p)
  {
  }

  lemma NonePendingLeft(event: Lists<EventList>)
    requires event.Linked() && event.Of(PendingReady) == []
    ensures NonePending(event.container)
  {
    forall t | t in event.container
      ensures event.container[t] != PendingReady
    {
      assert t in event.Of(event.container[t]);
    }
  }

  /** The effect of resuming the scheduler: tasks readied meanwhile become ready, then time
      catches up to `until`. */
  ghost predicate Resumed(events: map<Task, EventList>, left: map<Task, EventList>, was: Containers, now: Containers,
                          tcb: Tcbs, due: Ticks, until: nat)
  {
    && EventsLeft(events, left, was, now) && now.Keys == was.Keys
    && forall t :: t in was && t in tcb ==>
         now[t] == (if (t in events && events[t] == PendingReady) || (Asleep(was[t]) && t in due && due[t] <= until)
                    then Ready(tcb[t].priority) else was[t])
  }

  lemma DrainedThenWoken(events: map<Task, EventList>, some: map<Task, EventList>, left: map<Task, EventList>,
                         was: Containers, mid: Containers, now: Containers, tcb: Tcbs, due: Ticks, until: nat)
    requires Drained(events, some, was, mid, tcb) && NonePending(some) && EventOk(was, events)
    requires WokenBy(mid, now, tcb, due, until) && EventsLeft(some, left, mid, now)
    ensures Resumed(events, left, was, now, tcb, due, until) && NonePending(left)
  {
  }

  lemma StillNonePending(events: map<Task, EventList>, left: map<Task, EventList>, was: Containers, now: Containers)
    ensures NonePending(events) && EventsLeft(events, left, was, now) ==> NonePending(left)
  {
  }

  ghost predicate SleepAfter(container: Containers, due: Ticks, time: nat) {
    forall t :: t in container && Asleep(container[t]) ==> t in due && due[t] > time
  }

  /** Resuming the scheduler moves nobody when nothing is pending and nobody is due. */
  lemma QuietResume(events: map<Task, EventList>, left: map<Task, EventList>, was: Containers, now: Containers,
                    tcb: Tcbs, due: Ticks, until: nat)
    requires Resumed(events, left, was, now, tcb, due, until) && NonePending(events)
    requires SleepAfter(was, due, until) && was.Keys == tcb.Keys && EventOk(was, events)
    ensures now == was && left == events
  {
  }

  lemma NotWaiting(state: Lists<StateList>, event: map<Task, EventList>, t: Task)
    requires EventOk(state.container, event) && t in state.container && state.container[t].Ready?
    ensures event - {t} == event
  {
  }

  /** The wake value of a task that blocks for `wait` ticks when the tick word is `tick`. */
  function WakeValue(tick: nat, wait: nat, maxDelay: nat): (v: nat)
    requires tick <= maxDelay && wait <= maxDelay
    ensures v <= maxDelay
  {
    if tick + wait > maxDelay then tick + wait - maxDelay - 1 else tick + wait
  }

  /** A sleeper put in the current list has left it before the lists are switched, as the
      assertion of taskSWITCH_DELAYED_LISTS demands, unless it asked to wait zero ticks in
      the last tick before the wrap. */
  lemma LeavesBeforeSwitch(tick: nat, wait: nat, maxDelay: nat)
    requires tick <= maxDelay && wait <= maxDelay
    ensures (WakeValue(tick, wait, maxDelay) < tick
             || exists later :: WokenAt(tick, WakeValue(tick, wait, maxDelay), maxDelay, later))
      <==> (wait > 0 || tick < maxDelay)
  {
    assert WokenAt(tick, WakeValue(tick, wait, maxDelay), maxDelay, maxDelay) <==> tick < maxDelay;
  }

  /** A tick of the same wrap, after `tick`, finds the wake value expired. */
  ghost predicate WokenAt(tick: nat, value: nat, maxDelay: nat, later: nat) {
    tick < later <= maxDelay && value <= later
  }

  /** The list a blocking task goes to. */
  function BlockedIn(tick: nat, wait: nat, canBlockIndefinitely: bool, current: StateList, overflow: StateList,
                     maxDelay: nat): (l: StateList) {
    if wait == maxDelay && canBlockIndefinitely then Suspended
    else if tick + wait > maxDelay then overflow
    else current
  }

  lemma BlockedInIs(tick: nat, wait: nat, current: StateList, overflow: StateList, maxDelay: nat)
    requires Asleep(current) && Asleep(overflow)
    ensures var l := BlockedIn(tick, wait, true, current, overflow, maxDelay);
      if wait == maxDelay then l == Suspended else Asleep(l)
  {
  }

  lemma SleepLinked(state: Lists<StateList>, t: Task, l: StateList, wake: Ticks, v: nat)
    requires state.Linked() && t in state.container && Asleep(l) && state.container[t].Ready?
    requires SortedBy(state.Of(DelayedOne), wake) && SortedBy(state.Of(DelayedTwo), wake)
    ensures t in state.Of(state.container[t]) && forall x :: x in state.Remove(t).Of(l) ==> x in wake[t := v]
    ensures var r := state.Remove(t).Insert(l, t, wake[t := v]);
      && r.Linked() && r.container == state.container[t := l]
      && SortedBy(r.Of(DelayedOne), wake[t := v]) && SortedBy(r.Of(DelayedTwo), wake[t := v])
      && |r.Of(Termination)| == |state.Of(Termination)|
  {
    state.InsertMoveLinked(t, l, wake, v);
    state.InsertMoveKeepsSorted(t, l, if l == DelayedOne then DelayedTwo else DelayedOne, wake, v);
  }

  lemma SleeperOk(container: Containers, epoch: Epoch, tick: nat, next: nat, t: Task, wait: nat)
    requires DueOk(container, epoch, epoch.base + tick + 1) && NextOk(container, epoch.current, epoch.wake, next)
    requires tick <= epoch.maxDelay && wait <= epoch.maxDelay && (wait > 0 || tick < epoch.maxDelay)
    requires Asleep(epoch.current) && Asleep(epoch.overflow) && epoch.current != epoch.overflow
    requires t in container && container[t].Ready?
    ensures
      var v := WakeValue(tick, wait, epoch.maxDelay);
      var l := BlockedIn(tick, wait, false, epoch.current, epoch.overflow, epoch.maxDelay);
      && DueOk(container[t := l],
               epoch.(wake := epoch.wake[t := v],
                      due := epoch.due[t := epoch.base + tick + (if wait == 0 then 1 else wait)]),
               epoch.base + tick + 1)
      && NextOk(container[t := l], epoch.current, epoch.wake[t := v],
                if l == epoch.current && v < next then v else next)
  {
  }

  lemma BlockedOk(container: Containers, event: map<Task, EventList>, tcb: Tcbs, top: nat, t: Task, l: StateList)
    requires ReadyOk(container, tcb, top) && t in container && (Asleep(l) || l == Suspended)
    requires EventOk(container, event - {t})
    ensures ReadyOk(container[t := l], tcb, top) && EventOk(container[t := l], event)
  {
    forall x | x in event
      ensures x in container[t := l] && (Asleep(container[t := l][x]) || container[t := l][x].Suspended?)
    {
      if x != t {
        assert x in event - {t};
      }
    }
  }

  lemma AwayDueOk(container: Containers, epoch: Epoch, floor: nat, t: Task, l: StateList)
    requires DueOk(container, epoch, floor) && l != epoch.current && l != epoch.overflow
    ensures DueOk(container[t := l], epoch, floor)
  {
  }

  lemma AwayNextOk(container: Containers, current: StateList, wake: Ticks, next: nat, t: Task, l: StateList)
    requires NextOk(container, current, wake, next) && l != current
    ensures NextOk(container[t := l], current, wake, next)
  {
  }

  lemma GoneDueOk(container: Containers, epoch: Epoch, floor: nat, t: Task)
    requires DueOk(container, epoch, floor)
    ensures DueOk(container - {t}, epoch, floor)
  {
  }

  lemma GoneNextOk(container: Containers, current: StateList, wake: Ticks, next: nat, t: Task)
    requires NextOk(container, current, wake, next)
    ensures NextOk(container - {t}, current, wake, next)
  {
  }

  lemma ReadiedNextOk(container: Containers, current: StateList, wake: Ticks, next: nat, t: Task, p: nat)
    requires NextOk(container, current, wake, next) && Asleep(current)
    ensures NextOk(container[t := Ready(p)], current, wake, next)
  {
  }

  /** How many waiters a task of priority `p` finds in front of it: it stops at the first
      one of a lower priority. */
  function PlaceAmong(waiters: seq<Task>, tcb: Tcbs, p: nat): (k: nat)
    requires forall t :: t in waiters ==> t in tcb
    ensures k <= |waiters| && forall j :: 0 <= j < k ==> tcb[waiters[j]].priority >= p
    ensures k < |waiters| ==> tcb[waiters[k]].priority < p
  {
    if waiters == [] || tcb[waiters[0]].priority < p then 0 else 1 + PlaceAmong(waiters[1..], tcb, p)
  }

  lemma {:induction false} PlaceByPriority(waiters: seq<Task>, tcb: Tcbs, eventValue: Ticks, maxPriorities: nat,
                                           t: Task)
    requires ItemValuesOk(tcb, eventValue, maxPriorities) && t in tcb && forall x :: x in waiters ==> x in tcb
    ensures PlaceFor(waiters, eventValue, eventValue[t]) == PlaceAmong(waiters, tcb, tcb[t].priority)
  {
    if waiters != [] {
      PlaceByPriority(waiters[1..], tcb, eventValue, maxPriorities, t);
    }
  }

  /** The task joins the waiters of a list behind those of at least its priority, and no other
      list changes. */
  ghost predicate QueuedByPriority(was: Lists<EventList>, now: Lists<EventList>, tcb: Tcbs, l: EventList, t: Task) {
    && t in tcb && (forall x :: x in was.Of(l) ==> x in tcb)
    && now.Of(l) == InsertAt(was.Of(l), PlaceAmong(was.Of(l), tcb, tcb[t].priority), t)
    && forall m :: m != l ==> now.Of(m) == was.Of(m)
  }

  lemma EventQueued(event: Lists<EventList>, container: Containers, tcb: Tcbs, eventValue: Ticks, maxPriorities: nat,
                    l: EventList, t: Task)
    requires event.Linked() && EventOk(container, event.container) && container.Keys == tcb.Keys
    requires ItemValuesOk(tcb, eventValue, maxPriorities) && t in tcb
    ensures t in eventValue && forall x :: x in event.Of(l) ==> x in eventValue
    ensures QueuedByPriority(event, event.Insert(l, t, eventValue), tcb, l, t)
  {
    assert forall x :: x in event.Of(l) ==> x in event.container;
    PlaceByPriority(event.Of(l), tcb, eventValue, maxPriorities, t);
  }

  lemma EventInserted(event: Lists<EventList>, container: Containers, tcb: Tcbs, eventValue: Ticks, maxPriorities: nat,
                      l: EventList, t: Task)
    requires event.Linked() && EventOk(container, event.container) && container.Keys == tcb.Keys
    requires ItemValuesOk(tcb, eventValue, maxPriorities) && t in tcb && t in container && container[t].Ready?
    ensures t !in event.container && t in eventValue && forall x :: x in event.Of(l) ==> x in eventValue
    ensures event.Insert(l, t, eventValue).Linked()
    ensures event.Insert(l, t, eventValue).container == event.container[t := l]
    ensures EventOk(container, event.Insert(l, t, eventValue).container - {t})
  {
    assert forall x :: x in event.Of(l) ==> x in event.container;
    event.InsertLinked(l, PlaceFor(event.Of(l), eventValue, eventValue[t]), t);
    assert event.container[t := l] - {t} == event.container;
  }

  /** The waiting task at the head of an event list is blocked, and can be moved to the
      pending ready list. */
  lemma WaiterMoved(event: Lists<EventList>, container: Containers, tcb: Tcbs, l: EventList, t: Task)
    requires event.Linked() && EventOk(container, event.container) && container.Keys == tcb.Keys
    requires event.Of(l) != [] && t == event.Of(l)[0]
    ensures t in event.container && t in event.Of(event.container[t]) && t in tcb && event.container[t] == l
    ensures Asleep(container[t]) || container[t].Suspended?
    ensures var r := event.Remove(t).InsertEnd(PendingReady, t);
      && r.Linked() && r.container == event.container[t := PendingReady] && EventOk(container, r.container)
  {
    assert t in event.Of(l);
    event.MoveLinked(t, PendingReady);
  }

  lemma MovedAwayOk(container: Containers, event: map<Task, EventList>, tcb: Tcbs, top: nat, t: Task, l: StateList)
    requires ReadyOk(container, tcb, top) && EventOk(container, event) && !l.Ready?
    ensures ReadyOk(container[t := l], tcb, top) && EventOk(container[t := l], event - {t})
  {
  }

  /** A task that is suspended, or waits to be freed, takes its event item along. */
  lemma AwayTasksOk(k: Kept, wake: Ticks, t: Task, l: StateList)
    requires TasksAre(k) && EventOk(k.state.container, k.event.container) && t in k.tcb
    requires l == Suspended || l == Termination
    requires SortedBy(k.state.Of(DelayedOne), wake) && SortedBy(k.state.Of(DelayedTwo), wake)
    ensures t in k.state.container && t in k.state.Of(k.state.container[t])
    ensures t in k.event.container ==> t in k.event.Of(k.event.container[t])
    ensures Detach(k.event, t).container == k.event.container - {t}
    ensures var r := k.state.Remove(t).InsertEnd(l, t);
      && (k.state.container[t] != Termination ==>
            TasksAre(k.(state := r, event := Detach(k.event, t),
                        deleted := k.deleted + (if l == Termination then 1 else 0))))
      && r.container == k.state.container[t := l] && EventOk(r.container, k.event.container - {t})
      && SortedBy(r.Of(DelayedOne), wake) && SortedBy(r.Of(DelayedTwo), wake)
  {
    hide ReadyOk, ItemValuesOk, EventOk, SortedBy, Lists.Linked, Lists.InsertEnd, Lists.Remove, Detach;
    MovedLinked(k.state, t, l, wake);
    DetachLinked(k.event, t);
    MovedAwayOk(k.state.container, k.event.container, k.tcb, k.top, t, l);
  }

  /** A blocked or suspended task becomes ready. */
  lemma ReadiedTasksOk(k: Kept, wake: Ticks, t: Task)
    requires TasksAre(k) && EventOk(k.state.container, k.event.container) && t in k.tcb
    requires t in k.state.container ==> !k.state.container[t].Ready? && k.state.container[t] != Termination
    requires SortedBy(k.state.Of(DelayedOne), wake) && SortedBy(k.state.Of(DelayedTwo), wake)
    ensures t in k.state.container && t in k.state.Of(k.state.container[t]) && t !in k.state.Remove(t).container
    ensures t in k.event.container ==> t in k.event.Of(k.event.container[t])
    ensures Detach(k.event, t).container == k.event.container - {t}
    ensures var p := k.tcb[t].priority;
      var r := k.state.Remove(t).InsertEnd(Ready(p), t);
      && TasksAre(k.(state := r, event := Detach(k.event, t), top := if p > k.top then p else k.top))
      && r.container == k.state.container[t := Ready(p)] && EventOk(r.container, k.event.container - {t})
      && SortedBy(r.Of(DelayedOne), wake) && SortedBy(r.Of(DelayedTwo), wake)
      && forall l ::
        |r.Of(l)| == |k.state.Of(l)| + (if l == Ready(p) then 1 else 0) - (if l == k.state.container[t] then 1 else 0)
  {
    hide ReadyOk, ItemValuesOk, EventOk, SortedBy, Lists.Linked, Lists.InsertEnd, Lists.Remove, Detach;
    MovedLinked(k.state, t, Ready(k.tcb[t].priority), wake);
    DetachLinked(k.event, t);
    ReadiedOk(k.state.container, k.event.container, k.tcb, k.top, k.maxPriorities, k.eventValue, t);
  }

  /** A task that is gone takes its items, its TCB and its place in the counts with it. */
  lemma DeletedOk(k: Kept, wake: Ticks, t: Task)
    requires TasksAre(k) && EventOk(k.state.container, k.event.container) && t in k.tcb && t != k.current
    requires SortedBy(k.state.Of(DelayedOne), wake) && SortedBy(k.state.Of(DelayedTwo), wake)
    ensures t in k.state.container && t in k.state.Of(k.state.container[t]) && k.numberOfTasks > 0
    ensures k.state.container[t] == Termination ==> k.deleted > 0
    ensures t in k.event.container ==> t in k.event.Of(k.event.container[t])
    ensures Detach(k.event, t).container == k.event.container - {t}
    ensures var r := k.state.Remove(t);
      && TasksAre(k.(state := r, event := Detach(k.event, t), tcb := k.tcb - {t}, numberOfTasks := k.numberOfTasks - 1,
                     deleted := k.deleted - (if k.state.container[t] == Termination then 1 else 0)))
      && r.container == k.state.container - {t} && EventOk(r.container, k.event.container - {t})
      && SortedBy(r.Of(DelayedOne), wake) && SortedBy(r.Of(DelayedTwo), wake)
  {
    hide ReadyOk, ItemValuesOk, EventOk, SortedBy, Lists.Linked, Lists.Remove, Detach;
    RemovedLinked(k.state, t, wake);
    DetachLinked(k.event, t);
    GoneOk(k.state.container, k.event.container, k.tcb, k.eventValue, k.maxPriorities, k.top, t);
  }

  lemma RemovedLinked(state: Lists<StateList>, t: Task, wake: Ticks)
    requires state.Linked() && t in state.container
    requires SortedBy(state.Of(DelayedOne), wake) && SortedBy(state.Of(DelayedTwo), wake)
    ensures t in state.Of(state.container[t])
    ensures var r := state.Remove(t);
      && r.Linked() && r.container == state.container - {t}
      && SortedBy(r.Of(DelayedOne), wake) && SortedBy(r.Of(DelayedTwo), wake)
      && |r.Of(Termination)| == |state.Of(Termination)| - (if state.container[t] == Termination then 1 else 0)
  {
    state.RemoveLinked(t);
    var was := state.container[t];
    if Asleep(was) {
      WithoutKeepsSortedBy(state.Of(was), t, wake);
    }
  }

  lemma GoneOk(container: Containers, event: map<Task, EventList>, tcb: Tcbs, eventValue: Ticks, maxPriorities: nat,
               top: nat, t: Task)
    requires ReadyOk(container, tcb, top) && EventOk(container, event) && ItemValuesOk(tcb, eventValue, maxPriorities)
    requires t in tcb
    ensures ReadyOk(container - {t}, tcb - {t}, top) && EventOk(container - {t}, event - {t})
    ensures ItemValuesOk(tcb - {t}, eventValue, maxPriorities)
    ensures |tcb - {t}| == |tcb| - 1 && (tcb - {t}).Keys == tcb.Keys - {t}
  {
    assert tcb.Keys == (tcb - {t}).Keys + {t};
  }

  lemma CreatedOk(state: Lists<StateList>, event: map<Task, EventList>, tcb: Tcbs, eventValue: Ticks,
                  maxPriorities: nat, top: nat, t: Task, p: nat)
    requires state.Linked() && t !in tcb && state.container.Keys == tcb.Keys && p < maxPriorities
    requires ReadyOk(state.container, tcb, top) && EventOk(state.container, event)
    requires ItemValuesOk(tcb, eventValue, maxPriorities)
    ensures var now, r := tcb[t := Tcb(p, p, 0)], state.InsertEnd(Ready(p), t);
      && r.Linked() && r.container == state.container[t := Ready(p)] && r.container.Keys == now.Keys
      && |now| == |tcb| + 1
      && ReadyOk(r.container, now, if p > top then p else top) && EventOk(r.container, event)
      && ItemValuesOk(now, eventValue[t := maxPriorities - p], maxPriorities)
      && (forall l :: l != Ready(p) ==> r.Of(l) == state.Of(l))
  {
    state.InsertLinked(Ready(p), state.EndPlace(Ready(p)), t);
  }

  function AtLeast(a: nat, b: nat): (r: nat)
    ensures r >= a && r >= b && (r == a || r == b)
  {
    if a < b then b else a
  }

  /** The same with all that is kept of the tasks. */
  lemma CreatedTasksOk(k: Kept, wake: Ticks, t: Task, p: nat)
    requires TasksAre(k) && EventOk(k.state.container, k.event.container) && t !in k.tcb && p < k.maxPriorities
    requires SortedBy(k.state.Of(DelayedOne), wake) && SortedBy(k.state.Of(DelayedTwo), wake)
    ensures t !in k.state.container
    ensures var now, r := k.tcb[t := Tcb(p, p, 0)], k.state.InsertEnd(Ready(p), t);
      && TasksAre(k.(state := r, tcb := now, numberOfTasks := k.numberOfTasks + 1,
                     eventValue := k.eventValue[t := k.maxPriorities - p], top := if p > k.top then p else k.top))
      && r.container == k.state.container[t := Ready(p)] && EventOk(r.container, k.event.container)
      && SortedBy(r.Of(DelayedOne), wake) && SortedBy(r.Of(DelayedTwo), wake)
  {
    hide ReadyOk, ItemValuesOk, EventOk, SortedBy, Lists.Linked, Lists.InsertEnd;
    CreatedOk(k.state, k.event.container, k.tcb, k.eventValue, k.maxPriorities, k.top, t, p);
  }

  /** What is kept of the tasks when the running one goes to a delayed list. */
  lemma SleeperTasksOk(k: Kept, wake: Ticks, l: StateList, v: nat)
    requires TasksAre(k) && EventOk(k.state.container, k.event.container - {k.current}) && Asleep(l)
    requires k.current in k.state.container ==> k.state.container[k.current].Ready?
    requires SortedBy(k.state.Of(DelayedOne), wake) && SortedBy(k.state.Of(DelayedTwo), wake)
    ensures k.current in k.state.container && k.current in k.state.Of(k.state.container[k.current])
    ensures forall x :: x in k.state.Remove(k.current).Of(l) ==> x in wake[k.current := v]
    ensures var r := k.state.Remove(k.current).Insert(l, k.current, wake[k.current := v]);
      && TasksAre(k.(state := r))
      && r.container == k.state.container[k.current := l] && EventOk(r.container, k.event.container)
      && SortedBy(r.Of(DelayedOne), wake[k.current := v]) && SortedBy(r.Of(DelayedTwo), wake[k.current := v])
  {
    hide ReadyOk, ItemValuesOk, EventOk, SortedBy, Lists.Linked, Lists.Insert, Lists.Remove;
    BlockedOk(k.state.container, k.event.container, k.tcb, k.top, k.current, l);
    SleepLinked(k.state, k.current, l, wake, v);
  }

  /** The same with all that is kept of the tasks. */
  lemma WaiterTasksOk(k: Kept, l: EventList)
    requires TasksAre(k) && EventOk(k.state.container, k.event.container) && k.event.Of(l) != []
    ensures var t := k.event.Of(l)[0];
      && t in k.event.container && t in k.event.Of(k.event.container[t]) && t in k.tcb && t in k.state.container
      && k.event.container[t] == l
      && (Asleep(k.state.container[t]) || k.state.container[t].Suspended?) && k.current in k.tcb
      && var r := k.event.Remove(t).InsertEnd(PendingReady, t);
         && TasksAre(k.(event := r))
         && r.container == k.event.container[t := PendingReady] && EventOk(k.state.container, r.container)
  {
    hide ReadyOk, ItemValuesOk, EventOk, Lists.Linked, Lists.InsertEnd, Lists.Remove;
    WaiterMoved(k.event, k.state.container, k.tcb, l, k.event.Of(l)[0]);
  }

  /** A task that changes priority changes its ready list with it. */
  ghost function Requeued(container: Containers, t: Task, p: nat): (r: Containers)
    requires t in container
  {
    if container[t].Ready? then container[t := Ready(p)] else container
  }

  /** Where a task's state item goes when its priority changes: a ready task moves to the
      ready list of its new priority. */
  function Repositioned(state: Lists<StateList>, t: Task, p: nat): (r: Lists<StateList>)
    requires t in state.container && t in state.Of(state.container[t])
  {
    if state.container[t].Ready? then state.Remove(t).InsertEnd(Ready(p), t) else state
  }

  lemma RequeuedEvents(container: Containers, event: map<Task, EventList>, t: Task, p: nat)
    requires EventOk(container, event) && t in container
    ensures EventOk(Requeued(container, t, p), event)
  {
  }

  lemma RepriorityAre(container: Containers, tcb: Tcbs, eventValue: Ticks, maxPriorities: nat, top: nat, t: Task,
                      p: nat)
    requires ReadyOk(container, tcb, top) && ItemValuesOk(tcb, eventValue, maxPriorities)
    requires container.Keys == tcb.Keys && t in tcb && p < maxPriorities
    ensures container[t].Ready? <==> container[t] == Ready(tcb[t].priority)
    ensures var now, ready := tcb[t := tcb[t].(priority := p)], container[t].Ready?;
      && now.Keys == tcb.Keys && |now| == |tcb|
      && ItemValuesOk(now, eventValue[t := maxPriorities - p], maxPriorities)
      && ReadyOk(if ready then container[t := Ready(p)] else container, now, if ready && p > top then p else top)
  {
    assert tcb[t := tcb[t].(priority := p)].Keys == tcb.Keys;
  }

  lemma RepriorityOk(k: Kept, wake: Ticks, t: Task, p: nat)
    requires TasksAre(k) && EventOk(k.state.container, k.event.container) && t in k.tcb && p < k.maxPriorities
    requires SortedBy(k.state.Of(DelayedOne), wake) && SortedBy(k.state.Of(DelayedTwo), wake)
    ensures t in k.state.container && t in k.state.Of(k.state.container[t]) && t !in k.state.Remove(t).container
    ensures k.state.container[t].Ready? <==> k.state.container[t] == Ready(k.tcb[t].priority)
    ensures var r, ready := Repositioned(k.state, t, p), k.state.container[t].Ready?;
      && TasksAre(k.(state := r, tcb := k.tcb[t := k.tcb[t].(priority := p)],
                     eventValue := k.eventValue[t := k.maxPriorities - p],
                     top := if ready && p > k.top then p else k.top))
      && r.container == Requeued(k.state.container, t, p)
      && EventOk(r.container, k.event.container)
      && SortedBy(r.Of(DelayedOne), wake) && SortedBy(r.Of(DelayedTwo), wake)
  {
    hide ReadyOk, ItemValuesOk, EventOk, SortedBy, Lists.Linked, Lists.Remove, Lists.InsertEnd;
    RepriorityAre(k.state.container, k.tcb, k.eventValue, k.maxPriorities, k.top, t, p);
    RequeuedEvents(k.state.container, k.event.container, t, p);
    MovedLinked(k.state, t, Ready(p), wake);
  }

  lemma StillReady(container: Containers, t: Task, other: Task, p: nat)
    requires t in container && other in container && t != other
    ensures t in Requeued(container, other, p) && Requeued(container, other, p)[t] == container[t]
  {
  }

  lemma HeldCountOk(k: Kept, t: Task, n: nat)
    requires TasksAre(k) && t in k.tcb
    ensures TasksAre(k.(tcb := k.tcb[t := k.tcb[t].(mutexesHeld := n)]))
  {
    assert k.tcb[t := k.tcb[t].(mutexesHeld := n)].Keys == k.tcb.Keys;
  }

  /** The item value of the first waiter tells its priority. */
  lemma HeadPriority(k: Kept, l: EventList)
    requires TasksAre(k) && EventOk(k.state.container, k.event.container) && k.event.Of(l) != []
    ensures var t := k.event.Of(l)[0];
      t in k.tcb && t in k.eventValue && k.tcb[t].priority < k.maxPriorities
        && k.eventValue[t] == k.maxPriorities - k.tcb[t].priority
  {
    var t := k.event.Of(l)[0];
    assert t in k.event.Of(l);
  }

  lemma StillNone(event: map<Task, EventList>, t: Task)
    ensures NonePending(event) ==> NonePending(event - {t})
  {
  }

  lemma SuspendedPended(event: Lists<EventList>, container: Containers, t: Task)
    requires event.Linked() && EventOk(container, event.container) && t in container && container[t] == Suspended
    requires t !in event.container
    ensures var r := event.InsertEnd(PendingReady, t);
      r.Linked() && r.container == event.container[t := PendingReady] && EventOk(container, r.container)
  {
    event.InsertLinked(PendingReady, event.EndPlace(PendingReady), t);
  }

  lemma TerminatedHead(k: Kept)
    requires TasksAre(k) && EventOk(k.state.container, k.event.container) && k.deleted > 0
    ensures k.state.Of(Termination) != []
    ensures var t := k.state.Of(Termination)[0];
      && t in k.state.container && t in k.tcb && k.state.container[t] == Termination
      && Detach(k.event, t) == k.event && k.event.container - {t} == k.event.container
  {
    var t := k.state.Of(Termination)[0];
    assert t in k.state.Of(Termination);
  }

  /** The running task's list proves that the search for the highest ready priority ends. */
  lemma TopNotBelow(state: Lists<StateList>, tcb: Tcbs, top: nat, t: Task)
    requires state.Linked() && ReadyOk(state.container, tcb, top) && t in state.container && state.container[t].Ready?
    ensures state.container[t].priority <= top && state.Of(state.container[t]) != []
  {
    assert t in state.Of(state.container[t]);
  }

  lemma LowerTop(state: Lists<StateList>, tcb: Tcbs, top: nat)
    requires state.Linked() && ReadyOk(state.container, tcb, top) && top > 0 && state.Of(Ready(top)) == []
    ensures ReadyOk(state.container, tcb, top - 1)
  {
    forall t | t in state.container && state.container[t].Ready?
      ensures state.container[t].priority <= top - 1
    {
      assert t in state.Of(state.container[t]);
    }
  }

  /** The task that is served next from the highest ready list that is not empty. */
  lemma ServedOk(k: Kept, wake: Ticks, p: nat)
    requires TasksAre(k)
    requires SortedBy(k.state.Of(DelayedOne), wake) && SortedBy(k.state.Of(DelayedTwo), wake)
    requires k.state.Of(Ready(p)) != [] && ReadyOk(k.state.container, k.tcb, p) && p <= k.top
    ensures var r, next := k.state.Served(Ready(p)), k.state.Of(Ready(p))[k.state.NextPlace(Ready(p))];
      && TasksAre(k.(state := r, current := next, top := p))
      && SortedBy(r.Of(DelayedOne), wake) && SortedBy(r.Of(DelayedTwo), wake)
      && next in k.tcb && next in k.state.container && k.state.container[next] == Ready(p) && k.tcb[next].priority == p
      && k.state.container.Keys == k.tcb.Keys
      && forall x :: x in k.state.container && k.state.container[x].Ready? ==> k.tcb[x].priority <= p
  {
    k.state.ServedLinked(Ready(p));
    assert k.state.Of(Ready(p))[k.state.NextPlace(Ready(p))] in k.state.Of(Ready(p));
  }

  lemma NoneTerminated(state: Lists<StateList>)
    requires state.Linked() && |state.Of(Termination)| == 0
    ensures forall t :: t in state.container ==> state.container[t] != Termination
  {
    forall t | t in state.container
      ensures state.container[t] != Termination
    {
      assert t in state.Of(state.container[t]);
    }
  }

  /** The lists when there is only the idle task. */
  lemma IdleTaskOk(idle: Task, maxPriorities: nat, maxDelay: nat)
    requires maxPriorities > 0
    ensures
      var state: Lists<StateList> := Lists(map[Ready(0) := [idle]], map[idle := Ready(0)], map[]);
      var tcb := map[idle := Tcb(0, 0, 0)];
      && TasksAre(Kept(state, Lists(map[], map[], map[]), tcb, 1, idle, map[idle := maxPriorities],
                       maxPriorities, 0, 0))
      && EventOk(state.container, map[]) && NonePending(map[])
      && DueOk(state.container, Epoch(DelayedOne, DelayedTwo, map[], map[], 0, maxDelay), 1)
      && NextOk(state.container, DelayedOne, map[], maxDelay)
      && SortedBy(state.Of(DelayedOne), map[]) && SortedBy(state.Of(DelayedTwo), map[]) && WholeWraps(0, maxDelay)
  {
  }
}
