/** What the mutexes of queue.c and the TCBs say of each other. */
module MutexState {
  import opened Options
  import opened TaskLists
  import opened KernelState

  /** A mutex is a queue of length one whose messages are tokens. */
  datatype Mutex = Mutex(count: nat, holder: Option<Task>)

  type Mutexes = map<nat, Mutex>

  function HeldBy(mutexes: Mutexes, t: Task): (held: set<nat>) {
    set m | m in mutexes && mutexes[m].holder == Some(t)
  }

  /** A mutex is free exactly when nobody holds it; a task counts the mutexes it holds,
      never runs below its base priority, and runs above it only while it holds one. */
  ghost predicate MutexesAre(mutexes: Mutexes, tcb: Tcbs) {
    && (forall m :: m in mutexes ==> mutexes[m].count <= 1 && (mutexes[m].count == 1 <==> mutexes[m].holder == None))
    && (forall m :: m in mutexes && mutexes[m].holder.Some? ==> mutexes[m].holder.value in tcb)
    && (forall t :: t in tcb ==>
          && tcb[t].mutexesHeld == |HeldBy(mutexes, t)| && tcb[t].priority >= tcb[t].basePriority
          && (tcb[t].mutexesHeld == 0 ==> tcb[t].priority == tcb[t].basePriority))
  }

  lemma FreeOrHeld(mutexes: Mutexes, tcb: Tcbs, m: nat)
    requires MutexesAre(mutexes, tcb) && m in mutexes
    ensures mutexes[m].count == if mutexes[m].holder == None then 1 else 0
  {
  }

  lemma HolderCounts(mutexes: Mutexes, tcb: Tcbs, m: nat)
    requires MutexesAre(mutexes, tcb) && m in mutexes && mutexes[m].holder.Some?
    ensures mutexes[m].holder.value in tcb && tcb[mutexes[m].holder.value].mutexesHeld > 0
  {
    assert m in HeldBy(mutexes, mutexes[m].holder.value);
  }

  lemma HeldAfter(mutexes: Mutexes, m: nat, now: Mutex)
    requires m in mutexes
    ensures forall t: Task :: (
      |HeldBy(mutexes[m := now], t)|
      == |HeldBy(mutexes, t)|
        + (if now.holder == Some(t) then 1 else 0) - (if mutexes[m].holder == Some(t) then 1 else 0))
  {
    forall t: Task
      ensures |HeldBy(mutexes[m := now], t)|
        == |HeldBy(mutexes, t)|
          + (if now.holder == Some(t) then 1 else 0) - (if mutexes[m].holder == Some(t) then 1 else 0)
    {
      var rest := HeldBy(mutexes, t) - {m};
      assert HeldBy(mutexes, t) == if mutexes[m].holder == Some(t) then rest + {m} else rest;
      assert HeldBy(mutexes[m := now], t) == if now.holder == Some(t) then rest + {m} else rest;
    }
  }

  lemma TakenOk(mutexes: Mutexes, tcb: Tcbs, m: nat, t: Task)
    requires MutexesAre(mutexes, tcb) && m in mutexes && mutexes[m].count > 0 && t in tcb
    ensures MutexesAre(mutexes[m := Mutex(mutexes[m].count - 1, Some(t))],
                       tcb[t := tcb[t].(mutexesHeld := tcb[t].mutexesHeld + 1)])
  {
    HeldAfter(mutexes, m, Mutex(0, Some(t)));
  }

  /** What xTaskPriorityDisinherit leaves of the holder: the last mutex given back takes an
      inherited priority with it. */
  function Disinherited(task: Tcb): (r: Tcb)
    requires task.mutexesHeld > 0
  {
    Tcb(if task.mutexesHeld == 1 then task.basePriority else task.priority, task.basePriority, task.mutexesHeld - 1)
  }

  lemma GivenOk(mutexes: Mutexes, tcb: Tcbs, m: nat, t: Task)
    requires MutexesAre(mutexes, tcb) && m in mutexes && mutexes[m].holder == Some(t)
    ensures t in tcb && tcb[t].mutexesHeld > 0
    ensures MutexesAre(mutexes[m := Mutex(mutexes[m].count + 1, None)], tcb[t := Disinherited(tcb[t])])
  {
    HolderCounts(mutexes, tcb, m);
    HeldAfter(mutexes, m, Mutex(1, None));
  }

  lemma HolderAboveBase(mutexes: Mutexes, tcb: Tcbs, t: Task)
    requires MutexesAre(mutexes, tcb) && t in tcb
    ensures tcb[t].basePriority <= tcb[t].priority
  {
  }

  /** The priority of a task that holds a mutex may be anything from its base up. */
  lemma HolderRepriorityOk(mutexes: Mutexes, tcb: Tcbs, t: Task, p: nat)
    requires MutexesAre(mutexes, tcb) && t in tcb && tcb[t].mutexesHeld > 0 && p >= tcb[t].basePriority
    ensures MutexesAre(mutexes, tcb[t := tcb[t].(priority := p)])
  {
  }

  lemma NewTaskOk(mutexes: Mutexes, tcb: Tcbs, t: Task, p: nat)
    requires MutexesAre(mutexes, tcb) && t !in tcb
    ensures MutexesAre(mutexes, tcb[t := Tcb(p, p, 0)])
  {
    assert HeldBy(mutexes, t) == {};
  }

  lemma GoneTaskOk(mutexes: Mutexes, tcb: Tcbs, t: Task)
    requires MutexesAre(mutexes, tcb) && t in tcb && tcb[t].mutexesHeld == 0
    ensures MutexesAre(mutexes, tcb - {t})
  {
    forall m | m in mutexes && mutexes[m].holder.Some?
      ensures mutexes[m].holder.value != t
    {
      HolderCounts(mutexes, tcb, m);
    }
  }

  lemma GoneTasksOk(mutexes: Mutexes, tcb: Tcbs, now: Tcbs)
    requires MutexesAre(mutexes, tcb) && forall t :: t in now ==> t in tcb && now[t] == tcb[t]
    requires forall t :: t in tcb && t !in now ==> tcb[t].mutexesHeld == 0
    ensures MutexesAre(mutexes, now)
  {
    forall m | m in mutexes && mutexes[m].holder.Some?
      ensures mutexes[m].holder.value in now
    {
      HolderCounts(mutexes, tcb, m);
    }
  }
}
