/** The timers of timers.c: where the daemon finds them, and the real times its tick words
    stand for.

    A time is an integer that does not wrap. `base` is the time at which the tick word was
    last zero, `m` the number of words. */
module TimerState {
  import opened Arithmetic
  import opened RingLinks
  import opened SortedInsertion
  import opened TaskLists

  type Timer = Task

  datatype Command =
    | Start(timer: Timer, value: nat)
    | Stop(timer: Timer)
    | ChangePeriod(timer: Timer, period: nat)
    | Delete(timer: Timer)

  /** Close enough to the epoch of `base` for its word to be told from `base`. */
  ghost predicate InReach(x: int, base: int, m: nat) {
    base - m <= x < base + 2 * m
  }

  /** The tick word at a time. */
  ghost function WordOf(x: int, base: int, m: nat): (w: nat)
    requires InReach(x, base, m)
    ensures w < m
  {
    if x < base then x - base + m else if x < base + m then x - base else x - base - m
  }

  datatype Placement = ProcessNow | CurrentList | OverflowList

  /** The decision of prvInsertTimerInActiveList. */
  function PlacementFor(next: nat, now: nat, command: nat, period: nat, m: nat): (p: Placement)
    requires next < m && now < m && command < m
  {
    if next <= now then
      if WordMinus(now, command, m) >= period then ProcessNow else OverflowList
    else if now < command && next >= command then
      ProcessNow
    else
      CurrentList
  }

  /** A timer is placed by its real expiry time, however the three words compare. */
  lemma PlacementIsRight(command: int, now: int, period: nat, base: int, m: nat)
    requires 0 < period < m && base <= now < base + m && command <= now < command + m
    ensures InReach(command + period, base, m) && InReach(command, base, m) && InReach(now, base, m)
    ensures WordOf(command + period, base, m) == Onward(WordOf(command, base, m), period, m)
    ensures PlacementFor(WordOf(command + period, base, m), WordOf(now, base, m), WordOf(command, base, m), period, m)
      == if now - command >= period then ProcessNow
         else if command + period < base + m then CurrentList
         else OverflowList
  {
  }

  /** How the timers that nobody but the daemon touches are found. */
  datatype Found = Found(current: seq<Timer>, overflow: seq<Timer>, value: map<Timer, nat>, queue: seq<Command>)

  ghost function Targets(queue: seq<Command>): (s: set<Timer>) {
    set i | 0 <= i < |queue| :: queue[i].timer
  }

  ghost predicate PeriodsOk(period: map<Timer, nat>, m: nat) {
    forall t :: t in period ==> 0 < period[t] < m
  }

  ghost predicate ListOk(list: seq<Timer>, value: map<Timer, nat>, period: map<Timer, nat>, m: nat) {
    && NoDuplicates(list) && SortedBy(list, value)
    && forall t :: t in list ==> t in period && value[t] < m
  }

  ghost predicate ListsOk(f: Found, period: map<Timer, nat>, m: nat) {
    && ListOk(f.current, f.value, period, m) && ListOk(f.overflow, f.value, period, m)
    && (forall t :: t in f.current ==> t !in f.overflow)
    && (forall i :: 0 <= i < |f.queue| ==> f.queue[i].timer in period && (f.queue[i].Start? ==> f.queue[i].value < m))
    && (forall i :: 0 <= i < |f.queue| && f.queue[i].ChangePeriod? ==> 0 < f.queue[i].period < m)
  }

  /** The running timers of a list are due in the epoch that begins at `base`, at the tick
      their item value names. */
  ghost predicate DueIn(list: seq<Timer>, value: map<Timer, nat>, running: set<Timer>, due: map<Timer, int>, base: int,
                        m: nat) {
    forall t :: t in running && t in list ==>
      t in due && t in value && base <= due[t] < base + m && value[t] == due[t] - base
  }

  /** A start command in the queue is the only trace of its timer, and names the time one
      period before the timer is due. */
  ghost predicate CommandsOk(f: Found, running: set<Timer>, due: map<Timer, int>, period: map<Timer, nat>, base: int,
                             m: nat) {
    && (forall i :: 0 <= i < |f.queue| && f.queue[i].timer in running ==>
          var t := f.queue[i].timer;
          && t in due && t in period && t !in f.current && t !in f.overflow && f.queue[i].Start?
          && InReach(due[t] - period[t], base, m) && f.queue[i].value == WordOf(due[t] - period[t], base, m))
    && (forall i, j :: 0 <= i < j < |f.queue| ==> f.queue[i].timer == f.queue[j].timer ==> f.queue[i].timer !in running)
  }

  /** A running timer is in one place, and what it says there agrees with the time it is
      due: in this epoch, in the next, or by a start command. */
  ghost predicate RunningOk(f: Found, running: set<Timer>, due: map<Timer, int>, period: map<Timer, nat>, base: int,
                            m: nat) {
    && (forall t :: t in running ==> t in due && t in period && 0 < period[t] < m)
    && DueIn(f.current, f.value, running, due, base, m)
    && DueIn(f.overflow, f.value, running, due, base + m, m)
    && CommandsOk(f, running, due, period, base, m)
    && (forall t :: t in running ==> t in f.current || t in f.overflow || t in Targets(f.queue))
  }

  /** The daemon looks at the clock less than one wrap after each start command of a running
      timer, and less than one wrap after each expiry of this epoch. */
  ghost predicate InTime(f: Found, running: set<Timer>, due: map<Timer, int>, period: map<Timer, nat>, m: nat,
                         reading: int) {
    && (forall i :: 0 <= i < |f.queue| && f.queue[i].timer in running ==>
          var t := f.queue[i].timer;
          t in due && t in period && due[t] - period[t] <= reading < due[t] - period[t] + m)
    && (forall t :: t in running && t in f.current ==> t in due && reading < due[t] + m)
  }

  /** The times at which a timer's callback ran follow each other, and the start, by one
      period each; the timer is due one period later. */
  ghost predicate Periodic(start: int, times: seq<int>, due: int, period: nat) {
    && (times != [] ==> times[0] == start + period)
    && (forall i :: 0 < i < |times| ==> times[i] == times[i - 1] + period)
    && due == (if times == [] then start else times[|times| - 1]) + period
  }

  /** A timer that is being handled: it is in no list, and no command is queued for it if
      it is a running one. */
  ghost predicate InHand(f: Found, running: set<Timer>, t: Timer) {
    t !in f.current && t !in f.overflow && (t in running ==> t !in Targets(f.queue))
  }

  /** Where the placement put the timer, under its expiry time. */
  ghost predicate Seated(f: Found, p: Placement, t: Timer, next: nat) {
    match p
    case ProcessNow => t !in f.current && t !in f.overflow
    case CurrentList => t in f.current && t !in f.overflow && t in f.value && f.value[t] == next
    case OverflowList => t in f.overflow && t !in f.current && t in f.value && f.value[t] == next
  }

  lemma SeatedStill(f: Found, queue: seq<Command>, p: Placement, t: Timer, next: nat)
    requires Seated(f, p, t, next)
    ensures Seated(f.(queue := queue), p, t, next)
  {
  }

  /** Counted from now, an expiry is in this epoch or in the next one. */
  lemma PlacementFromNow(now: nat, period: nat, m: nat)
    requires 0 < period < m && now < m
    ensures PlacementFor(Onward(now, period, m), now, now, period, m)
         == if now + period < m then CurrentList else OverflowList
  {
  }

  lemma OutOfHand(f: Found, running: set<Timer>, t: Timer)
    requires InHand(f, running, t)
    ensures t !in f.current && t !in f.overflow
  {
  }

  lemma ListedValues(f: Found, period: map<Timer, nat>, m: nat)
    requires ListsOk(f, period, m)
    ensures forall t :: t in f.current ==> t in f.value && f.value[t] < m
  {
  }

  lemma NotListed(f: Found, running: set<Timer>, t: Timer)
    requires InHand(f, running, t)
    ensures t !in f.current && t !in f.overflow
  {
  }

  lemma TakeHead(f: Found, running: set<Timer>, due: map<Timer, int>, period: map<Timer, nat>, base: int, m: nat)
    requires ListsOk(f, period, m) && RunningOk(f, running, due, period, base, m) && f.current != []
    ensures var t, rest := f.current[0], f.(current := f.current[1..]);
      && t in f.value && f.value[t] < m && t in period
      && ListsOk(rest, period, m) && RunningOk(rest, running - {t}, due, period, base, m) && InHand(rest, running, t)
      && (t in running ==> t in due && base <= due[t] < base + m && f.value[t] == due[t] - base)
      && (forall x :: x in rest.current ==> x in f.value && f.value[t] <= f.value[x] < m)
  {
    HeadIs(f, running, due, period, base, m);
    hide ListsOk, RunningOk, Without;
    TakeOut(f, running, due, period, base, m, f.current[0]);
    assert OutOfLists(f, f.current[0]) == f.(current := f.current[1..]);
  }

  lemma HeadIs(f: Found, running: set<Timer>, due: map<Timer, int>, period: map<Timer, nat>, base: int, m: nat)
    requires ListsOk(f, period, m) && RunningOk(f, running, due, period, base, m) && f.current != []
    ensures var t := f.current[0];
      && t in f.current && t !in f.overflow && Without(f.current, t) == f.current[1..]
      && t in f.value && f.value[t] < m && t in period
      && (t in running ==>
          t !in Targets(f.queue) && t in due && base <= due[t] < base + m && f.value[t] == due[t] - base)
      && (forall x :: x in f.current[1..] ==> x in f.value && f.value[t] <= f.value[x] < m)
  {
    assert f.current[0] in f.current;
    forall x | x in f.current[1..]
      ensures x in f.current && x in f.value && f.value[f.current[0]] <= f.value[x]
    {
      var i :| 0 <= i < |f.current| - 1 && f.current[1..][i] == x;
      assert f.current[i + 1] == x;
    }
  }

  /** uxListRemove, when the timer is in a list. */
  function OutOfLists(f: Found, t: Timer): (r: Found) {
    f.(current := if t in f.current then Without(f.current, t) else f.current,
       overflow := if t in f.overflow then Without(f.overflow, t) else f.overflow)
  }

  lemma TakeOut(f: Found, running: set<Timer>, due: map<Timer, int>, period: map<Timer, nat>, base: int, m: nat,
                t: Timer)
    requires ListsOk(f, period, m) && RunningOk(f, running, due, period, base, m)
    ensures var rest := OutOfLists(f, t);
      ListsOk(rest, period, m) && RunningOk(rest, running - {t}, due, period, base, m) && t !in rest.current
        && t !in rest.overflow
  {
    if t in f.current {
      WithoutKeeps(f.current, t);
      WithoutKeepsSortedBy(f.current, t, f.value);
    }
    if t in f.overflow {
      WithoutKeeps(f.overflow, t);
      WithoutKeepsSortedBy(f.overflow, t, f.value);
    }
  }

  /** The command that xQueueReceive hands to the daemon leaves the queue. */
  lemma TakeCommand(f: Found, running: set<Timer>, due: map<Timer, int>, period: map<Timer, nat>, base: int, m: nat)
    requires ListsOk(f, period, m) && RunningOk(f, running, due, period, base, m) && f.queue != []
    ensures var command, rest := f.queue[0], f.(queue := f.queue[1..]);
      && ListsOk(rest, period, m) && RunningOk(rest, running - {command.timer}, due, period, base, m)
      && command.timer in period && (command.Start? ==> command.value < m)
      && (command.timer in running ==>
            && InHand(rest, running, command.timer) && command.Start?
            && InReach(due[command.timer] - period[command.timer], base, m)
            && command.value == WordOf(due[command.timer] - period[command.timer], base, m))
  {
    var command, rest := f.queue[0], f.(queue := f.queue[1..]);
    assert forall i :: 0 <= i < |rest.queue| ==> rest.queue[i] == f.queue[i + 1];
    forall t | t in Targets(f.queue) && t != command.timer
      ensures t in Targets(rest.queue)
    {
      var i :| 0 <= i < |f.queue| && f.queue[i].timer == t;
      assert rest.queue[i - 1].timer == t;
    }
  }

  function PutCurrent(f: Found, t: Timer, v: nat): (r: Found)
    requires forall x :: x in f.current ==> x in f.value
  {
    var value := f.value[t := v];
    f.(value := value, current := InsertAt(f.current, PlaceFor(f.current, value, v), t))
  }

  function PutOverflow(f: Found, t: Timer, v: nat): (r: Found)
    requires forall x :: x in f.overflow ==> x in f.value
  {
    var value := f.value[t := v];
    f.(value := value, overflow := InsertAt(f.overflow, PlaceFor(f.overflow, value, v), t))
  }

  lemma PutKeepsList(list: seq<Timer>, value: map<Timer, nat>, period: map<Timer, nat>, m: nat, t: Timer, v: nat)
    requires ListOk(list, value, period, m) && t !in list && t in period && v < m
    ensures ListOk(list, value[t := v], period, m)
    ensures var k := PlaceFor(list, value[t := v], v);
      ListOk(InsertAt(list, k, t), value[t := v], period, m)
        && forall x :: x in InsertAt(list, k, t) <==> x in list || x == t
  {
    InsertKeepsSortedBy(list, t, value[t := v]);
    InsertKeeps(list, PlaceFor(list, value[t := v], v), t);
  }

  lemma PutLists(f: Found, running: set<Timer>, period: map<Timer, nat>, m: nat, t: Timer, v: nat)
    requires ListsOk(f, period, m) && InHand(f, running, t) && t in period && v < m
    ensures (forall x :: x in f.current ==> x in f.value) && (forall x :: x in f.overflow ==> x in f.value)
    ensures ListsOk(PutCurrent(f, t, v), period, m) && ListsOk(PutOverflow(f, t, v), period, m)
    ensures forall x :: x in PutCurrent(f, t, v).current <==> x in f.current || x == t
    ensures forall x :: x in PutOverflow(f, t, v).overflow <==> x in f.overflow || x == t
  {
    PutKeepsList(f.current, f.value, period, m, t, v);
    PutKeepsList(f.overflow, f.value, period, m, t, v);
  }

  /** What is due for the timer in hand does not matter to the others. */
  lemma Redue(f: Found, running: set<Timer>, due: map<Timer, int>, period: map<Timer, nat>, base: int, m: nat,
              t: Timer, d: int)
    requires RunningOk(f, running - {t}, due, period, base, m)
    ensures RunningOk(f, running - {t}, due[t := d], period, base, m)
  {
  }

  lemma PutDue(list: seq<Timer>, now: seq<Timer>, value: map<Timer, nat>, running: set<Timer>, due: map<Timer, int>,
               base: int, m: nat, t: Timer, v: nat)
    requires DueIn(list, value, running - {t}, due, base, m)
    requires t in running ==> t in due && base <= due[t] < base + m && v == due[t] - base
    requires forall x :: x in now <==> x in list || x == t
    ensures DueIn(now, value[t := v], running, due, base, m)
  {
  }

  lemma KeepDue(list: seq<Timer>, value: map<Timer, nat>, running: set<Timer>, due: map<Timer, int>,
                base: int, m: nat, t: Timer, v: nat)
    requires DueIn(list, value, running - {t}, due, base, m) && t !in list
    ensures DueIn(list, value[t := v], running, due, base, m)
  {
  }

  lemma KeepCommands(f: Found, r: Found, running: set<Timer>, due: map<Timer, int>, period: map<Timer, nat>, base: int,
                     m: nat, t: Timer)
    requires CommandsOk(f, running - {t}, due, period, base, m) && InHand(f, running, t) && r.queue == f.queue
    requires forall x :: x in r.current || x in r.overflow <==> x in f.current || x in f.overflow || x == t
    ensures CommandsOk(r, running, due, period, base, m)
  {
    if t in running {
      QueuedElsewhere(f, running, t);
    }
    assert forall i :: 0 <= i < |f.queue| && f.queue[i].timer in running ==> f.queue[i].timer in running - {t};
    forall x | x !in f.current && x !in f.overflow && x != t
      ensures x !in r.current && x !in r.overflow
    {
    }
  }

  lemma PutCurrentOk(f: Found, running: set<Timer>, due: map<Timer, int>, period: map<Timer, nat>, base: int, m: nat,
                     t: Timer, v: nat)
    requires ListsOk(f, period, m) && RunningOk(f, running - {t}, due, period, base, m) && InHand(f, running, t)
    requires t in period && 0 < period[t] < m && v < m
    requires t in running ==> t in due && base <= due[t] < base + m && v == due[t] - base
    ensures forall x :: x in f.current ==> x in f.value
    ensures ListsOk(PutCurrent(f, t, v), period, m)
    ensures forall x :: x in PutCurrent(f, t, v).current <==> x in f.current || x == t
    ensures RunningOk(PutCurrent(f, t, v), running, due, period, base, m)
  {
    hide ListOk, DueIn, CommandsOk, PlaceFor, InsertAt, Targets;
    PutLists(f, running, period, m, t, v);
    PutDue(f.current, PutCurrent(f, t, v).current, f.value, running, due, base, m, t, v);
    KeepDue(f.overflow, f.value, running, due, base + m, m, t, v);
    KeepCommands(f, PutCurrent(f, t, v), running, due, period, base, m, t);
  }

  lemma PutOverflowOk(f: Found, running: set<Timer>, due: map<Timer, int>, period: map<Timer, nat>, base: int, m: nat,
                      t: Timer, v: nat)
    requires ListsOk(f, period, m) && RunningOk(f, running - {t}, due, period, base, m) && InHand(f, running, t)
    requires t in period && 0 < period[t] < m && v < m
    requires t in running ==> t in due && base + m <= due[t] < base + 2 * m && v == due[t] - base - m
    ensures forall x :: x in f.overflow ==> x in f.value
    ensures ListsOk(PutOverflow(f, t, v), period, m)
    ensures forall x :: x in PutOverflow(f, t, v).overflow <==> x in f.overflow || x == t
    ensures RunningOk(PutOverflow(f, t, v), running, due, period, base, m)
  {
    hide ListOk, DueIn, CommandsOk, PlaceFor, InsertAt, Targets;
    PutLists(f, running, period, m, t, v);
    PutDue(f.overflow, PutOverflow(f, t, v).overflow, f.value, running, due, base + m, m, t, v);
    KeepDue(f.current, f.value, running, due, base, m, t, v);
    KeepCommands(f, PutOverflow(f, t, v), running, due, period, base, m, t);
  }

  /** The lists after prvInsertTimerInActiveList. */
  function Placed(f: Found, p: Placement, t: Timer, v: nat): (r: Found)
    requires (forall x :: x in f.current ==> x in f.value) && (forall x :: x in f.overflow ==> x in f.value)
  {
    match p
    case ProcessNow => f.(value := f.value[t := v])
    case CurrentList => PutCurrent(f, t, v)
    case OverflowList => PutOverflow(f, t, v)
  }

  lemma PlacedIsSeated(f: Found, running: set<Timer>, p: Placement, t: Timer, next: nat)
    requires InHand(f, running, t) && (forall x :: x in f.current ==> x in f.value)
    requires forall x :: x in f.overflow ==> x in f.value
    ensures Seated(Placed(f, p, t, next), p, t, next)
  {
  }

  /** Placing a timer in hand adds nothing to what the daemon is late with. */
  lemma PlacedWeight(f: Found, t: Timer, next: nat, tick: nat, command: nat, period: nat, m: nat)
    requires (forall x :: x in f.current ==> x in f.value) && (forall x :: x in f.overflow ==> x in f.value)
    requires t !in f.current && next < m && tick < m && command < m
    ensures var r := Placed(f, PlacementFor(next, tick, command, period, m), t, next);
      SumOver(r.current, r.value, Lateness(tick)) == SumOver(f.current, f.value, Lateness(tick))
  {
    hide SumOver, PlaceFor, InsertAt;
    SumSame(f.current, f.value, Lateness(tick), t, next);
    SumInsert(f.current, f.value, Lateness(tick), PlaceFor(f.current, f.value[t := next], next), t, next);
  }

  lemma PlacedOk(f: Found, running: set<Timer>, due: map<Timer, int>, period: map<Timer, nat>, base: int, m: nat,
                 t: Timer, next: nat, now: int, command: nat)
    requires ListsOk(f, period, m) && RunningOk(f, running - {t}, due, period, base, m) && InHand(f, running, t)
    requires t in period && 0 < period[t] < m && command < m && base <= now < base + m
    requires next == Onward(command, period[t], m)
    requires t in running ==>
      && t in due && InReach(due[t] - period[t], base, m) && command == WordOf(due[t] - period[t], base, m)
      && due[t] - period[t] <= now < due[t] - period[t] + m
    ensures (forall x :: x in f.current ==> x in f.value) && (forall x :: x in f.overflow ==> x in f.value)
    ensures var p := PlacementFor(next, now - base, command, period[t], m);
      var r := Placed(f, p, t, next);
      && ListsOk(r, period, m) && r.queue == f.queue
      && (if p == ProcessNow then RunningOk(r, running - {t}, due, period, base, m) && InHand(r, running, t)
          else RunningOk(r, running, due, period, base, m))
      && (forall x :: x in r.current ==> x in f.current || x == t) && (p == ProcessNow ==> r.current == f.current)
      && SumOver(r.current, r.value, Lateness(now - base)) == SumOver(f.current, f.value, Lateness(now - base))
  {
    hide ListsOk, RunningOk, InHand, SumOver, PlaceFor, InsertAt;
    PutLists(f, running, period, m, t, next);
    NotListed(f, running, t);
    PlacedWeight(f, t, next, now - base, command, period[t], m);
    if t in running {
      PlacementIsRight(due[t] - period[t], now, period[t], base, m);
    }
    match PlacementFor(next, now - base, command, period[t], m)
    case ProcessNow => ValueOk(f, running, due, period, base, m, t, next);
    case CurrentList => PutCurrentOk(f, running, due, period, base, m, t, next);
    case OverflowList => PutOverflowOk(f, running, due, period, base, m, t, next);
  }

  lemma QueuedElsewhere(f: Found, running: set<Timer>, t: Timer)
    requires InHand(f, running, t) && t in running
    ensures forall i :: 0 <= i < |f.queue| ==> f.queue[i].timer != t
  {
    forall i | 0 <= i < |f.queue|
      ensures f.queue[i].timer != t
    {
      assert f.queue[i].timer in Targets(f.queue);
    }
  }

  lemma EnqueuedCommandsOk(f: Found, running: set<Timer>, due: map<Timer, int>, period: map<Timer, nat>, base: int,
                           m: nat, t: Timer, v: nat)
    requires CommandsOk(f, running - {t}, due, period, base, m) && InHand(f, running, t) && t in period
    requires t in running ==>
      t in due && InReach(due[t] - period[t], base, m) && v == WordOf(due[t] - period[t], base, m)
    ensures CommandsOk(f.(queue := f.queue + [Start(t, v)]), running, due, period, base, m)
  {
    var r := f.(queue := f.queue + [Start(t, v)]);
    if t in running {
      QueuedElsewhere(f, running, t);
    }
    assert forall i :: 0 <= i < |f.queue| ==> r.queue[i] == f.queue[i];
  }

  lemma EnqueuedTargets(queue: seq<Command>, command: Command)
    ensures Targets(queue + [command]) == Targets(queue) + {command.timer}
  {
    var r := queue + [command];
    assert r[|queue|] == command;
    forall t | t in Targets(queue)
      ensures t in Targets(r)
    {
      var i :| 0 <= i < |queue| && queue[i].timer == t;
      assert r[i].timer == t;
    }
  }

  /** xTimerGenericCommand for the daemon's own start command. */
  lemma EnqueueOk(f: Found, running: set<Timer>, due: map<Timer, int>, period: map<Timer, nat>, base: int, m: nat,
                  t: Timer, v: nat)
    requires ListsOk(f, period, m) && RunningOk(f, running - {t}, due, period, base, m) && InHand(f, running, t)
    requires t in period && 0 < period[t] < m && v < m
    requires t in running ==>
      t in due && InReach(due[t] - period[t], base, m) && v == WordOf(due[t] - period[t], base, m)
    ensures var r := f.(queue := f.queue + [Start(t, v)]);
      ListsOk(r, period, m) && RunningOk(r, running, due, period, base, m)
  {
    hide CommandsOk, Targets;
    EnqueuedCommandsOk(f, running, due, period, base, m, t, v);
    EnqueuedTargets(f.queue, Start(t, v));
    QueuedLists(f, Start(t, v), period, m);
  }

  lemma QueuedLists(f: Found, command: Command, period: map<Timer, nat>, m: nat)
    requires ListsOk(f, period, m) && command.timer in period
    requires (command.Start? ==> command.value < m) && (command.ChangePeriod? ==> 0 < command.period < m)
    ensures ListsOk(f.(queue := f.queue + [command]), period, m)
  {
    var r := f.(queue := f.queue + [command]);
    assert forall i :: 0 <= i < |r.queue| ==> r.queue[i] == if i < |f.queue| then f.queue[i] else command;
  }

  /** The lists change their roles when the tick word has wrapped. By then the current list
      is empty, and every start command names a time of the last or the new epoch. */
  lemma SwitchedOk(f: Found, running: set<Timer>, due: map<Timer, int>, period: map<Timer, nat>, base: int, m: nat,
                   reading: int)
    requires ListsOk(f, period, m) && RunningOk(f, running, due, period, base, m) && f.current == []
    requires base + m <= reading < base + 2 * m && InTime(f, running, due, period, m, reading)
    ensures var r := f.(current := f.overflow, overflow := f.current);
      ListsOk(r, period, m) && RunningOk(r, running, due, period, base + m, m)
        && InTime(r, running, due, period, m, reading)
  {
  }

  lemma ValueOk(f: Found, running: set<Timer>, due: map<Timer, int>, period: map<Timer, nat>, base: int, m: nat,
                t: Timer, v: nat)
    requires ListsOk(f, period, m) && RunningOk(f, running - {t}, due, period, base, m) && InHand(f, running, t)
    requires t in period && v < m
    ensures var r := f.(value := f.value[t := v]);
      ListsOk(r, period, m) && RunningOk(r, running - {t}, due, period, base, m) && InHand(r, running, t)
  {
    ValueInLists(f, running, period, m, t, v);
    hide ListsOk;
    ValueInRunning(f, running, due, period, base, m, t, v);
  }

  lemma ValueInLists(f: Found, running: set<Timer>, period: map<Timer, nat>, m: nat, t: Timer, v: nat)
    requires ListsOk(f, period, m) && InHand(f, running, t) && t in period && v < m
    ensures ListsOk(f.(value := f.value[t := v]), period, m)
  {
    PutKeepsList(f.current, f.value, period, m, t, v);
    PutKeepsList(f.overflow, f.value, period, m, t, v);
  }

  lemma ValueInRunning(f: Found, running: set<Timer>, due: map<Timer, int>, period: map<Timer, nat>, base: int, m: nat,
                       t: Timer, v: nat)
    requires RunningOk(f, running - {t}, due, period, base, m)
    ensures RunningOk(f.(value := f.value[t := v]), running - {t}, due, period, base, m)
  {
    ValueInDue(f.current, f.value, running, due, base, m, t, v);
    ValueInDue(f.overflow, f.value, running, due, base + m, m, t, v);
    hide DueIn;
  }

  lemma ValueInDue(list: seq<Timer>, value: map<Timer, nat>, running: set<Timer>, due: map<Timer, int>, base: int,
                   m: nat, t: Timer, v: nat)
    requires DueIn(list, value, running - {t}, due, base, m)
    ensures DueIn(list, value[t := v], running - {t}, due, base, m)
  {
  }

  /** Every running timer has had its callbacks one period after the other, and none before
      its time. */
  ghost predicate HistoryOk(running: set<Timer>, start: map<Timer, int>, times: map<Timer, seq<int>>,
                            due: map<Timer, int>, period: map<Timer, nat>, now: int) {
    forall t :: t in running ==>
      && t in start && t in times && t in due && t in period && Periodic(start[t], times[t], due[t], period[t])
      && (times[t] != [] ==> times[t][|times[t]| - 1] <= now)
  }

  lemma PeriodicGrows(start: int, times: seq<int>, due: int, period: nat)
    requires Periodic(start, times, due, period)
    ensures Periodic(start, times + [due], due + period, period)
  {
    var more := times + [due];
    forall i | 0 < i < |more|
      ensures more[i] == more[i - 1] + period
    {
      assert more[i - 1] == times[i - 1];
      if i < |times| {
        assert more[i] == times[i];
      }
    }
  }

  lemma Fired(running: set<Timer>, start: map<Timer, int>, times: map<Timer, seq<int>>, due: map<Timer, int>,
              period: map<Timer, nat>, now: int, t: Timer)
    requires HistoryOk(running, start, times, due, period, now) && t in running && (t in due ==> due[t] <= now)
    ensures t in due && t in period && t in times
    ensures HistoryOk(running, start, times[t := times[t] + [due[t]]], due[t := due[t] + period[t]], period, now)
  {
    hide Periodic;
    PeriodicGrows(start[t], times[t], due[t], period[t]);
  }

  /** A callback as prvSwitchTimerLists makes it: of a timer, for an item value. */
  datatype Expiry = Expiry(timer: Timer, value: nat)

  ghost predicate InExpiryOrder(fired: seq<Expiry>) {
    forall i, j :: 0 <= i < j < |fired| ==> fired[i].value <= fired[j].value
  }

  ghost predicate HasFired(fired: seq<Expiry>, t: Timer) {
    exists i :: 0 <= i < |fired| && fired[i].timer == t
  }

  /** The times that some callbacks of a timer were due at. */
  ghost function CallsOf(fired: seq<Expiry>, t: Timer, base: int): (times: seq<int>) {
    if fired == [] then []
    else
      var last := fired[|fired| - 1];
      CallsOf(fired[..|fired| - 1], t, base) + (if last.timer == t then [base + last.value] else [])
  }

  /** The callbacks of the running timers grew by just these. */
  ghost predicate Called(running: set<Timer>, was: map<Timer, seq<int>>, now: map<Timer, seq<int>>, fired: seq<Expiry>,
                         base: int) {
    forall t :: t in running ==> t in was && t in now && now[t] == was[t] + CallsOf(fired, t, base)
  }

  lemma NoneCalled(running: set<Timer>, times: map<Timer, seq<int>>, base: int)
    requires forall t :: t in running ==> t in times
    ensures Called(running, times, times, [], base)
  {
    forall t | t in running
      ensures times[t] == times[t] + CallsOf([], t, base)
    {
    }
  }

  lemma CalledNext(running: set<Timer>, was: map<Timer, seq<int>>, mid: map<Timer, seq<int>>, now: map<Timer, seq<int>>,
                   fired: seq<Expiry>, e: Expiry, base: int)
    requires Called(running, was, mid, fired, base)
    requires if e.timer in mid then now == mid || now == mid[e.timer := mid[e.timer] + [base + e.value]] else now == mid
    requires e.timer in running ==> e.timer in mid && now == mid[e.timer := mid[e.timer] + [base + e.value]]
    ensures Called(running, was, now, fired + [e], base)
  {
    assert (fired + [e])[..|fired|] == fired;
    forall t | t in running
      ensures t in now && now[t] == was[t] + CallsOf(fired + [e], t, base)
    {
      assert was[t] + CallsOf(fired, t, base) + [] == was[t] + CallsOf(fired, t, base);
    }
  }

  lemma FiredMore(fired: seq<Expiry>, e: Expiry)
    requires InExpiryOrder(fired) && (fired != [] ==> fired[|fired| - 1].value <= e.value)
    ensures InExpiryOrder(fired + [e]) && HasFired(fired + [e], e.timer)
    ensures forall t :: HasFired(fired, t) ==> HasFired(fired + [e], t)
  {
    assert (fired + [e])[|fired|] == e;
    forall t | HasFired(fired, t)
      ensures HasFired(fired + [e], t)
    {
      var i :| 0 <= i < |fired| && fired[i].timer == t;
      assert (fired + [e])[i] == fired[i];
    }
  }

  /** Auto-reload timers run on; the others run until they expire. */
  ghost predicate Kept(was: set<Timer>, now: set<Timer>, autoReload: set<Timer>) {
    now <= was && forall t :: t in was && t in autoReload ==> t in now
  }

  /** No callback that happened is forgotten. */
  ghost predicate Longer(was: map<Timer, seq<int>>, now: map<Timer, seq<int>>) {
    forall t :: t in was ==> t in now && was[t] <= now[t]
  }

  /** What can be seen of the daemon between two of its actions. */
  datatype View = View(now: int, running: set<Timer>, start: map<Timer, int>, due: map<Timer, int>,
                       times: map<Timer, seq<int>>, period: map<Timer, nat>, queue: seq<Command>)

  /** A command arrives, or the daemon looks at its lists, or handles a command. */
  datatype Action = Sends(command: Command) | Looks(blocks: bool) | Handles

  /** The timer runs on from the same start with the same period; callbacks are only added. */
  ghost predicate RunsOn(was: View, now: View, t: Timer) {
    && t in now.running && t in was.start && t in now.start && now.start[t] == was.start[t]
    && t in was.period && t in now.period && now.period[t] == was.period[t]
    && t in was.times && t in now.times && was.times[t] <= now.times[t]
  }

  ghost predicate Spares(a: Action, t: Timer) {
    a.Sends? ==> a.command.timer != t
  }

  ghost predicate HistoryIn(v: View) {
    HistoryOk(v.running, v.start, v.times, v.due, v.period, v.now)
  }

  /** What every action of the daemon keeps: the histories, and each auto-reload timer that no
      command names. When it blocks and no command waits, nothing is due. */
  ghost predicate Acts(a: Action, was: View, now: View, autoReload: set<Timer>) {
    && was.now <= now.now && HistoryIn(now)
    && (forall t :: t in was.running && t in autoReload && Spares(a, t) ==> RunsOn(was, now, t))
    && (a == Looks(true) && now.queue == [] ==> forall t :: t in now.running ==> t in now.due && now.now < now.due[t])
  }

  ghost predicate Untouched<V(!new)>(t: Timer, was: map<Timer, V>, now: map<Timer, V>) {
    forall x :: x != t && x in was ==> x in now && now[x] == was[x]
  }

  /** A command that arrives concerns its own timer only. */
  lemma SendActs(command: Command, was: View, now: View, autoReload: set<Timer>)
    requires HistoryIn(was) && HistoryIn(now) && was.now == now.now && now.period == was.period
    requires forall t :: t in was.running && t != command.timer ==> t in now.running
    requires Untouched(command.timer, was.start, now.start) && Untouched(command.timer, was.times, now.times)
    ensures Acts(Sends(command), was, now, autoReload)
  {
  }

  lemma Acted(a: Action, was: View, now: View, autoReload: set<Timer>)
    requires HistoryIn(was) && HistoryIn(now) && was.now <= now.now && now.start == was.start
    requires Kept(was.running, now.running, autoReload) && Longer(was.times, now.times)
    requires forall t :: t in now.running && t in was.period ==> t in now.period && now.period[t] == was.period[t]
    requires a == Looks(true) && now.queue == [] ==> forall t :: t in now.running ==>
      t in now.due && now.now < now.due[t]
    ensures Acts(a, was, now, autoReload)
  {
  }

  /** What happens to the daemon from outside: a command arrives, or it gets to run. */
  datatype Event = Arrives(command: Command) | Wakes(timeNow: nat)

  /** The clock moves on from one event to the next, and the daemon runs at least once a wrap;
      `last` is when it ran last. */
  ghost predicate Timely(events: seq<Event>, clock: seq<int>, last: int, now: int, m: nat)
    requires |clock| == |events|
  {
    events != [] ==>
      && now <= clock[0] < last + m
      && Timely(events[1..], clock[1..], if events[0].Wakes? then clock[0] else last, clock[0], m)
  }

  /** The words that the events carry are those of their times, counted from `origin`. */
  ghost predicate Stamped(e: Event, time: int, origin: int, m: nat)
    requires m > 0
  {
    && origin <= time
    && match e
       case Arrives(Start(_, value)) => value == Word(time - origin, m)
       case Arrives(_) => true
       case Wakes(timeNow) => timeNow == Word(time - origin, m)
  }

  ghost predicate Meaningful(e: Event, period: map<Timer, nat>, m: nat) {
    e.Arrives? ==> e.command.timer in period && (e.command.ChangePeriod? ==> 0 < e.command.period < m)
  }

  lemma WordFromOrigin(x: int, base: int, origin: int, m: nat)
    requires m > 0 && origin <= base <= x < base + 2 * m && Word(base - origin, m) == 0
    ensures WordOf(x, base, m) == Word(x - origin, m) && Word(base + m - origin, m) == 0
  {
    assert Word(base + m - origin, m) == 0;
    if x < base + m {
      WordStep(base - origin, x - base, m);
    } else {
      WordStep(base + m - origin, x - base - m, m);
    }
  }

  /** Between two runs of the daemon nothing is due, and the start commands that wait are for
      times since it ran last. */
  ghost predicate Rested(f: Found, running: set<Timer>, due: map<Timer, int>, period: map<Timer, nat>, last: int,
                         now: int) {
    && (forall t :: t in running ==> t in due && last < due[t])
    && forall i :: 0 <= i < |f.queue| && f.queue[i].timer in running ==>
         var t := f.queue[i].timer; t in due && t in period && last <= due[t] - period[t] <= now
  }

  lemma RestedInTime(f: Found, running: set<Timer>, due: map<Timer, int>, period: map<Timer, nat>, last: int, now: int,
                     m: nat, reading: int)
    requires Rested(f, running, due, period, last, now) && now <= reading < last + m
    ensures InTime(f, running, due, period, m, reading)
  {
  }

  /** The callbacks of the timer ran for start + period, start + 2 * period and so on, until
      now, each once and in this order. */
  ghost predicate OnSchedule(v: View, t: Timer, start: int, period: nat) {
    && t in v.times
    && var n := |v.times[t]|;
      && (forall i :: 0 <= i < n ==> v.times[t][i] == start + (i + 1) * period)
      && (n > 0 ==> start + n * period <= v.now) && v.now < start + (n + 1) * period
  }

  lemma {:induction false} PeriodicIs(start: int, times: seq<int>, due: int, period: nat, n: nat)
    requires Periodic(start, times, due, period) && n <= |times|
    ensures forall i :: 0 <= i < n ==> times[i] == start + (i + 1) * period
    ensures n == |times| ==> due == start + (n + 1) * period
  {
    if n > 0 {
      PeriodicIs(start, times, due, period, n - 1);
      Distributes(n - 1, 1, period);
      assert n == 1 || times[n - 1] == times[n - 2] + period;
      assert times[n - 1] == start + n * period;
    }
    Distributes(n, 1, period);
  }

  lemma CaughtUpIsOnSchedule(v: View, t: Timer)
    requires HistoryIn(v) && t in v.running && (t in v.due ==> v.now < v.due[t])
    ensures t in v.start && t in v.period && OnSchedule(v, t, v.start[t], v.period[t])
  {
    PeriodicIs(v.start[t], v.times[t], v.due[t], v.period[t], |v.times[t]|);
  }

  ghost predicate Unnamed(events: seq<Event>, t: Timer) {
    forall i :: 0 <= i < |events| && events[i].Arrives? ==> events[i].command.timer != t
  }

  lemma StartsOn(v: View)
    requires HistoryIn(v)
    ensures forall t :: t in v.running ==> RunsOn(v, v, t)
  {
  }

  lemma RunsOnNext(a: Action, first: View, was: View, now: View, autoReload: set<Timer>, t: Timer)
    requires RunsOn(first, was, t) && Acts(a, was, now, autoReload) && t in autoReload && Spares(a, t)
    ensures RunsOn(first, now, t)
  {
  }

  /** A command that arrives leaves the others as they are. */
  lemma RestedAfter(f: Found, r: Found, running: set<Timer>, nowRunning: set<Timer>, due: map<Timer, int>,
                    nowDue: map<Timer, int>,
                    period: map<Timer, nat>, last: int, now: int, time: int, command: Command)
    requires Rested(f, running, due, period, last, now) && now <= time && last <= time && r.queue == f.queue + [command]
    requires var t := command.timer;
      || (nowRunning == running - {t} && nowDue == due)
      || (nowRunning == running + {t} && t in period && period[t] > 0 && nowDue == due[t := time + period[t]]
          && t !in Targets(f.queue))
    ensures Rested(r, nowRunning, nowDue, period, last, time)
  {
    forall i | 0 <= i < |f.queue|
      ensures f.queue[i].timer in Targets(f.queue) && r.queue[i] == f.queue[i]
    {
    }
  }

  lemma RestedIsOnSchedule(first: View, v: View, f: Found, t: Timer, since: int)
    requires HistoryIn(v) && RunsOn(first, v, t) && Rested(f, v.running, v.due, v.period, v.now, since)
    ensures t in first.start && t in first.period && OnSchedule(v, t, first.start[t], first.period[t])
  {
    CaughtUpIsOnSchedule(v, t);
  }

  /** Over any run of actions that never names it, an auto-reload timer runs on from its start
      with its period, and whenever the daemon blocks with no command waiting it has had
      exactly the callbacks that were due. */
  lemma {:induction false} RunIsOnSchedule(actions: seq<Action>, views: seq<View>, autoReload: set<Timer>, t: Timer,
                                           k: nat)
    requires |views| == |actions| + 1 && k <= |actions| && t in autoReload && t in views[0].running
    requires HistoryIn(views[0])
    requires forall i :: 0 <= i < |actions| ==>
      Acts(actions[i], views[i], views[i + 1], autoReload) && Spares(actions[i], t)
    ensures RunsOn(views[0], views[k], t)
    ensures k > 0 && actions[k - 1] == Looks(true) && views[k].queue == [] ==>
      OnSchedule(views[k], t, views[0].start[t], views[0].period[t])
  {
    if k > 0 {
      hide HistoryIn, OnSchedule;
      RunIsOnSchedule(actions, views, autoReload, t, k - 1);
      assert Acts(actions[k - 1], views[k - 1], views[k], autoReload);
      if actions[k - 1] == Looks(true) && views[k].queue == [] {
        CaughtUpIsOnSchedule(views[k], t);
      }
    }
  }

  /** The sum of a weight of the item values in a list. */
  ghost function SumOver(list: seq<Timer>, value: map<Timer, nat>, weight: nat -> nat): (n: nat) {
    if list == [] then 0
      else (if list[0] in value then weight(value[list[0]]) else 0) + SumOver(list[1..], value, weight)
  }

  /** How far a tick word is from the end of its epoch. The timers that
      prvSwitchTimerLists puts back get nearer to it. */
  ghost function ToEnd(m: nat): (w: nat -> nat) {
    v => if v < m then m - v else 0
  }

  /** How late an expiry is; one that is still to come does not count. */
  ghost function Lateness(now: nat): (w: nat -> nat) {
    v => if v <= now then now - v + 2 else 0
  }

  lemma {:induction false} SumInsert(list: seq<Timer>, value: map<Timer, nat>, weight: nat -> nat, k: nat, t: Timer,
                                    v: nat)
    requires t !in list && k <= |list|
    ensures SumOver(InsertAt(list, k, t), value[t := v], weight) == SumOver(list, value, weight) + weight(v)
  {
    var r := InsertAt(list, k, t);
    assert r[0] == if k == 0 then t else list[0];
    if k == 0 {
      assert r[1..] == list;
      SumSame(list, value, weight, t, v);
    } else {
      assert r[1..] == InsertAt(list[1..], k - 1, t);
      SumInsert(list[1..], value, weight, k - 1, t, v);
    }
  }

  lemma {:induction false} SumSame(list: seq<Timer>, value: map<Timer, nat>, weight: nat -> nat, t: Timer, v: nat)
    requires t !in list
    ensures SumOver(list, value[t := v], weight) == SumOver(list, value, weight)
  {
    if list != [] {
      SumSame(list[1..], value, weight, t, v);
    }
  }

  lemma {:induction false} SumWithout(list: seq<Timer>, value: map<Timer, nat>, weight: nat -> nat, t: Timer)
    requires t in list
    ensures SumOver(Without(list, t), value, weight) <= SumOver(list, value, weight)
  {
    var r := Without(list, t);
    if list[0] == t {
      assert r == list[1..];
    } else {
      assert r == [list[0]] + Without(list[1..], t);
      assert r[1..] == Without(list[1..], t);
      SumWithout(list[1..], value, weight, t);
    }
  }

  /** What is left to be done for a command: a start may expire again and again. */
  ghost function CommandWeight(command: Command, now: nat, m: nat): (n: nat) {
    if command.Start? && command.value < m && now < m then WordMinus(now, command.value, m) + 1 else 1
  }

  ghost function QueueWeight(queue: seq<Command>, now: nat, m: nat): (n: nat) {
    if queue == [] then 0 else CommandWeight(queue[0], now, m) + QueueWeight(queue[1..], now, m)
  }

  lemma {:induction false} QueueWeightAppend(queue: seq<Command>, command: Command, now: nat, m: nat)
    ensures QueueWeight(queue + [command], now, m) == QueueWeight(queue, now, m) + CommandWeight(command, now, m)
  {
    if queue != [] {
      assert (queue + [command])[1..] == queue[1..] + [command];
      QueueWeightAppend(queue[1..], command, now, m);
    } else {
      assert [command][1..] == [];
    }
  }

  lemma TakeHeadInTime(f: Found, running: set<Timer>, due: map<Timer, int>, period: map<Timer, nat>, m: nat,
                       reading: int)
    requires InTime(f, running, due, period, m, reading) && f.current != []
    ensures var t, rest := f.current[0], f.(current := f.current[1..]);
      (t in running ==> t in due && reading < due[t] + m) && InTime(rest, running - {t}, due, period, m, reading)
  {
    assert f.current[0] in f.current;
  }

  lemma InTimeInHand(f: Found, r: Found, running: set<Timer>, due: map<Timer, int>, period: map<Timer, nat>, m: nat,
                     reading: int)
    requires InTime(f, running, due, period, m, reading)
    ensures r.queue == f.queue && r.current == f.current ==> InTime(r, running, due, period, m, reading)
  {
  }

  lemma InTimeAgain(f: Found, r: Found, running: set<Timer>, due: map<Timer, int>, period: map<Timer, nat>, m: nat,
                    reading: int, t: Timer)
    requires InTime(f, running - {t}, due, period, m, reading) && InHand(f, running, t)
    requires forall x :: x in r.current ==> x in f.current || x == t
    requires t in running ==> t in due && t in period && reading < due[t] + m
    requires r.queue == f.queue
      || (exists v ::
          r.queue == f.queue + [Start(t, v)]
            && (t in running ==> due[t] - period[t] <= reading < due[t] - period[t] + m))
    ensures InTime(r, running, due, period, m, reading)
  {
    if t in running {
      QueuedElsewhere(f, running, t);
    }
  }

  lemma InTimeQueued(f: Found, running: set<Timer>, due: map<Timer, int>, period: map<Timer, nat>, m: nat,
                     reading: int, t: Timer, v: nat)
    requires InTime(f, running - {t}, due, period, m, reading) && InHand(f, running, t)
    requires t in running ==>
      t in due && t in period && due[t] - period[t] <= reading < due[t] - period[t] + m && reading < due[t] + m
    ensures InTime(f.(queue := f.queue + [Start(t, v)]), running, due, period, m, reading)
  {
    hide InTime, InHand;
    var r := f.(queue := f.queue + [Start(t, v)]);
    assert r.queue == f.queue + [Start(t, v)];
    InTimeAgain(f, r, running, due, period, m, reading, t);
  }

  lemma InTimePeriod(f: Found, r: Found, running: set<Timer>, due: map<Timer, int>, period: map<Timer, nat>, m: nat,
                     reading: int, t: Timer, p: nat)
    requires InTime(f, running, due, period, m, reading) && t !in running && r.queue == f.queue
    requires forall x :: x in r.current ==> x in f.current || x == t
    ensures InTime(r, running, due, period[t := p], m, reading)
  {
  }

  lemma RedueInTime(f: Found, running: set<Timer>, due: map<Timer, int>, period: map<Timer, nat>, m: nat, reading: int,
                    t: Timer, d: int)
    requires InTime(f, running - {t}, due, period, m, reading)
    ensures InTime(f, running - {t}, due[t := d], period, m, reading)
  {
  }

  lemma HistoryMore(running: set<Timer>, start: map<Timer, int>, times: map<Timer, seq<int>>, due: map<Timer, int>,
                    period: map<Timer, nat>, now: int,
                    wasRunning: set<Timer>, wasTimes: map<Timer, seq<int>>, wasDue: map<Timer, int>, t: Timer)
    requires HistoryOk(running, start, times, due, period, now)
    requires HistoryOk(wasRunning, start, wasTimes, wasDue, period, now) && t in wasRunning
    requires Unmoved(wasRunning - {t}, wasTimes, times) && Unmoved(wasRunning - {t}, wasDue, due)
    ensures HistoryOk(running + {t}, start, times, due, period, now) && t in due && t in wasDue && due[t] == wasDue[t]
  {
  }

  lemma HistoryLess(running: set<Timer>, start: map<Timer, int>, times: map<Timer, seq<int>>, due: map<Timer, int>,
                    period: map<Timer, nat>, now: int, t: Timer)
    requires HistoryOk(running, start, times, due, period, now)
    ensures HistoryOk(running - {t}, start, times, due, period, now)
  {
  }

  lemma HistoryLater(running: set<Timer>, start: map<Timer, int>, times: map<Timer, seq<int>>, due: map<Timer, int>,
                     period: map<Timer, nat>, now: int, later: int)
    requires HistoryOk(running, start, times, due, period, now) && now <= later
    ensures HistoryOk(running, start, times, due, period, later)
  {
  }

  /** Handling other timers brings no timer into a list or, from outside the lists, into the
      queue. */
  ghost predicate NoNewcomers(was: Found, f: Found) {
    && (forall t :: t in f.current || t in f.overflow ==> t in was.current || t in was.overflow)
    && (forall t :: t in Targets(f.queue) ==> t in Targets(was.queue) || t in was.current || t in was.overflow)
  }

  ghost predicate Unmoved<V(!new)>(running: set<Timer>, was: map<Timer, V>, now: map<Timer, V>) {
    forall t :: t in was && t !in running ==> t in now && now[t] == was[t]
  }

  lemma NoNewcomersYet(f: Found, due: map<Timer, int>, times: map<Timer, seq<int>>, running: set<Timer>)
    ensures NoNewcomers(f, f) && Unmoved(running, due, due) && Unmoved(running, times, times) && Longer(times, times)
  {
  }

  lemma StillNoNewcomers(a: Found, b: Found, c: Found)
    requires NoNewcomers(a, b) && NoNewcomers(b, c)
    ensures NoNewcomers(a, c)
  {
  }

  lemma StillUnmoved<V(!new)>(running: set<Timer>, fewer: set<Timer>, a: map<Timer, V>, b: map<Timer, V>,
                              c: map<Timer, V>)
    requires Unmoved(running, a, b) && Unmoved(fewer, b, c) && fewer <= running
    ensures Unmoved(running, a, c)
  {
  }

  lemma StillLonger(a: map<Timer, seq<int>>, b: map<Timer, seq<int>>, c: map<Timer, seq<int>>)
    requires Longer(a, b) && Longer(b, c)
    ensures Longer(a, c)
  {
  }

  /** What a drain of the current list has done so far. */
  ghost predicate Drains(found: Found, seen: View, f: Found, v: View, autoReload: set<Timer>, fired: seq<Expiry>,
                         base: int) {
    && Kept(seen.running, v.running, autoReload) && Longer(seen.times, v.times) && NoNewcomers(found, f)
    && Unmoved(seen.running, seen.due, v.due) && Unmoved(seen.running, seen.times, v.times)
    && Called(seen.running, seen.times, v.times, fired, base)
  }

  lemma DrainsYet(found: Found, seen: View, autoReload: set<Timer>, base: int)
    requires forall t :: t in seen.running ==> t in seen.times
    ensures Drains(found, seen, found, seen, autoReload, [], base) && InExpiryOrder([])
  {
    NoNewcomersYet(found, seen.due, seen.times, seen.running);
    NoneCalled(seen.running, seen.times, base);
  }

  lemma DrainsOn(found: Found, seen: View, f: Found, v: View, r: Found, w: View, autoReload: set<Timer>,
                 fired: seq<Expiry>, e: Expiry, base: int)
    requires Drains(found, seen, f, v, autoReload, fired, base)
    requires Kept(v.running, w.running, autoReload) && Longer(v.times, w.times) && NoNewcomers(f, r)
    requires Unmoved(v.running, v.due, w.due) && Unmoved(v.running, v.times, w.times)
    requires e.timer in seen.running ==> e.timer in v.running
    requires if e.timer in v.running
      then e.timer in v.times && w.times == v.times[e.timer := v.times[e.timer] + [base + e.value]]
             else w.times == v.times
    ensures Drains(found, seen, r, w, autoReload, fired + [e], base)
  {
    hide NoNewcomers, Unmoved, Longer, Called, InExpiryOrder;
    CalledIn(seen.running, seen.times, v.times, fired, base);
    CalledNext(seen.running, seen.times, v.times, w.times, fired, e, base);
    StillNoNewcomers(found, f, r);
    StillUnmoved(seen.running, v.running, seen.due, v.due, w.due);
    StillUnmoved(seen.running, v.running, seen.times, v.times, w.times);
    StillLonger(seen.times, v.times, w.times);
  }

  lemma CalledIn(running: set<Timer>, was: map<Timer, seq<int>>, now: map<Timer, seq<int>>, fired: seq<Expiry>,
                 base: int)
    requires Called(running, was, now, fired, base)
    ensures forall t :: t in running ==> t in now
  {
  }

  lemma DrainsMeans(found: Found, seen: View, f: Found, v: View, autoReload: set<Timer>, fired: seq<Expiry>, base: int)
    requires Drains(found, seen, f, v, autoReload, fired, base)
    ensures Kept(seen.running, v.running, autoReload) && Longer(seen.times, v.times) && NoNewcomers(found, f)
    ensures Unmoved(seen.running, seen.due, v.due) && Unmoved(seen.running, seen.times, v.times)
    ensures Called(seen.running, seen.times, v.times, fired, base)
  {
  }

  lemma SwitchedNewcomers(was: Found, f: Found)
    requires NoNewcomers(was, f)
    ensures NoNewcomers(was, f.(current := f.overflow, overflow := f.current))
  {
  }

  lemma InTimeRest(f: Found, running: set<Timer>, due: map<Timer, int>, period: map<Timer, nat>, m: nat, reading: int)
    requires InTime(f, running, due, period, m, reading) && f.queue != []
    ensures var t, rest := f.queue[0].timer, f.(queue := f.queue[1..]);
      && InTime(rest, running - {t}, due, period, m, reading)
      && (t in running ==> t in due && t in period && due[t] - period[t] <= reading < due[t] - period[t] + m)
  {
    var rest := f.(queue := f.queue[1..]);
    assert forall i :: 0 <= i < |rest.queue| ==> rest.queue[i] == f.queue[i + 1];
    assert f.queue[0].timer in running ==> 0 < |f.queue|;
  }

  lemma OutOfListsInTime(f: Found, running: set<Timer>, due: map<Timer, int>, period: map<Timer, nat>, m: nat,
                         reading: int, t: Timer)
    requires InTime(f, running, due, period, m, reading)
    ensures InTime(OutOfLists(f, t), running, due, period, m, reading)
  {
    if t in f.current {
      var r := Without(f.current, t);
      assert forall x :: x in r ==> x in f.current;
    }
  }

  /** A command is handled with its timer in no list. */
  lemma HandleOk(f: Found, running: set<Timer>, due: map<Timer, int>, period: map<Timer, nat>, base: int, m: nat)
    requires ListsOk(f, period, m) && RunningOk(f, running, due, period, base, m) && f.queue != []
    ensures var command, rest := f.queue[0], OutOfLists(f.(queue := f.queue[1..]), f.queue[0].timer);
      && ListsOk(rest, period, m) && RunningOk(rest, running - {command.timer}, due, period, base, m)
      && InHand(rest, running, command.timer)
      && command.timer in period && (command.Start? ==> command.value < m)
        && (command.ChangePeriod? ==> 0 < command.period < m)
      && (command.timer in running ==>
            && command.timer in due && command.Start?
            && InReach(due[command.timer] - period[command.timer], base, m)
            && command.value == WordOf(due[command.timer] - period[command.timer], base, m))
  {
    var popped, t := f.(queue := f.queue[1..]), f.queue[0].timer;
    TakeCommand(f, running, due, period, base, m);
    TakeOut(popped, running - {t}, due, period, base, m, t);
    assert running - {t} - {t} == running - {t};
  }

  lemma StillInHand(was: Found, f: Found, running: set<Timer>, now: set<Timer>, t: Timer)
    requires InHand(was, running, t) && NoNewcomers(was, f) && (t in now ==> t in running)
    ensures InHand(f, now, t)
  {
  }

  lemma SameWord(x: int, base: int, later: int, m: nat)
    requires InReach(x, base, m) && (later == base || later == base + m) && later - m <= x
    ensures InReach(x, later, m) && WordOf(x, later, m) == WordOf(x, base, m)
  {
  }

  /** Only a timer that is not a running one can get another period. */
  lemma PeriodChanged(f: Found, running: set<Timer>, start: map<Timer, int>, times: map<Timer, seq<int>>,
                      due: map<Timer, int>,
                      period: map<Timer, nat>, base: int, m: nat, time: int, t: Timer, p: nat)
    requires PeriodsOk(period, m) && ListsOk(f, period, m) && RunningOk(f, running, due, period, base, m)
    requires HistoryOk(running, start, times, due, period, time) && t in period && t !in running && 0 < p < m
    ensures var now := period[t := p];
      PeriodsOk(now, m) && ListsOk(f, now, m) && RunningOk(f, running, due, now, base, m)
        && HistoryOk(running, start, times, due, now, time)
  {
  }

  /** A command for a timer that is not, or no longer, a running one. */
  lemma SentOk(f: Found, running: set<Timer>, due: map<Timer, int>, period: map<Timer, nat>, base: int, m: nat,
               command: Command)
    requires ListsOk(f, period, m) && RunningOk(f, running, due, period, base, m) && command.timer in period
    requires (command.Start? ==> command.value < m) && (command.ChangePeriod? ==> 0 < command.period < m)
    ensures var r := f.(queue := f.queue + [command]);
      ListsOk(r, period, m) && RunningOk(r, running - {command.timer}, due, period, base, m)
  {
    hide ListsOk, Targets;
    QueuedLists(f, command, period, m);
    EnqueuedTargets(f.queue, command);
    var r := f.(queue := f.queue + [command]);
    assert forall i :: 0 <= i < |f.queue| ==> r.queue[i] == f.queue[i];
  }

  lemma HistoryStarts(running: set<Timer>, start: map<Timer, int>, times: map<Timer, seq<int>>, due: map<Timer, int>,
                      period: map<Timer, nat>, now: int,
                      t: Timer, c: int)
    requires HistoryOk(running, start, times, due, period, now) && t !in running && t in period
    ensures HistoryOk(running + {t}, start[t := c], times[t := []], due[t := c + period[t]], period, now)
  {
  }
}
