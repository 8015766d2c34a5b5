/** The daemon of timers.c, working on its two lists and its command queue. */
module TimerDaemon {
  import opened Arithmetic
  import opened RingLinks
  import opened SortedInsertion
  import opened TaskLists
  import opened TimerState

  class Daemon {
    const m: nat                     // the number of tick words
    var current: seq<Timer>          // pxCurrentTimerList
    var overflow: seq<Timer>         // pxOverflowTimerList
    var value: map<Timer, nat>
    var queue: seq<Command>
    var period: map<Timer, nat>
    const autoReload: set<Timer>
    var lastTime: nat

    ghost var now: int               // the time of the last look at the clock
    ghost var base: int
    ghost var running: set<Timer>    // timers started once, and left to the daemon since
    ghost var start: map<Timer, int>
    ghost var due: map<Timer, int>
    ghost var times: map<Timer, seq<int>>   // the expiry times for which callbacks ran

    ghost function State(): (f: Found)
      reads `current, `overflow, `value, `queue
    {
      Found(current, overflow, value, queue)
    }

    ghost function Seen(): (v: View)
      reads `now, `running, `start, `due, `times, `period, `queue
    {
      View(now, running, start, due, times, period, queue)
    }

    /** All but the clock. */
    ghost predicate TimersOk()
      reads `current, `overflow, `value, `queue, `period, `base, `now, `running, `start, `due, `times
    {
      && PeriodsOk(period, m) && ListsOk(State(), period, m)
      && RunningOk(State(), running, due, period, base, m) && HistoryOk(running, start, times, due, period, now)
    }

    ghost predicate Valid()
      reads this
    {
      TimersOk() && base <= now < base + m && lastTime == now - base
    }

    constructor (m: nat, period: map<Timer, nat>, autoReload: set<Timer>)
      requires m > 0 && PeriodsOk(period, m)
      ensures Valid() && this.m == m && this.period == period && this.autoReload == autoReload
      ensures queue == [] && running == {} && now == base == 0
    {
      this.m, this.period, this.autoReload := m, period, autoReload;
      current, overflow, value, queue, lastTime := [], [], map[], [], 0;
      now, base, running, start, due, times := 0, 0, {}, map[], map[], map[];
    }

    ghost predicate LooksInTime(reading: int)
      reads `current, `overflow, `value, `queue, `running, `due, `period, `now
    {
      now <= reading < now + m && InTime(State(), running, due, period, m, reading)
    }

    /** What the daemon still has to do before it can block. */
    ghost function Backlog(): (n: nat)
      reads `current, `value, `queue, `lastTime
    {
      SumOver(current, value, Lateness(lastTime)) + QueueWeight(queue, lastTime, m)
    }

    /** The callback of a timer runs. */
    ghost method Fire(t: Timer)
      requires HistoryOk(running, start, times, due, period, now) && (t in running && t in due ==> due[t] <= now)
      modifies this`times, this`due
      ensures HistoryOk(running, start, times, due, period, now) && Longer(old(times), times)
      ensures t in running ==>
        && t in old(due) && t in old(times) && t in period && due == old(due)[t := old(due)[t] + period[t]]
        && times == old(times)[t := old(times)[t] + [old(due)[t]]]
      ensures t !in running ==> due == old(due) && times == old(times)
    {
      if t in running {
        Fired(running, start, times, due, period, now, t);
        times := times[t := times[t] + [due[t]]];
        due := due[t := due[t] + period[t]];
      }
    }

    /** xTimerGenericCommand, on a queue that is never full. */
    method EnqueueStart(t: Timer, commandTime: nat)
      modifies this`queue
      ensures queue == old(queue) + [Start(t, commandTime)]
    {
      queue := queue + [Start(t, commandTime)];
    }

    /** The head of the current list leaves it, and its callback runs. */
    method FireHead() returns (t: Timer, next: nat)
      requires TimersOk() && current != [] && InTime(State(), running, due, period, m, now)
      requires current[0] in value && base + value[current[0]] <= now
      modifies this`current, this`due, this`times
      ensures t == old(current)[0] && current == old(current)[1..] && t in value && next == value[t] < m && t in period
      ensures PeriodsOk(period, m) && ListsOk(State(), period, m)
      ensures RunningOk(State(), running - {t}, due, period, base, m)
      ensures InHand(State(), running, t) && HistoryOk(running, start, times, due, period, now)
      ensures InTime(State(), running - {t}, due, period, m, now) && Longer(old(times), times)
      ensures t in running ==> t in due && due[t] == base + next + period[t] && base + next <= now < base + next + m
      ensures t !in running ==> times == old(times)
      ensures t in period && due == if t in running && t in old(due) then old(due)[t := old(due)[t] + period[t]]
        else old(due)
      ensures t in running ==>
        t in old(due) && t in old(times) && times == old(times)[t := old(times)[t] + [old(due)[t]]]
      ensures SumOver(old(current), value, ToEnd(m)) == m - next + SumOver(current, value, ToEnd(m))
      ensures SumOver(old(current), value, Lateness(lastTime))
        == Lateness(lastTime)(next) + SumOver(current, value, Lateness(lastTime))
      ensures forall x :: x in current ==> x in value && next <= value[x] < m
    {
      hide ListsOk, RunningOk, HistoryOk, InTime, InHand;
      t := current[0];
      TakeHead(State(), running, due, period, base, m);
      TakeHeadInTime(State(), running, due, period, m, now);
      next := value[t];
      current := current[1..];
      if t in running {
        Redue(State(), running, due, period, base, m, t, due[t] + period[t]);
        RedueInTime(State(), running, due, period, m, now, t, due[t] + period[t]);
      }
      Fire(t);
    }

    /** An auto-reload timer of the ending epoch that just fired: it goes back into the list
        while it is due before the epoch ends, else a start command is queued. */
    method Reload(t: Timer, next: nat)
      requires PeriodsOk(period, m) && ListsOk(State(), period, m)
      requires RunningOk(State(), running - {t}, due, period, base, m)
      requires InHand(State(), running, t) && t in period && next < m && base + m <= now
      requires InTime(State(), running - {t}, due, period, m, now)
      requires t in running ==> t in due && due[t] == base + next + period[t] && base + next <= now < base + next + m
      modifies this`current, this`value, this`queue
      ensures ListsOk(State(), period, m) && RunningOk(State(), running, due, period, base, m)
      ensures InTime(State(), running, due, period, m, now)
      ensures forall x :: x in current ==> x in old(current) || (x == t && x in value && next < value[x] < m)
      ensures forall x :: x in old(current) ==>
        x in current && x in old(value) && x in value && value[x] == old(value)[x]
      ensures SumOver(current, value, ToEnd(m)) < SumOver(old(current), old(value), ToEnd(m)) + (m - next)
      ensures forall x :: x in Targets(queue) ==> x in Targets(old(queue)) || x == t
    {
      hide ListsOk, RunningOk, InTime, InHand, PlaceFor, SumOver, InsertAt;
      ghost var f := State();
      var reload := Onward(next, period[t], m);
      ListedValues(f, period, m);
      NotListed(f, running, t);
      if reload > next {
        PutCurrentOk(f, running, due, period, base, m, t, reload);
        SumInsert(current, value, ToEnd(m), PlaceFor(current, value[t := reload], reload), t, reload);
        value := value[t := reload];
        current := InsertAt(current, PlaceFor(current, value, reload), t);
      } else {
        EnqueueOk(f, running, due, period, base, m, t, next);
        EnqueueStart(t, next);
      }
      InTimeAgain(f, State(), running, due, period, m, now, t);
    }

    /** One round of prvSwitchTimerLists: the first timer of the ending epoch fires, and is
        put back if it is due again in that epoch. */
    method ExpireHead() returns (t: Timer, next: nat)
      requires TimersOk() && current != [] && base + m <= now && InTime(State(), running, due, period, m, now)
      modifies this`current, this`value, this`queue, this`due, this`times, this`running
      ensures TimersOk() && InTime(State(), running, due, period, m, now)
      ensures Kept(old(running), running, autoReload) && Longer(old(times), times)
      ensures t == old(current)[0] && t in old(value) && next == old(value)[t]
      ensures if t in old(running) then
          t in old(times) && times == old(times)[t := old(times)[t] + [base + next]]
        else
          times == old(times)
      ensures forall x :: x in current ==> x in value && next <= value[x] < m
      ensures forall x :: x in current ==> x in old(current) && (x in old(running) ==> x in running)
      ensures forall x :: x in old(current) && x != t ==> x in current
      ensures SumOver(current, value, ToEnd(m)) < SumOver(old(current), old(value), ToEnd(m))
      ensures NoNewcomers(old(State()), State())
      ensures Unmoved(old(running), old(due), due) && Unmoved(old(running), old(times), times)
    {
      hide ListsOk, RunningOk, HistoryOk, InTime, InHand, SumOver;
      ListedValues(State(), period, m);
      assert current[0] in current;
      t, next := FireHead();
      NotListed(State(), running, t);
      if t in autoReload {
        Reload(t, next);
      } else {
        HistoryLess(running, start, times, due, period, now, t);
        running := running - {t};
      }
    }

    /** The loop of prvSwitchTimerLists. It ends, although it puts timers back. */
    method ExpireAll() returns (ghost fired: seq<Expiry>)
      requires TimersOk() && base + m <= now < base + 2 * m && InTime(State(), running, due, period, m, now)
      modifies this`current, this`value, this`queue, this`due, this`times, this`running
      ensures TimersOk() && InTime(State(), running, due, period, m, now) && current == []
      ensures Drains(old(State()), old(Seen()), State(), Seen(), autoReload, fired, base)
      ensures InExpiryOrder(fired) && forall t :: t in old(current) ==> HasFired(fired, t)
    {
      hide ListsOk, RunningOk, HistoryOk, InTime, SumOver, PeriodsOk, HasFired, Drains;
      hide NoNewcomers, Unmoved, Longer, Kept, Called, InExpiryOrder, ToEnd;
      fired := [];
      ghost var found, seen := State(), Seen();
      ListedValues(State(), period, m);
      Histories();
      DrainsYet(found, seen, autoReload, base);
      while current != []
        invariant TimersOk() && InTime(State(), running, due, period, m, now)
        invariant Drains(found, seen, State(), Seen(), autoReload, fired, base)
        invariant forall x :: x in current ==> x in value && value[x] < m
        invariant InExpiryOrder(fired)
        invariant fired != [] ==> forall x :: x in current ==> fired[|fired| - 1].value <= value[x]
        invariant forall x :: x in current && x in old(running) ==> x in running
        invariant forall x :: x in old(current) ==> x in current || HasFired(fired, x)
        modifies this`current, this`value, this`queue, this`due, this`times, this`running
        decreases SumOver(current, value, ToEnd(m))
      {
        ghost var f, v := State(), Seen();
        assert current[0] in current;
        var t, next := ExpireHead();
        DrainsOn(found, seen, f, v, State(), Seen(), autoReload, fired, Expiry(t, next), base);
        FiredMore(fired, Expiry(t, next));
        fired := fired + [Expiry(t, next)];
      }
    }

    /** prvSwitchTimerLists: what is left of the ending epoch expires, in the order of the
        expiry times, before the overflow list becomes the current one. The ghost result
        is the callbacks it makes: at least one for each timer of the list that ends. */
    method SwitchTimerLists() returns (ghost fired: seq<Expiry>)
      requires TimersOk() && base + m <= now < base + 2 * m && InTime(State(), running, due, period, m, now)
      modifies this`current, this`overflow, this`value, this`queue, this`due, this`times, this`running, this`base
      ensures TimersOk() && base == old(base) + m && InTime(State(), running, due, period, m, now)
      ensures current == old(overflow) && overflow == []
      ensures InExpiryOrder(fired) && Called(old(running), old(times), times, fired, old(base))
      ensures forall t :: t in old(current) ==> HasFired(fired, t)
      ensures Kept(old(running), running, autoReload) && Longer(old(times), times)
      ensures NoNewcomers(old(State()), State())
      ensures Unmoved(old(running), old(due), due) && Unmoved(old(running), old(times), times)
    {
      hide PeriodsOk, ListsOk, RunningOk, HistoryOk, InTime, Drains, HasFired;
      hide NoNewcomers, Unmoved, Longer, Kept, Called, InExpiryOrder;
      ghost var found, seen := State(), Seen();
      fired := ExpireAll();
      DrainsMeans(found, seen, State(), Seen(), autoReload, fired, base);
      SwitchedOk(State(), running, due, period, base, m, now);
      SwitchedNewcomers(found, State());
      current, overflow := overflow, current;
      base := base + m;
    }

    lemma Histories()
      requires TimersOk()
      ensures forall t :: t in running ==> t in times
    {
    }

    /** prvSampleTimeNow. The daemon finds out that the tick word has wrapped because it is
        smaller than at the last look. */
    method SampleTimeNow(timeNow: nat, ghost reading: int) returns (switched: bool)
      requires Valid() && LooksInTime(reading) && InReach(reading, base, m) && timeNow == WordOf(reading, base, m)
      modifies this`current, this`overflow, this`value, this`queue, this`due, this`times, this`running, this`base
      modifies this`lastTime, this`now
      ensures Valid() && now == reading && lastTime == timeNow && InTime(State(), running, due, period, m, reading)
      ensures switched <==> reading >= old(base) + m
      ensures base == if switched then old(base) + m else old(base)
      ensures !switched ==> State() == old(State()) && running == old(running) && due == old(due) && times == old(times)
      ensures Kept(old(running), running, autoReload) && Longer(old(times), times)
      ensures NoNewcomers(old(State()), State()) && Unmoved(old(running), old(due), due)
      ensures Unmoved(old(running), old(times), times)
    {
      hide ListsOk, RunningOk, HistoryOk, InTime, NoNewcomers, Unmoved, Longer, PeriodsOk;
      HistoryLater(running, start, times, due, period, now, reading);
      now := reading;
      if timeNow < lastTime {
        ghost var fired := SwitchTimerLists();
        switched := true;
      } else {
        NoNewcomersYet(State(), due, times, running);
        switched := false;
      }
      lastTime := timeNow;
    }

    /** prvInsertTimerInActiveList. */
    method InsertTimerInActiveList(t: Timer, next: nat, timeNow: nat, command: nat) returns (processNow: bool)
      requires ListsOk(State(), period, m) && t in period && next < m && timeNow < m && command < m
      modifies this`value, this`current, this`overflow
      ensures forall x :: x in old(current) ==> x in old(value)
      ensures forall x :: x in old(overflow) ==> x in old(value)
      ensures var p := PlacementFor(next, timeNow, command, period[t], m);
        && (processNow <==> p == ProcessNow)
        && State() == Placed(old(State()), p, t, next)
    {
      processNow := false;
      value := value[t := next];
      if next <= timeNow {
        if WordMinus(timeNow, command, m) >= period[t] {
          processNow := true;
        } else {
          overflow := InsertAt(overflow, PlaceFor(overflow, value, next), t);
        }
      } else {
        if timeNow < command && next >= command {
          processNow := true;
        } else {
          current := InsertAt(current, PlaceFor(current, value, next), t);
        }
      }
    }

    /** A timer in hand is placed by its next expiry time; what is returned is whether that
        time has passed already. */
    method Place(t: Timer, next: nat, command: nat, ghost commandTime: int) returns (processNow: bool)
      requires PeriodsOk(period, m) && ListsOk(State(), period, m)
      requires RunningOk(State(), running - {t}, due, period, base, m)
      requires InHand(State(), running, t) && t in period && command < m && base <= now < base + m
      requires lastTime == now - base
      requires period[t] < m && next == Onward(command, period[t], m)
      requires t in running ==>
        && t in due && commandTime == due[t] - period[t] && commandTime <= now < commandTime + m
        && InReach(commandTime, base, m) && command == WordOf(commandTime, base, m)
      modifies this`value, this`current, this`overflow
      ensures ListsOk(State(), period, m)
      ensures if processNow then
          RunningOk(State(), running - {t}, due, period, base, m) && InHand(State(), running, t)
        else
          RunningOk(State(), running, due, period, base, m)
      ensures t in running ==> (processNow <==> due[t] <= now)
      ensures var p := PlacementFor(next, lastTime, command, period[t], m);
        (processNow <==> p == ProcessNow) && Seated(State(), p, t, next) && queue == old(queue)
      ensures command == lastTime ==> !processNow
      ensures forall x :: x in current ==> x in old(current) || x == t
      ensures processNow ==> current == old(current)
      ensures Backlog() == old(Backlog())
      ensures processNow ==> WordMinus(lastTime, next, m) == WordMinus(lastTime, command, m) - period[t]
    {
      hide ListsOk, RunningOk, InHand, SumOver, Placed, Seated;
      ghost var f := State();
      PlacedOk(f, running, due, period, base, m, t, next, now, command);
      if t in running {
        PlacementIsRight(commandTime, now, period[t], base, m);
      }
      processNow := InsertTimerInActiveList(t, next, lastTime, command);
      PlacedIsSeated(f, running, PlacementFor(next, lastTime, command, period[t], m), t, next);
    }

    /** An auto-reload timer that just expired is placed by its next expiry time, or started
        again by command when that has passed too. */
    method Rearm(t: Timer, next: nat)
      requires PeriodsOk(period, m) && ListsOk(State(), period, m)
      requires RunningOk(State(), running - {t}, due, period, base, m)
      requires InHand(State(), running, t) && t in period && next < m && base <= now < base + m
      requires lastTime == now - base && next <= lastTime
      requires InTime(State(), running - {t}, due, period, m, now)
      requires t in running ==> t in due && due[t] == base + next + period[t] && base + next <= now < base + next + m
      modifies this`current, this`overflow, this`value, this`queue
      ensures ListsOk(State(), period, m) && RunningOk(State(), running, due, period, base, m)
      ensures InTime(State(), running, due, period, m, now)
      ensures Backlog() <= old(Backlog()) + Lateness(lastTime)(next) - 1
    {
      hide ListsOk, RunningOk, InTime, InHand, SumOver, QueueWeight;
      ghost var f := State();
      var processNow := Place(t, Onward(next, period[t], m), next, base + next);
      if processNow {
        EnqueueOk(State(), running, due, period, base, m, t, next);
        QueueWeightAppend(queue, Start(t, next), lastTime, m);
        EnqueueStart(t, next);
      }
      InTimeAgain(f, State(), running, due, period, m, now, t);
    }

    /** prvProcessExpiredTimer. */
    method ProcessExpiredTimer()
      requires Valid() && current != [] && InTime(State(), running, due, period, m, now)
      requires current[0] in value && value[current[0]] <= lastTime
      modifies this`current, this`overflow, this`value, this`queue, this`due, this`times, this`running
      ensures Valid() && InTime(State(), running, due, period, m, now)
      ensures Kept(old(running), running, autoReload) && Longer(old(times), times)
      ensures Backlog() < old(Backlog())
      ensures var t := old(current)[0];
        t in old(running) ==>
          t in old(times) && t in old(due) && t in times && times[t] == old(times)[t] + [old(due)[t]]
    {
      hide ListsOk, RunningOk, HistoryOk, InTime, InHand, Longer, SumOver, QueueWeight;
      var t, next := FireHead();
      if t in autoReload {
        Rearm(t, next);
      } else {
        HistoryLess(running, start, times, due, period, now, t);
        running := running - {t};
      }
    }

    /** The daemon's look at its lists: it handles one expired timer, or it blocks until the
        next expiry, or the next wrap, at the latest. */
    method ProcessTimerOrBlock(timeNow: nat, ghost reading: int) returns (blocks: bool, ticksToWait: nat)
      requires Valid() && LooksInTime(reading) && InReach(reading, base, m) && timeNow == WordOf(reading, base, m)
      modifies this`current, this`overflow, this`value, this`queue, this`due, this`times, this`running, this`base
      modifies this`lastTime, this`now
      ensures Valid() && now == reading && lastTime == timeNow && Kept(old(running), running, autoReload)
      ensures Longer(old(times), times)
      ensures InTime(State(), running, due, period, m, now)
      ensures old(now) == reading ==>
        if blocks then Backlog() == old(Backlog()) && queue == old(queue) else Backlog() < old(Backlog())
      ensures blocks ==>
        forall t :: t in running && t !in Targets(queue) ==> t in due && now < due[t] && now + ticksToWait <= due[t]
      ensures Acts(Looks(blocks), old(Seen()), Seen(), autoReload)
      ensures base == if reading < old(base) + m then old(base) else old(base) + m
    {
      hide ListsOk, RunningOk, HistoryOk, HistoryIn, InTime, Longer, NoNewcomers, Unmoved, Acts;
      hide PeriodsOk, SumOver, QueueWeight, InReach;
      ghost var seen, before := Seen(), times;
      HistoryNow();
      HeadValue();
      var listWasEmpty := current == [];
      var nextExpireTime := if listWasEmpty then 0 else value[current[0]];
      blocks, ticksToWait := false, 0;
      var switched := SampleTimeNow(timeNow, reading);
      if !switched {
        blocks, ticksToWait := ExpireOrBlock(timeNow, listWasEmpty, nextExpireTime);
        StillLonger(before, before, times);
      }
      HistoryNow();
      Acted(Looks(blocks), seen, Seen(), autoReload);
    }

    /** What the daemon does when its lists were not switched. */
    method ExpireOrBlock(timeNow: nat, listWasEmpty: bool, nextExpireTime: nat) returns (blocks: bool, ticksToWait: nat)
      requires Valid() && InTime(State(), running, due, period, m, now) && timeNow == lastTime
      requires listWasEmpty == (current == []) && nextExpireTime < m
      requires if listWasEmpty then nextExpireTime == 0 else current[0] in value && nextExpireTime == value[current[0]]
      modifies this`current, this`overflow, this`value, this`queue, this`due, this`times, this`running
      ensures Valid() && InTime(State(), running, due, period, m, now)
      ensures Kept(old(running), running, autoReload) && Longer(old(times), times)
      ensures if blocks then Backlog() == old(Backlog()) && queue == old(queue) else Backlog() < old(Backlog())
      ensures blocks ==>
        forall t :: t in running && t !in Targets(queue) ==> t in due && now < due[t] && now + ticksToWait <= due[t]
    {
      hide ListsOk, RunningOk, HistoryOk, InTime, Longer;
      blocks, ticksToWait := false, 0;
      if !listWasEmpty && nextExpireTime <= timeNow {
        ProcessExpiredTimer();
      } else {
        blocks, ticksToWait := true, WordMinus(nextExpireTime, timeNow, m);
        NothingDue(nextExpireTime);
        NoNewcomersYet(State(), due, times, running);
      }
    }

    lemma HistoryNow()
      requires Valid()
      ensures HistoryIn(Seen())
    {
    }

    lemma HeadValue()
      requires Valid()
      ensures current != [] ==> current[0] in value && value[current[0]] < m
    {
      ListedValues(State(), period, m);
      if current != [] {
        assert current[0] in current;
      }
    }

    lemma NothingDue(nextExpireTime: nat)
      requires Valid() && nextExpireTime < m
      requires if current == [] then nextExpireTime == 0
        else current[0] in value && nextExpireTime == value[current[0]] > lastTime
      ensures forall t :: t in running && t !in Targets(queue) ==>
        t in due && now < due[t] && now + WordMinus(nextExpireTime, lastTime, m) <= due[t]
    {
      forall t | t in running && t !in Targets(queue)
        ensures t in due && now < due[t] && now + WordMinus(nextExpireTime, lastTime, m) <= due[t]
      {
        if t in current {
          assert value[current[0]] <= value[t];
        }
      }
    }

    /** A timer in hand that is due already: its callback runs, and an auto-reload timer is
        started again as of the time `next` stands for. */
    method FireAndRestart(t: Timer, next: nat)
      requires PeriodsOk(period, m) && ListsOk(State(), period, m)
      requires RunningOk(State(), running - {t}, due, period, base, m)
      requires HistoryOk(running, start, times, due, period, now) && InTime(State(), running - {t}, due, period, m, now)
      requires InHand(State(), running, t) && t in period && next < m && lastTime < m
      requires t in running ==>
        t in due && due[t] <= now < due[t] + m && InReach(due[t], base, m) && next == WordOf(due[t], base, m)
      modifies this`queue, this`due, this`times, this`running
      ensures TimersOk() && InTime(State(), running, due, period, m, now)
      ensures Kept(old(running), running, autoReload) && Longer(old(times), times)
      ensures queue == old(queue) + (if t in autoReload then [Start(t, next)] else [])
      ensures Backlog() <= old(Backlog()) + WordMinus(lastTime, next, m) + 1
    {
      hide SumOver, QueueWeight, ListsOk, RunningOk, HistoryOk, InHand, Longer, InTime, NoNewcomers;
      ghost var f := State();
      NoNewcomersYet(f, due, times, running);
      if t in running {
        RedueInTime(f, running, due, period, m, now, t, due[t] + period[t]);
        Redue(f, running, due, period, base, m, t, due[t] + period[t]);
      }
      Fire(t);
      if t in autoReload {
        EnqueueOk(f, running, due, period, base, m, t, next);
        QueueWeightAppend(queue, Start(t, next), lastTime, m);
        InTimeQueued(f, running, due, period, m, now, t, next);
        EnqueueStart(t, next);
      } else {
        HistoryLess(running, start, times, due, period, now, t);
        StillInHand(f, f, running, running - {t}, t);
        assert running - {t} - {t} == running - {t};
        running := running - {t};
      }
    }

    /** The handling of a start command for a timer in hand. `commandTime` is the time at
        which the timer was started, or last expired. */
    method HandleStart(t: Timer, command: nat, ghost commandTime: int)
      requires PeriodsOk(period, m) && ListsOk(State(), period, m)
      requires RunningOk(State(), running - {t}, due, period, base, m)
      requires HistoryOk(running, start, times, due, period, now)
      requires InHand(State(), running, t) && t in period && command < m && base <= now < base + m
      requires lastTime == now - base
      requires t in running ==>
        && t in due && commandTime == due[t] - period[t] && commandTime <= now < commandTime + m
        && InReach(commandTime, base, m) && command == WordOf(commandTime, base, m)
      requires InTime(State(), running - {t}, due, period, m, now)
      modifies this`current, this`overflow, this`value, this`queue, this`due, this`times, this`running
      ensures Valid() && InTime(State(), running, due, period, m, now) && Kept(old(running), running, autoReload)
      ensures Longer(old(times), times)
      ensures var next := Onward(command, period[t], m); var p := PlacementFor(next, lastTime, command, period[t], m);
        && Seated(State(), p, t, next)
        && queue == old(queue) + (if p == ProcessNow && t in autoReload then [Start(t, next)] else [])
      ensures Backlog() <= old(Backlog()) + WordMinus(lastTime, command, m)
    {
      hide SumOver, QueueWeight, ListsOk, RunningOk, HistoryOk, InHand, Longer, InTime, NoNewcomers, Seated;
      ghost var f := State();
      var next := Onward(command, period[t], m);
      var processNow := Place(t, next, command, commandTime);
      NoNewcomersYet(f, due, times, running);
      InTimeInHand(f, State(), running - {t}, due, period, m, now);
      if t in running {
        PlacementIsRight(commandTime, now, period[t], base, m);
      }
      if processNow {
        ghost var placed := State();
        FireAndRestart(t, next);
        SeatedStill(placed, queue, ProcessNow, t, next);
      } else {
        InTimeAgain(f, State(), running, due, period, m, now, t);
      }
    }

    /** The handling of a change of period, for a timer in hand that is not a running one. */
    method HandleChangePeriod(t: Timer, newPeriod: nat)
      requires Valid() && t in period && t !in running && InHand(State(), running, t) && 0 < newPeriod < m
      requires InTime(State(), running, due, period, m, now)
      modifies this`current, this`overflow, this`value, this`period
      ensures Valid() && period == old(period)[t := newPeriod] && InTime(State(), running, due, period, m, now)
      ensures Seated(State(), if lastTime + newPeriod < m then CurrentList else OverflowList, t,
                     Onward(lastTime, newPeriod, m))
      ensures queue == old(queue)
      ensures Backlog() == old(Backlog())
    {
      hide ListsOk, RunningOk, HistoryOk, InTime, InHand, SumOver, QueueWeight, Seated;
      ghost var f, was := State(), period;
      PeriodChanged(f, running, start, times, due, period, base, m, now, t, newPeriod);
      assert running - {t} == running;
      period := period[t := newPeriod];
      var processNow := Place(t, Onward(lastTime, newPeriod, m), lastTime, 0);
      assert !processNow;
      PlacementFromNow(lastTime, newPeriod, m);
      InTimePeriod(f, State(), running, due, was, m, now, t, newPeriod);
    }

    /** xQueueReceive, and uxListRemove for a timer that is in a list. */
    method PopCommand() returns (command: Command)
      requires queue != []
      modifies this`queue, this`current, this`overflow
      ensures command == old(queue)[0] && State() == OutOfLists(old(State()).(queue := old(queue)[1..]), command.timer)
      ensures Backlog() + CommandWeight(command, lastTime, m) <= old(Backlog())
    {
      command := queue[0];
      queue := queue[1..];
      if command.timer in current {
        SumWithout(current, value, Lateness(lastTime), command.timer);
        current := Without(current, command.timer);
      }
      if command.timer in overflow {
        overflow := Without(overflow, command.timer);
      }
    }

    /** The first half of a round of prvProcessReceivedCommands: the command leaves the queue
        and its timer its list. */
    method TakeOffQueue(ghost reading: int) returns (command: Command)
      requires Valid() && LooksInTime(reading) && queue != []
      modifies this`queue, this`current, this`overflow, this`running
      ensures Valid() && LooksInTime(reading) && command == old(queue)[0] && running == old(running) - {command.timer}
      ensures InHand(State(), old(running), command.timer)
      ensures Backlog() + CommandWeight(command, lastTime, m) <= old(Backlog())
      ensures command.timer in period && (command.Start? ==> command.value < m)
      ensures command.ChangePeriod? ==> 0 < command.period < m
      ensures command.timer in old(running) ==>
        && command.Start? && command.timer in due && command.timer in period
        && var c := due[command.timer] - period[command.timer];
          c <= reading < c + m && InReach(c, base, m) && command.value == WordOf(c, base, m)
    {
      hide ListsOk, RunningOk, HistoryOk, InTime, InHand, OutOfLists, SumOver, QueueWeight, CommandWeight;
      ghost var t := queue[0].timer;
      HandleOk(State(), running, due, period, base, m);
      InTimeRest(State(), running, due, period, m, reading);
      OutOfListsInTime(State().(queue := queue[1..]), running - {t}, due, period, m, reading, t);
      HistoryLess(running, start, times, due, period, now, t);
      command := PopCommand();
      running := running - {t};
    }

    /** The start of a round of prvProcessReceivedCommands: the command leaves the queue and
        its timer its list, before the daemon looks at the clock. */
    method TakeCommand(timeNow: nat, ghost reading: int) returns (command: Command, ghost commandTime: int)
      requires Valid() && LooksInTime(reading) && InReach(reading, base, m) && timeNow == WordOf(reading, base, m)
      requires queue != []
      modifies this`current, this`overflow, this`value, this`queue, this`due, this`times, this`running, this`base
      modifies this`lastTime, this`now
      ensures base <= now < base + m && lastTime == now - base && now == reading && lastTime == timeNow
      ensures PeriodsOk(period, m) && ListsOk(State(), period, m)
      ensures RunningOk(State(), running - {command.timer}, due, period, base, m)
      ensures InHand(State(), running, command.timer) && HistoryOk(running, start, times, due, period, now)
      ensures InTime(State(), running - {command.timer}, due, period, m, now)
      ensures Kept(old(running), running, autoReload) && Longer(old(times), times)
      ensures old(now) == reading ==> Backlog() + CommandWeight(command, lastTime, m) <= old(Backlog())
      ensures command == old(queue)[0] && command.timer in period
      ensures (command.Start? ==> command.value < m) && (command.ChangePeriod? ==> 0 < command.period < m)
      ensures command.timer in running ==>
        && command.Start? && command.timer in due && commandTime == due[command.timer] - period[command.timer]
        && commandTime <= now < commandTime + m && InReach(commandTime, base, m)
        && command.value == WordOf(commandTime, base, m)
      ensures base == if reading < old(base) + m then old(base) else old(base) + m
    {
      hide ListsOk, RunningOk, HistoryOk, InTime, InHand, Longer, NoNewcomers, Unmoved, PeriodsOk;
      hide SumOver, QueueWeight, CommandWeight;
      ghost var all, before, wasDue, wasBase, wasNow := running, times, due, base, now;
      HistoryAt();
      command := TakeOffQueue(reading);
      ghost var f, t := State(), command.timer;
      var switched := SampleTimeNow(timeNow, reading);
      StillInHand(f, State(), all, if t in all then running + {t} else running, t);
      commandTime := 0;
      if t in all {
        HistoryLater(all, start, before, wasDue, period, wasNow, now);
        HistoryMore(running, start, times, due, period, now, all, before, wasDue, t);
        commandTime := wasDue[t] - period[t];
        SameWord(commandTime, wasBase, base, m);
        assert running + {t} - {t} == running;
        running := running + {t};
      } else {
        assert running - {t} == running;
      }
    }

    lemma HistoryAt()
      requires Valid()
      ensures HistoryOk(running, start, times, due, period, now)
    {
    }

    /** What a command does to the lists. */
    ghost predicate Obeyed(command: Command)
      reads `current, `overflow, `value, `queue, `period, `lastTime
    {
      match command
      case Stop(t) => t !in current && t !in overflow
      case Delete(t) => t !in current && t !in overflow
      case ChangePeriod(t, p) =>
        lastTime < m && p <= m
        && Seated(State(), if lastTime + p < m then CurrentList else OverflowList, t, Onward(lastTime, p, m))
      case Start(t, v) =>
        && t in period && v < m && lastTime < m && period[t] <= m
        && var next := Onward(v, period[t], m); Seated(State(), PlacementFor(next, lastTime, v, period[t], m), t, next)
    }

    /** The second half of a round of prvProcessReceivedCommands: the command is carried out
        on its timer, which is in no list. */
    method Handle(command: Command, ghost commandTime: int)
      requires base <= now < base + m && lastTime == now - base
      requires PeriodsOk(period, m) && ListsOk(State(), period, m)
      requires RunningOk(State(), running - {command.timer}, due, period, base, m)
      requires InHand(State(), running, command.timer) && HistoryOk(running, start, times, due, period, now)
      requires InTime(State(), running - {command.timer}, due, period, m, now) && command.timer in period
      requires (command.Start? ==> command.value < m) && (command.ChangePeriod? ==> 0 < command.period < m)
      requires command.timer in running ==>
        && command.Start? && command.timer in due && commandTime == due[command.timer] - period[command.timer]
        && commandTime <= now < commandTime + m && InReach(commandTime, base, m)
        && command.value == WordOf(commandTime, base, m)
      modifies this`current, this`overflow, this`value, this`queue, this`due, this`times, this`running, this`period
      ensures Valid() && InTime(State(), running, due, period, m, now) && Kept(old(running), running, autoReload)
      ensures Longer(old(times), times) && Obeyed(command)
      ensures period == if command.ChangePeriod? then old(period)[command.timer := command.period] else old(period)
      ensures forall t :: t in running && t in old(period) ==> t in period && period[t] == old(period)[t]
      ensures Backlog() < old(Backlog()) + CommandWeight(command, lastTime, m)
    {
      hide SumOver, QueueWeight, ListsOk, RunningOk, HistoryOk, InTime, InHand, Longer, Seated;
      NoNewcomersYet(State(), due, times, running);
      if command.timer !in running {
        assert running - {command.timer} == running;
      }
      OutOfHand(State(), running, command.timer);
      match command {
        case Start(t, value) =>
          HandleStart(t, value, commandTime);
        case Stop(_) =>
        case Delete(_) =>
        case ChangePeriod(t, newPeriod) =>
          HandleChangePeriod(t, newPeriod);
      }
    }

    /** A round of prvProcessReceivedCommands. */
    method ProcessCommand(timeNow: nat, ghost reading: int)
      requires Valid() && LooksInTime(reading) && InReach(reading, base, m) && timeNow == WordOf(reading, base, m)
      requires queue != []
      modifies this`current, this`overflow, this`value, this`queue, this`due, this`times, this`running, this`base
      modifies this`lastTime, this`now, this`period
      ensures Valid() && now == reading && lastTime == timeNow && Kept(old(running), running, autoReload)
      ensures Longer(old(times), times) && Obeyed(old(queue)[0])
      ensures InTime(State(), running, due, period, m, now)
      ensures old(now) == reading ==> Backlog() < old(Backlog())
      ensures period == if old(queue)[0].ChangePeriod? then old(period)[old(queue)[0].timer := old(queue)[0].period]
        else old(period)
      ensures forall t :: t in running && t in old(period) ==> t in period && period[t] == old(period)[t]
      ensures Acts(Handles, old(Seen()), Seen(), autoReload)
      ensures base == if reading < old(base) + m then old(base) else old(base) + m
      ensures period.Keys == old(period).Keys
    {
      hide SumOver, QueueWeight, ListsOk, RunningOk, HistoryOk, InTime, InHand, Longer, Obeyed, CommandWeight;
      ghost var seen := Seen();
      HistoryNow();
      var command, commandTime := TakeCommand(timeNow, reading);
      ghost var mid := times;
      Handle(command, commandTime);
      StillLonger(old(times), mid, times);
      HistoryNow();
      Acted(Handles, seen, Seen(), autoReload);
    }

    /** prvProcessReceivedCommands, while the clock stands still: the loop ends although
        commands put others into the queue. */
    method ProcessReceivedCommands(timeNow: nat, ghost reading: int)
      requires Valid() && LooksInTime(reading) && InReach(reading, base, m) && timeNow == WordOf(reading, base, m)
      requires now == reading
      modifies this`current, this`overflow, this`value, this`queue, this`due, this`times, this`running, this`base
      modifies this`lastTime, this`now, this`period
      ensures Valid() && now == reading && lastTime == timeNow && Kept(old(running), running, autoReload)
      ensures Longer(old(times), times)
      ensures InTime(State(), running, due, period, m, now) && queue == []
      ensures if old(queue) == [] then Backlog() == old(Backlog()) && running == old(running) && due == old(due)
        else Backlog() < old(Backlog())
      ensures forall t :: t in running && t in old(period) ==> t in period && period[t] == old(period)[t]
      ensures base == if reading < old(base) + m then old(base) else old(base) + m
      ensures period.Keys == old(period).Keys
    {
      hide TimersOk, InTime, Longer, Backlog, Unmoved, NoNewcomers;
      NoNewcomersYet(State(), due, times, running);
      ghost var handled := false;
      while queue != []
        invariant Valid() && now == reading && timeNow == lastTime && InTime(State(), running, due, period, m, now)
        invariant forall t :: t in running && t in old(period) ==> t in period && period[t] == old(period)[t]
        invariant base == if reading < old(base) + m then old(base) else old(base) + m
        invariant period.Keys == old(period).Keys
        invariant Kept(old(running), running, autoReload) && Longer(old(times), times) && Backlog() <= old(Backlog())
        invariant if !handled
          then Backlog() == old(Backlog()) && queue == old(queue) && running == old(running) && due == old(due)
                  else Backlog() < old(Backlog()) && old(queue) != []
        decreases Backlog()
      {
        handled := true;
        ghost var mid := times;
        ProcessCommand(timeNow, reading);
        StillLonger(old(times), mid, times);
      }
    }

    /** A round of the daemon's loop, while the clock stands still. */
    method Round(timeNow: nat) returns (blocks: bool)
      requires Valid() && timeNow == lastTime && InTime(State(), running, due, period, m, now)
      modifies this`current, this`overflow, this`value, this`queue, this`due, this`times, this`running, this`base
      modifies this`lastTime, this`now, this`period
      ensures Valid() && now == old(now) && lastTime == timeNow && Kept(old(running), running, autoReload)
      ensures Longer(old(times), times)
      ensures InTime(State(), running, due, period, m, now) && base == old(base) && period.Keys == old(period).Keys
      ensures forall t :: t in running && t in old(period) ==> t in period && period[t] == old(period)[t]
      ensures Backlog() < old(Backlog()) || (old(queue) == [] && blocks && Backlog() == old(Backlog()))
      ensures blocks ==> forall t :: t in running && t !in Targets(queue) ==> t in due && now < due[t]
    {
      hide TimersOk, InTime, Longer, Backlog, Unmoved, NoNewcomers, Acts;
      ProcessReceivedCommands(timeNow, now);
      ghost var mid := times;
      var ticksToWait;
      blocks, ticksToWait := ProcessTimerOrBlock(timeNow, now);
      StillLonger(old(times), mid, times);
    }

    /** The daemon's loop, from a look at the clock until it has nothing left to do. However
        late it is, and however many callbacks it owes, the loop ends, and then every running
        timer has been called back for all its expiries so far, and none too early. */
    method CatchUp(timeNow: nat, ghost reading: int)
      requires Valid() && LooksInTime(reading) && InReach(reading, base, m) && timeNow == WordOf(reading, base, m)
      modifies this`current, this`overflow, this`value, this`queue, this`due, this`times, this`running, this`base
      modifies this`lastTime, this`now, this`period
      ensures Valid() && now == reading && queue == [] && Kept(old(running), running, autoReload)
      ensures Longer(old(times), times)
      ensures forall t :: t in running ==> t in due && now < due[t]
      ensures forall t :: t in running && t in old(period) ==> t in period && period[t] == old(period)[t]
      ensures base == if reading < old(base) + m then old(base) else old(base) + m
      ensures Acts(Looks(true), old(Seen()), Seen(), autoReload)
      ensures period.Keys == old(period).Keys
    {
      hide TimersOk, InTime, Longer, Backlog, Acts, HistoryIn;
      ghost var seen := Seen();
      HistoryNow();
      var blocks, ticksToWait := ProcessTimerOrBlock(timeNow, reading);
      while !blocks || queue != []
        invariant Valid() && now == reading && timeNow == lastTime && InTime(State(), running, due, period, m, now)
        invariant forall t :: t in running && t in old(period) ==> t in period && period[t] == old(period)[t]
        invariant base == if reading < old(base) + m then old(base) else old(base) + m
        invariant period.Keys == old(period).Keys
        invariant Kept(old(running), running, autoReload) && Longer(old(times), times)
        invariant blocks ==> forall t :: t in running && t !in Targets(queue) ==> t in due && now < due[t]
        decreases Backlog(), !blocks
      {
        ghost var mid := times;
        blocks := Round(timeNow);
        StillLonger(old(times), mid, times);
      }
      HistoryNow();
      Acted(Looks(true), seen, Seen(), autoReload);
    }

    /** A timer that has caught up: one callback for each period from the start until now. */
    lemma CaughtUp(t: Timer)
      requires Valid() && t in running && t in due && now < due[t]
      ensures t in start && t in times && t in period && period[t] > 0
      ensures times[t] != [] ==> times[t][0] == start[t] + period[t]
      ensures forall i :: 0 < i < |times[t]| ==> times[t][i] == times[t][i - 1] + period[t]
      ensures times[t] != [] ==> times[t][|times[t]| - 1] <= now < times[t][|times[t]| - 1] + period[t]
      ensures times[t] == [] ==> now < start[t] + period[t]
    {
    }

    /** A timer at rest begins to run from a time. */
    ghost method Begin(t: Timer, commandTime: int)
      requires TimersOk() && t in period && t !in running && t !in current && t !in overflow && t !in Targets(queue)
      modifies this`running, this`start, this`due, this`times
      ensures RunningOk(State(), running - {t}, due, period, base, m) && InHand(State(), running, t)
      ensures HistoryOk(running, start, times, due, period, now)
      ensures running == old(running) + {t} && start == old(start)[t := commandTime]
      ensures due == old(due)[t := commandTime + period[t]] && times == old(times)[t := []]
    {
      hide ListsOk, RunningOk, HistoryOk, Targets;
      assert running + {t} - {t} == running && running - {t} == running;
      Redue(State(), running, due, period, base, m, t, commandTime + period[t]);
      HistoryStarts(running, start, times, due, period, now, t, commandTime);
      start, times, due := start[t := commandTime], times[t := []], due[t := commandTime + period[t]];
      running := running + {t};
    }

    /** A timer that gets a command, and does not start with it, is not followed any more. */
    ghost method Leave(command: Command)
      requires TimersOk() && command.timer in period
      requires (command.Start? ==> command.value < m) && (command.ChangePeriod? ==> 0 < command.period < m)
      modifies this`running
      ensures running == old(running) - {command.timer} && HistoryOk(running, start, times, due, period, now)
      ensures var r := State().(queue := queue + [command]);
        ListsOk(r, period, m) && RunningOk(r, running, due, period, base, m)
    {
      SentOk(State(), running, due, period, base, m, command);
      HistoryLess(running, start, times, due, period, now, command.timer);
      running := running - {command.timer};
    }

    /** A command arrives. A timer that is at rest and gets a start command runs from the
        time it names; a timer that gets any other command is not followed any more. */
    method Send(command: Command, ghost commandTime: int)
      requires Valid() && command.timer in period
      requires (command.Start? ==> command.value < m) && (command.ChangePeriod? ==> 0 < command.period < m)
      modifies this`queue, this`running, this`start, this`due, this`times
      ensures Valid() && queue == old(queue) + [command]
      ensures var t := command.timer;
        var starts := command.Start? && t !in old(running) && t !in current && t !in overflow
          && t !in Targets(old(queue))
                      && InReach(commandTime, base, m) && command.value == WordOf(commandTime, base, m);
        if starts then
          && running == old(running) + {t} && start == old(start)[t := commandTime]
          && due == old(due)[t := commandTime + period[t]] && times == old(times)[t := []]
        else
          running == old(running) - {t} && start == old(start) && due == old(due) && times == old(times)
      ensures Acts(Sends(command), old(Seen()), Seen(), autoReload)
    {
      hide ListsOk, RunningOk, HistoryOk, HistoryIn, Targets, InHand, Acts;
      ghost var t, seen := command.timer, Seen();
      HistoryNow();
      if command.Start? && t !in running && t !in current && t !in overflow && t !in Targets(queue)
         && InReach(commandTime, base, m) && command.value == WordOf(commandTime, base, m) {
        Begin(t, commandTime);
        EnqueueOk(State(), running, due, period, base, m, t, command.value);
      } else {
        Leave(command);
      }
      queue := queue + [command];
      HistoryNow();
      SendActs(command, seen, Seen(), autoReload);
    }

    lemma ClockOk()
      requires Valid()
      ensures base <= now < base + m && Word(0, m) == 0
    {
    }

    lemma PeriodsAreOk()
      requires Valid()
      ensures PeriodsOk(period, m)
    {
    }

    /** One event in the daemon's service, at a time less than one wrap after it ran last. */
    method Serve(e: Event, ghost time: int, ghost origin: int, ghost since: int)
      requires Valid() && Rested(State(), running, due, period, now, since) && now <= since <= time < now + m
      requires origin <= base && Word(base - origin, m) == 0 && Stamped(e, time, origin, m) && Meaningful(e, period, m)
      modifies this
      ensures Valid() && origin <= base && Word(base - origin, m) == 0 && period.Keys == old(period).Keys
      ensures now == (if e.Wakes? then time else old(now)) && Rested(State(), running, due, period, now, time)
      ensures Acts(if e.Arrives? then Sends(e.command) else Looks(true), old(Seen()), Seen(), autoReload)
    {
      hide TimersOk, Acts, HistoryIn;
      PeriodsAreOk();
      WordFromOrigin(time, base, origin, m);
      ghost var f, was, wasDue := State(), running, due;
      match e
      case Arrives(command) =>
        Send(command, time);
        RestedAfter(f, State(), was, running, wasDue, due, period, now, since, time, command);
      case Wakes(timeNow) =>
        RestedInTime(State(), running, due, period, now, since, m, time);
        CatchUp(timeNow, time);
    }

    /** The daemon in service: commands arrive, and it gets to run at least once a wrap. An
        auto-reload timer that no command names runs on from its start with its period, and
        whenever the daemon has run, the timer has had exactly the callbacks that were due. */
    method Run(events: seq<Event>, ghost clock: seq<int>)
      requires Valid() && Rested(State(), running, due, period, now, now)
      requires |clock| == |events| && Timely(events, clock, now, now, m)
      requires forall i :: 0 <= i < |events| ==>
        Stamped(events[i], clock[i], base, m) && Meaningful(events[i], period, m)
      modifies this
      ensures Valid() && (events != [] && events[|events| - 1].Wakes? ==> now == clock[|events| - 1])
      ensures forall t :: t in old(running) && t in autoReload && Unnamed(events, t) ==>
        && RunsOn(old(Seen()), Seen(), t)
        && t in old(start) && t in old(period) && OnSchedule(Seen(), t, old(start)[t], old(period)[t])
    {
      hide Valid, Stamped, Rested, RunsOn, Acts, HistoryIn;
      ghost var origin, first := base, Seen();
      HistoryNow();
      StartsOn(first);
      ghost var since := now;
      ClockOk();
      assert events[0..] == events && clock[0..] == clock;
      for i := 0 to |events|
        invariant Valid() && origin <= base && Word(base - origin, m) == 0 && period.Keys == first.period.Keys
        invariant now <= since && Rested(State(), running, due, period, now, since)
        invariant Timely(events[i..], clock[i..], now, since, m)
        invariant forall t :: t in first.running && t in autoReload && Unnamed(events[..i], t) ==>
          RunsOn(first, Seen(), t)
        invariant i > 0 && events[i - 1].Wakes? ==> now == clock[i - 1]
      {
        ghost var before := Seen();
        assert events[i..][0] == events[i] && events[i..][1..] == events[i + 1..] && clock[i..][0] == clock[i]
          && clock[i..][1..] == clock[i + 1..];
        Serve(events[i], clock[i], origin, since);
        forall t | t in first.running && t in autoReload && Unnamed(events[..i + 1], t)
          ensures RunsOn(first, Seen(), t)
        {
          assert events[..i + 1][i] == events[i];
          assert forall k :: 0 <= k < i ==> events[..i + 1][k] == events[..i][k];
          RunsOnNext(if events[i].Arrives? then Sends(events[i].command) else Looks(true), first, before, Seen(),
                     autoReload, t);
        }
        since := clock[i];
      }
      assert events[..|events|] == events;
      HistoryNow();
      forall t | t in first.running && t in autoReload && Unnamed(events, t)
        ensures t in first.start && t in first.period && OnSchedule(Seen(), t, first.start[t], first.period[t])
      {
        RestedIsOnSchedule(first, Seen(), State(), t, since);
      }
    }
  }
}
