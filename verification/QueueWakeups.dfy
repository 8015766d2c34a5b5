/** Blocking on a queue of queue.c, with interrupts between any two critical sections.

    Every method of `Queue` below is one atomic section of the source, or one of its
    decisions; `pc` says which section a task runs next. Receivers and peekers share one
    list of waiting tasks, senders have the other. A task in `wokenReceivers` was taken
    off its list by an event and has not looked at the queue again since. */
module QueueWakeups {
  import opened Options
  import QueueStorage
  import opened RingLinks
  import opened SortedInsertion
  import opened TaskLists

  /** The lock counts are int8_t. */
  type Int8 = n: int | -128 <= n < 128

  const UNLOCKED: Int8 := -1
  const LOCKED_UNMODIFIED: Int8 := 0

  datatype Operation = Receive | Peek | Send | Overwrite

  datatype Then = Again | GiveUp

  datatype Pc =
    | Idle
    | Checking(op: Operation)                   // at the top of the loop
    | Blocking(op: Operation)                   // found the queue unusable, will suspend the scheduler
    | Locking(op: Operation)
    | Deciding(op: Operation)                   // holds the locks, will look at timeout and queue
    | Sleeping(op: Operation)                   // holds the locks, will join the waiting list
    | UnlockingTx(op: Operation, next: Then)
    | UnlockingRx(op: Operation, next: Then)
    | Resuming(op: Operation, next: Then)
    | Expired(op: Operation)

  predicate Suspends(pc: Pc) {
    !pc.Idle? && !pc.Checking? && !pc.Blocking? && !pc.Expired?
  }

  /** The next critical section of the task that touches the queue is the check. */
  predicate WillCheck(pc: Pc, sends: bool) {
    && (pc.Checking? || ((pc.UnlockingTx? || pc.UnlockingRx? || pc.Resuming?) && pc.next == Again))
    && (sends <==> pc.op == Send) && pc.op != Overwrite
  }

  /** The lock count after one more post. */
  function Counted(lock: Int8): (r: Int8) {
    if lock == 127 then -128 else lock + 1
  }

  function CountedTimes(posts: nat): (r: Int8) {
    if posts == 0 then LOCKED_UNMODIFIED else Counted(CountedTimes(posts - 1))
  }

  /** How many wakeups an unlock owes. */
  function Owed(lock: Int8): (n: nat) {
    if lock > LOCKED_UNMODIFIED then lock else 0
  }

  /** The wakeups owed after a lock window are those of its posts exactly when there were
      at most 127. */
  lemma {:induction false} PostsRemembered(posts: nat)
    ensures Owed(CountedTimes(posts)) == posts <==> posts <= 127
  {
    CountIs(posts);
  }

  lemma {:induction false} CountIs(posts: nat)
    ensures CountedTimes(posts) == if posts % 256 < 128 then posts % 256 else posts % 256 - 256
  {
    if posts > 0 {
      CountIs(posts - 1);
    }
  }

  ghost predicate WaitersAre(waiting: seq<Task>, woken: set<Task>, pc: map<Task, Pc>, sends: bool) {
    && NoDuplicates(waiting)
    && (forall t :: t in waiting ==> t in pc && t !in woken && WillCheck(pc[t], sends))
    && (forall t :: t in woken ==> t in pc && WillCheck(pc[t], sends))
  }

  ghost predicate LocksAre(pc: map<Task, Pc>, suspendedBy: Option<Task>, tx: Int8, rx: Int8, messages: nat,
                           length: nat) {
    && (forall t :: t in pc ==> (Suspends(pc[t]) <==> suspendedBy == Some(t)))
    && match suspendedBy
       case None => tx == rx == UNLOCKED
       case Some(owner) => owner in pc && LocksAt(pc[owner], tx, rx, messages, length)
  }

  /** What the lock counts are while a task is inside its lock window. A task that found
      the queue unusable goes to sleep for good only if no event came since. */
  ghost predicate LocksAt(pc: Pc, tx: Int8, rx: Int8, messages: nat, length: nat) {
    match pc
    case Deciding(_) => tx >= 0 && rx >= 0
    case Sleeping(op) =>
      && tx >= 0 && rx >= 0 && op != Overwrite
      && (if op == Send then length - messages <= rx else messages <= tx)
    case UnlockingTx(_, _) => tx >= 0 && rx >= 0
    case UnlockingRx(_, _) => tx == UNLOCKED && rx >= 0
    case _ => tx == rx == UNLOCKED
  }

  ghost predicate OverwritersOk(pc: map<Task, Pc>, length: nat) {
    forall t :: t in pc && !pc[t].Idle? && pc[t].op == Overwrite ==> length == 1 && pc[t].Checking?
  }

  /** A task that has looked at the queue again is no longer counted as woken. */
  lemma Rechecked(waiting: seq<Task>, woken: set<Task>, pc: map<Task, Pc>, sends: bool, t: Task, next: Pc)
    requires WaitersAre(waiting, woken, pc, sends) && t in pc && !pc[t].Idle? && t !in waiting
    ensures WaitersAre(waiting, woken - {t}, pc[t := next], sends)
    ensures |woken - {t}| >= |woken| - 1
    ensures (pc[t].op == Overwrite || (pc[t].op == Send <==> !sends)) ==> |woken - {t}| == |woken|
  {
    if t !in woken {
      assert woken - {t} == woken;
    }
  }

  lemma LocksFree(pc: map<Task, Pc>, suspendedBy: Option<Task>, tx: Int8, rx: Int8, messages: nat, length: nat,
                  t: Task, next: Pc, m: nat)
    requires LocksAre(pc, suspendedBy, tx, rx, messages, length) && suspendedBy == None && t in pc && !Suspends(next)
    ensures tx == rx == UNLOCKED && LocksAre(pc[t := next], None, tx, rx, m, length)
  {
  }

  lemma NotOverwriting(pc: map<Task, Pc>, length: nat, t: Task)
    requires OverwritersOk(pc, length) && t in pc && !pc[t].Idle? && !pc[t].Checking?
    ensures pc[t].op != Overwrite
  {
  }

  lemma OverwriterOk(pc: map<Task, Pc>, length: nat, t: Task, next: Pc)
    requires OverwritersOk(pc, length) && t in pc && !pc[t].Idle?
    requires next.Idle? || (next.op == pc[t].op && (next.op != Overwrite || next.Checking?))
    ensures OverwritersOk(pc[t := next], length)
    ensures pc[t].op == Overwrite ==> length == 1 && pc[t].Checking?
  {
  }

  /** A task that keeps its intention to look at the queue may be waiting or woken. */
  lemma StepKeepsWaiters(waiting: seq<Task>, woken: set<Task>, pc: map<Task, Pc>, sends: bool, t: Task, next: Pc)
    requires WaitersAre(waiting, woken, pc, sends) && t in pc && (WillCheck(pc[t], sends) ==> WillCheck(next, sends))
    ensures WaitersAre(waiting, woken, pc[t := next], sends)
  {
  }

  /** Between its check and its sleep no task counts as waiting or woken. */
  lemma NotAWaiter(waiting: seq<Task>, woken: set<Task>, pc: map<Task, Pc>, sends: bool, t: Task)
    requires WaitersAre(waiting, woken, pc, sends) && t in pc && !WillCheck(pc[t], sends)
    ensures t !in waiting && t !in woken
  {
  }

  lemma OwnerIs(pc: map<Task, Pc>, suspendedBy: Option<Task>, tx: Int8, rx: Int8, messages: nat, length: nat, t: Task)
    requires LocksAre(pc, suspendedBy, tx, rx, messages, length) && t in pc && Suspends(pc[t])
    ensures suspendedBy == Some(t) && LocksAt(pc[t], tx, rx, messages, length)
  {
  }

  lemma OwnerSteps(pc: map<Task, Pc>, suspendedBy: Option<Task>, tx: Int8, rx: Int8, messages: nat, length: nat,
                   t: Task, next: Pc,
                   txNow: Int8, rxNow: Int8)
    requires LocksAre(pc, suspendedBy, tx, rx, messages, length) && t in pc
    requires suspendedBy == None || suspendedBy == Some(t)
    requires if Suspends(next) then LocksAt(next, txNow, rxNow, messages, length) else txNow == rxNow == UNLOCKED
    ensures LocksAre(pc[t := next], if Suspends(next) then Some(t) else None, txNow, rxNow, messages, length)
  {
  }

  /** An event that comes while the queue is locked is counted by the lock. */
  lemma EventKeepsLocks(pc: map<Task, Pc>, suspendedBy: Option<Task>, tx: Int8, rx: Int8, messages: nat, length: nat,
                        messagesNow: nat, sent: bool)
    requires LocksAre(pc, suspendedBy, tx, rx, messages, length) && (if sent then tx < 127 else rx < 127)
    requires if sent then messages <= messagesNow <= messages + 1 else messagesNow == messages - 1
    ensures LocksAre(pc, suspendedBy, if sent && tx != UNLOCKED then Counted(tx) else tx,
                     if !sent && rx != UNLOCKED then Counted(rx) else rx, messagesNow, length)
  {
  }

  lemma JoinKeepsWaiters(waiting: seq<Task>, woken: set<Task>, pc: map<Task, Pc>, sends: bool, t: Task, next: Pc,
                         k: nat)
    requires WaitersAre(waiting, woken, pc, sends) && t in pc && t !in waiting && t !in woken && k <= |waiting|
    requires WillCheck(next, sends)
    ensures WaitersAre(InsertAt(waiting, k, t), woken, pc[t := next], sends)
  {
    InsertKeeps(waiting, k, t);
  }

  lemma LeaveKeepsWaiters(waiting: seq<Task>, woken: set<Task>, pc: map<Task, Pc>, sends: bool, t: Task)
    requires WaitersAre(waiting, woken, pc, sends) && t in waiting
    ensures WaitersAre(Without(waiting, t), woken, pc, sends)
  {
    WithoutKeeps(waiting, t);
  }

  function AtMost(a: nat, b: nat): (r: nat)
    ensures r <= a && r <= b && (r == a || r == b)
  {
    if a < b then a else b
  }

  datatype Event =
    | Starts(t: Task, op: Operation)
    | Steps(t: Task, choice: bool, place: nat)
    | InterruptSends(overwrite: bool)
    | InterruptReceives
    | WaitEnds(t: Task)

  /** The queue, its waiters and the tasks inside its calls at one moment. */
  datatype State = State(length: nat, itemSize: nat, messages: nat, txLock: Int8, rxLock: Int8,
                         waitingToReceive: seq<Task>, waitingToSend: seq<Task>, pc: map<Task, Pc>,
                         suspendedBy: Option<Task>, wokenReceivers: set<Task>, wokenSenders: set<Task>)
  {
    /** The first waiter leaves its list, if there is one. */
    function ReceiverWoken(): (s: State) {
      if waitingToReceive == [] then this
      else this.(waitingToReceive := waitingToReceive[1..], wokenReceivers := wokenReceivers + {waitingToReceive[0]})
    }

    function SenderWoken(): (s: State) {
      if waitingToSend == [] then this
      else this.(waitingToSend := waitingToSend[1..], wokenSenders := wokenSenders + {waitingToSend[0]})
    }

    ghost function ReceiversWoken(n: nat): (s: State) {
      var k := AtMost(n, |waitingToReceive|);
      this.(waitingToReceive := waitingToReceive[k..],
            wokenReceivers := wokenReceivers + Elements(waitingToReceive[..k]))
    }

    ghost function SendersWoken(n: nat): (s: State) {
      var k := AtMost(n, |waitingToSend|);
      this.(waitingToSend := waitingToSend[k..], wokenSenders := wokenSenders + Elements(waitingToSend[..k]))
    }

    lemma ReceiversInTurn(k: nat)
      ensures ReceiversWoken(0) == this
      ensures k < |waitingToReceive| ==> ReceiversWoken(k).ReceiverWoken() == ReceiversWoken(k + 1)
      ensures k >= |waitingToReceive| ==> ReceiversWoken(k) == ReceiversWoken(|waitingToReceive|)
    {
      if k < |waitingToReceive| {
        assert waitingToReceive[k..][1..] == waitingToReceive[k + 1..];
        assert waitingToReceive[..k + 1] == waitingToReceive[..k] + [waitingToReceive[k]];
        assert wokenReceivers + Elements(waitingToReceive[..k]) + {waitingToReceive[k]}
          == wokenReceivers + Elements(waitingToReceive[..k + 1]);
      }
      assert waitingToReceive[0..] == waitingToReceive && wokenReceivers + Elements([]) == wokenReceivers;
    }

    lemma SendersInTurn(k: nat)
      ensures SendersWoken(0) == this
      ensures k < |waitingToSend| ==> SendersWoken(k).SenderWoken() == SendersWoken(k + 1)
      ensures k >= |waitingToSend| ==> SendersWoken(k) == SendersWoken(|waitingToSend|)
    {
      if k < |waitingToSend| {
        assert waitingToSend[k..][1..] == waitingToSend[k + 1..];
        assert waitingToSend[..k + 1] == waitingToSend[..k] + [waitingToSend[k]];
        assert wokenSenders + Elements(waitingToSend[..k]) + {waitingToSend[k]}
          == wokenSenders + Elements(waitingToSend[..k + 1]);
      }
      assert waitingToSend[0..] == waitingToSend && wokenSenders + Elements([]) == wokenSenders;
    }

    predicate Usable(op: Operation) {
      match op
      case Receive => messages > 0
      case Peek => messages > 0
      case Send => messages < length
      case Overwrite => true
    }

    /** What a task that finds the queue usable leaves in it. */
    function MessagesAfter(op: Operation): (n: nat)
      requires Usable(op)
    {
      match op
      case Receive => messages - 1
      case Peek => messages
      case Send => messages + 1
      case Overwrite => if itemSize > 0 then 1 else messages + 1
    }

    function At(t: Task, next: Pc): (s: State) {
      this.(pc := pc[t := next], suspendedBy := if Suspends(next) then Some(t) else None)
    }
  }

  /** A look at the queue: the operation succeeds, and wakes the task that may use what it
      leaves, or the task gives up, or it will wait. */
  function Looked(s: State, t: Task, op: Operation, canWait: bool): (r: State) {
    var seen := s.(wokenReceivers := s.wokenReceivers - {t}, wokenSenders := s.wokenSenders - {t});
    if s.Usable(op) then
      var now := seen.(messages := s.MessagesAfter(op), pc := s.pc[t := Idle]);
      if op == Receive then now.SenderWoken() else now.ReceiverWoken()
    else
      seen.(pc := s.pc[t := if canWait then Blocking(op) else Idle])
  }

  /** The state after the section that a task runs next. */
  ghost function AfterStep(s: State, t: Task, choice: bool, place: nat): (r: State)
    requires t in s.pc
  {
    match s.pc[t]
    case Idle => s
    case Checking(op) => Looked(s, t, op, choice)
    case Blocking(op) => s.At(t, Locking(op))
    case Locking(op) => s.(txLock := LOCKED_UNMODIFIED, rxLock := LOCKED_UNMODIFIED).At(t, Deciding(op))
    case Deciding(op) =>
      s.At(t, if choice then UnlockingTx(op, GiveUp)
              else if s.messages == (if op == Send then s.length else 0) then Sleeping(op)
              else UnlockingTx(op, Again))
    case Sleeping(op) =>
      var k := AtMost(place, |if op == Send then s.waitingToSend else s.waitingToReceive|);
      var next := s.At(t, UnlockingTx(op, Again));
      if op == Send then next.(waitingToSend := InsertAt(s.waitingToSend, k, t))
      else next.(waitingToReceive := InsertAt(s.waitingToReceive, k, t))
    case UnlockingTx(op, after) => s.(txLock := UNLOCKED).ReceiversWoken(Owed(s.txLock)).At(t, UnlockingRx(op, after))
    case UnlockingRx(op, after) => s.(rxLock := UNLOCKED).SendersWoken(Owed(s.rxLock)).At(t, Resuming(op, after))
    case Resuming(op, after) =>
      s.At(t, if after == Again then Checking(op) else if op == Send then Idle else Expired(op))
    case Expired(op) => s.At(t, if s.messages == 0 then Idle else Checking(op))
  }

  function AfterInterruptSend(s: State, overwrite: bool): (r: State) {
    if s.messages < s.length || overwrite then
      var now := s.(messages := if s.messages < s.length || s.itemSize == 0 then s.messages + 1 else s.messages);
      if s.txLock == UNLOCKED then now.ReceiverWoken() else now.(txLock := Counted(s.txLock))
    else s
  }

  function AfterInterruptReceive(s: State): (r: State) {
    if s.messages > 0 then
      var now := s.(messages := s.messages - 1);
      if s.rxLock == UNLOCKED then now.SenderWoken() else now.(rxLock := Counted(s.rxLock))
    else s
  }

  function AfterWait(s: State, t: Task): (r: State)
    requires t in s.waitingToReceive || t in s.waitingToSend
  {
    if t in s.waitingToReceive then s.(waitingToReceive := Without(s.waitingToReceive, t))
    else s.(waitingToSend := Without(s.waitingToSend, t))
  }

  /** The state after an event; one that cannot happen in the state it meets is left out. */
  ghost function After(s: State, e: Event): (r: State) {
    match e
    case Starts(t, op) =>
      if (t !in s.pc || s.pc[t] == Idle) && (op == Overwrite ==> s.length == 1) then
        s.(pc := s.pc[t := Checking(op)])
      else s
    case Steps(t, choice, place) =>
      if t in s.pc && (s.suspendedBy == None || s.suspendedBy == Some(t))
        && (t in s.waitingToReceive || t in s.waitingToSend ==> Suspends(s.pc[t]))
      then AfterStep(s, t, choice, place)
      else s
    case InterruptSends(overwrite) =>
      if s.txLock < 127 && (overwrite ==> s.length == 1) then AfterInterruptSend(s, overwrite) else s
    case InterruptReceives => if s.rxLock < 127 then AfterInterruptReceive(s) else s
    case WaitEnds(t) =>
      if s.suspendedBy == None && (t in s.waitingToReceive || t in s.waitingToSend) then AfterWait(s, t) else s
  }

  ghost function AfterAll(s: State, events: seq<Event>): (r: State) {
    if events == [] then s else After(AfterAll(s, events[..|events| - 1]), events[|events| - 1])
  }

  /** How many of its own steps a task in a lock window is away from resuming the scheduler. */
  function WindowLeft(pc: Pc): (n: nat) {
    match pc
    case Locking(_) => 6
    case Deciding(_) => 5
    case Sleeping(_) => 4
    case UnlockingTx(_, _) => 3
    case UnlockingRx(_, _) => 2
    case Resuming(_, _) => 1
    case _ => 0
  }

  /** A task that suspended the scheduler for the queue resumes it after at most six of its
      steps, whatever it finds. */
  lemma WindowEnds(s: State, t: Task, choice: bool, place: nat)
    requires t in s.pc && Suspends(s.pc[t])
    ensures var r := AfterStep(s, t, choice, place);
      && t in r.pc && WindowLeft(r.pc[t]) < WindowLeft(s.pc[t]) <= 6
      && (r.suspendedBy == None <==> WindowLeft(r.pc[t]) == 0)
  {
  }

  class Queue {
    const length: nat
    const itemSize: nat
    var messages: nat                 // may pass the length only when items have no bytes
    var txLock: Int8
    var rxLock: Int8
    var waitingToReceive: seq<Task>
    var waitingToSend: seq<Task>
    var pc: map<Task, Pc>
    var suspendedBy: Option<Task>     // the task that suspended the scheduler
    ghost var wokenReceivers: set<Task>
    ghost var wokenSenders: set<Task>

    /** No wakeup is lost: while a receiver waits, every message has a woken receiver, or a
        wakeup owed by the lock, that will see it; and every free place one of a sender. */
    ghost predicate NoneLost()
      reads `messages, `txLock, `rxLock, `waitingToReceive, `waitingToSend, `wokenReceivers, `wokenSenders
    {
      && (waitingToReceive != [] ==> messages <= |wokenReceivers| + Owed(txLock))
      && (waitingToSend != [] ==> length - messages <= |wokenSenders| + Owed(rxLock))
    }

    ghost predicate Valid()
      reads this
    {
      && length > 0 && (itemSize > 0 ==> messages <= length) && txLock >= UNLOCKED && rxLock >= UNLOCKED && NoneLost()
      && WaitersAre(waitingToReceive, wokenReceivers, pc, false) && WaitersAre(waitingToSend, wokenSenders, pc, true)
      && LocksAre(pc, suspendedBy, txLock, rxLock, messages, length)
      && OverwritersOk(pc, length)
    }

    ghost function Now(): (s: State)
      reads this
    {
      State(length, itemSize, messages, txLock, rxLock, waitingToReceive, waitingToSend, pc, suspendedBy,
            wokenReceivers, wokenSenders)
    }

    constructor (length: nat, itemSize: nat)
      requires length > 0
      ensures Valid() && this.length == length && this.itemSize == itemSize && messages == 0 && pc == map[]
        && suspendedBy == None
    {
      this.length, this.itemSize := length, itemSize;
      messages := 0;
      txLock, rxLock := UNLOCKED, UNLOCKED;
      waitingToReceive, waitingToSend := [], [];
      pc := map[];
      suspendedBy := None;
      wokenReceivers, wokenSenders := {}, {};
    }

    /** xTaskRemoveFromEventList on the receivers' list, when there is one. */
    method WakeReceiver()
      requires WaitersAre(waitingToReceive, wokenReceivers, pc, false)
      modifies this`waitingToReceive, this`wokenReceivers
      ensures WaitersAre(waitingToReceive, wokenReceivers, pc, false) && Now() == old(Now()).ReceiverWoken()
      ensures if old(waitingToReceive) == [] then
          waitingToReceive == [] && wokenReceivers == old(wokenReceivers)
        else
          && waitingToReceive == old(waitingToReceive)[1..]
          && wokenReceivers == old(wokenReceivers) + {old(waitingToReceive)[0]}
          && |wokenReceivers| == |old(wokenReceivers)| + 1
    {
      if waitingToReceive != [] {
        wokenReceivers := wokenReceivers + {waitingToReceive[0]};
        waitingToReceive := waitingToReceive[1..];
      }
    }

    method WakeSender()
      requires WaitersAre(waitingToSend, wokenSenders, pc, true)
      modifies this`waitingToSend, this`wokenSenders
      ensures WaitersAre(waitingToSend, wokenSenders, pc, true) && Now() == old(Now()).SenderWoken()
      ensures if old(waitingToSend) == [] then
          waitingToSend == [] && wokenSenders == old(wokenSenders)
        else
          && waitingToSend == old(waitingToSend)[1..] && wokenSenders == old(wokenSenders) + {old(waitingToSend)[0]}
          && |wokenSenders| == |old(wokenSenders)| + 1
    {
      if waitingToSend != [] {
        wokenSenders := wokenSenders + {waitingToSend[0]};
        waitingToSend := waitingToSend[1..];
      }
    }

    /** A task that is not inside a call starts one. Only a queue of length one may be
        overwritten, as the source asserts. */
    method Call(t: Task, op: Operation)
      requires Valid() && (t in pc ==> pc[t] == Idle) && (op == Overwrite ==> length == 1)
      modifies this`pc
      ensures Valid() && Now() == old(Now()).(pc := old(pc)[t := Checking(op)])
    {
      pc := pc[t := Checking(op)];
    }

    ghost predicate StructureOk()
      reads `waitingToReceive, `waitingToSend, `wokenReceivers, `wokenSenders
      reads `pc, `suspendedBy, `txLock, `rxLock, `messages
    {
      && WaitersAre(waitingToReceive, wokenReceivers, pc, false) && WaitersAre(waitingToSend, wokenSenders, pc, true)
      && LocksAre(pc, suspendedBy, txLock, rxLock, messages, length)
      && OverwritersOk(pc, length)
    }

    ghost predicate CanCheck(t: Task, op: Operation)
      reads this
    {
      Valid() && t in pc && pc[t] == Checking(op) && t !in waitingToReceive && t !in waitingToSend
        && suspendedBy == None
    }

    /** What the critical sections at the top of the loops share: the task looks at the
        queue, changes the number of messages, and moves on. */
    method LookAgain(t: Task, next: Pc, messagesNow: nat)
      requires Valid() && t in pc && pc[t].Checking? && CanCheck(t, pc[t].op)
      requires itemSize > 0 ==> messagesNow <= length
      requires next == Idle || (next == Blocking(pc[t].op) && next.op != Overwrite)
      modifies this`messages, this`pc, this`wokenReceivers, this`wokenSenders
      ensures messages == messagesNow && pc == old(pc)[t := next] && txLock == rxLock == UNLOCKED
      ensures wokenReceivers == old(wokenReceivers) - {t} && wokenSenders == old(wokenSenders) - {t}
      ensures StructureOk()
      ensures waitingToReceive != [] ==>
        old(messages) <= |wokenReceivers| + (if old(pc)[t].op == Receive || old(pc)[t].op == Peek then 1 else 0)
      ensures waitingToSend != [] ==>
        length - old(messages) <= |wokenSenders| + (if old(pc)[t].op == Send then 1 else 0)
      ensures old(pc)[t].op == Overwrite ==> length == 1
    {
      hide WaitersAre, LocksAre, OverwritersOk;
      Rechecked(waitingToReceive, wokenReceivers, pc, false, t, next);
      Rechecked(waitingToSend, wokenSenders, pc, true, t, next);
      LocksFree(pc, suspendedBy, txLock, rxLock, messages, length, t, next, messagesNow);
      OverwriterOk(pc, length, t, next);
      wokenReceivers, wokenSenders := wokenReceivers - {t}, wokenSenders - {t};
      pc := pc[t := next];
      messages := messagesNow;
    }

    /** xQueueReceive, and xQueueSemaphoreTake. */
    method CheckReceive(t: Task, canWait: bool) returns (done: bool)
      requires CanCheck(t, Receive)
      modifies this`messages, this`pc, this`wokenReceivers, this`waitingToSend, this`wokenSenders
      ensures Valid() && done == (old(messages) > 0)
      ensures messages == if done then old(messages) - 1 else old(messages)
      ensures pc == old(pc)[t := if done || !canWait then Idle else Blocking(Receive)]
      ensures Now() == Looked(old(Now()), t, Receive, canWait)
    {
      hide WaitersAre, LocksAre, OverwritersOk;
      done := messages > 0;
      if done {
        LookAgain(t, Idle, messages - 1);
        WakeSender();
      } else {
        LookAgain(t, if canWait then Blocking(Receive) else Idle, messages);
      }
    }

    /** xQueuePeek: the message stays, so the next receiver is woken as well. */
    method CheckPeek(t: Task, canWait: bool) returns (done: bool)
      requires CanCheck(t, Peek)
      modifies this`messages, this`pc, this`waitingToReceive, this`wokenReceivers, this`wokenSenders
      ensures Valid() && done == (old(messages) > 0) && messages == old(messages)
      ensures pc == old(pc)[t := if done || !canWait then Idle else Blocking(Peek)]
      ensures Now() == Looked(old(Now()), t, Peek, canWait)
    {
      hide WaitersAre, LocksAre, OverwritersOk;
      done := messages > 0;
      if done {
        LookAgain(t, Idle, messages);
        WakeReceiver();
      } else {
        LookAgain(t, if canWait then Blocking(Peek) else Idle, messages);
      }
    }

    /** xQueueGenericSend. */
    method CheckSend(t: Task, canWait: bool) returns (done: bool)
      requires CanCheck(t, Send)
      modifies this`messages, this`pc, this`waitingToReceive, this`wokenReceivers, this`wokenSenders
      ensures Valid() && done == (old(messages) < length)
      ensures messages == if done then old(messages) + 1 else old(messages)
      ensures pc == old(pc)[t := if done || !canWait then Idle else Blocking(Send)]
      ensures Now() == Looked(old(Now()), t, Send, canWait)
    {
      hide WaitersAre, LocksAre, OverwritersOk;
      done := messages < length;
      if done {
        LookAgain(t, Idle, messages + 1);
        WakeReceiver();
      } else {
        LookAgain(t, if canWait then Blocking(Send) else Idle, messages);
      }
    }

    /** xQueueGenericSend with queueOVERWRITE, which always succeeds. */
    method CheckOverwrite(t: Task)
      requires CanCheck(t, Overwrite)
      modifies this`messages, this`pc, this`waitingToReceive, this`wokenReceivers, this`wokenSenders
      ensures Valid() && length == 1 && pc == old(pc)[t := Idle]
      ensures messages == if itemSize > 0 then 1 else old(messages) + 1
      ensures Now() == Looked(old(Now()), t, Overwrite, false)
    {
      hide WaitersAre, LocksAre, OverwritersOk;
      LookAgain(t, Idle, QueueStorage.CountInFront(messages, itemSize, true));
      WakeReceiver();
    }

    /** What an interrupt does with a post: the first receiver is woken, or the lock counts
        that it is owed. */
    method Announce()
      requires WaitersAre(waitingToReceive, wokenReceivers, pc, false) && UNLOCKED <= txLock < 127
      modifies this`txLock, this`waitingToReceive, this`wokenReceivers
      ensures WaitersAre(waitingToReceive, wokenReceivers, pc, false)
      ensures txLock == if old(txLock) == UNLOCKED then UNLOCKED else Counted(old(txLock))
      ensures Now() == if old(txLock) == UNLOCKED then old(Now()).ReceiverWoken()
        else old(Now()).(txLock := Counted(old(txLock)))
      ensures waitingToReceive != [] ==>
        old(waitingToReceive) != [] && |wokenReceivers| + Owed(txLock) == |old(wokenReceivers)| + Owed(old(txLock)) + 1
    {
      hide WaitersAre;
      if txLock == UNLOCKED {
        WakeReceiver();
      } else {
        txLock := Counted(txLock);
      }
    }

    /** xQueueGenericSendFromISR and xQueueGiveFromISR, at any time. At most 127 posts fit
        into one lock window (see PostsRemembered). */
    method SendFromISR(overwrite: bool) returns (sent: bool)
      requires Valid() && txLock < 127 && (overwrite ==> length == 1)
      modifies this`messages, this`txLock, this`waitingToReceive, this`wokenReceivers
      ensures Valid() && sent == (overwrite || old(messages) < length)
      ensures messages == if sent && (old(messages) < length || itemSize == 0) then old(messages) + 1 else old(messages)
      ensures Now() == AfterInterruptSend(old(Now()), overwrite)
    {
      hide WaitersAre, LocksAre, OverwritersOk, State.ReceiverWoken;
      sent := messages < length || overwrite;
      if sent {
        var messagesNow := QueueStorage.CountInFront(messages, itemSize, overwrite);
        EventKeepsLocks(pc, suspendedBy, txLock, rxLock, messages, length, messagesNow, true);
        messages := messagesNow;
        Announce();
      }
    }

    /** xQueueReceiveFromISR. */
    method ReceiveFromISR() returns (received: bool)
      requires Valid() && rxLock < 127
      modifies this`messages, this`rxLock, this`waitingToSend, this`wokenSenders
      ensures Valid() && received == (old(messages) > 0)
      ensures messages == if received then old(messages) - 1 else old(messages)
      ensures Now() == AfterInterruptReceive(old(Now()))
    {
      hide WaitersAre, LocksAre, OverwritersOk;
      received := messages > 0;
      if received {
        EventKeepsLocks(pc, suspendedBy, txLock, rxLock, messages, length, messages - 1, false);
        messages := messages - 1;
        if rxLock == UNLOCKED {
          WakeSender();
        } else {
          rxLock := Counted(rxLock);
        }
      }
    }

    /** A task inside its lock window, or about to enter it, goes to its next section. */
    method MoveOwner(t: Task, next: Pc, txNow: Int8, rxNow: Int8)
      requires StructureOk() && t in pc && (suspendedBy == None || suspendedBy == Some(t))
      requires !pc[t].Idle? && !pc[t].Checking? && (next == Idle || next.op == pc[t].op)
      requires WillCheck(pc[t], false) ==> WillCheck(next, false)
      requires WillCheck(pc[t], true) ==> WillCheck(next, true)
      requires if Suspends(next) then LocksAt(next, txNow, rxNow, messages, length) else txNow == rxNow == UNLOCKED
      modifies this`pc, this`suspendedBy, this`txLock, this`rxLock
      ensures StructureOk() && pc == old(pc)[t := next] && txLock == txNow && rxLock == rxNow
      ensures suspendedBy == if Suspends(next) then Some(t) else None
    {
      hide WaitersAre, LocksAre, OverwritersOk, LocksAt, WillCheck;
      StepKeepsWaiters(waitingToReceive, wokenReceivers, pc, false, t, next);
      StepKeepsWaiters(waitingToSend, wokenSenders, pc, true, t, next);
      NotOverwriting(pc, length, t);
      OverwriterOk(pc, length, t, next);
      OwnerSteps(pc, suspendedBy, txLock, rxLock, messages, length, t, next, txNow, rxNow);
      pc := pc[t := next];
      suspendedBy := if Suspends(next) then Some(t) else None;
      txLock, rxLock := txNow, rxNow;
    }

    /** vTaskSuspendAll. */
    method SuspendScheduler(t: Task)
      requires Valid() && t in pc && pc[t].Blocking? && suspendedBy == None
      modifies this`pc, this`suspendedBy, this`txLock, this`rxLock
      ensures Valid() && suspendedBy == Some(t) && pc == old(pc)[t := Locking(old(pc)[t].op)]
      ensures txLock == old(txLock) && rxLock == old(rxLock)
      ensures Now() == AfterStep(old(Now()), t, false, 0)
    {
      hide WaitersAre, LocksAre, OverwritersOk;
      LocksFree(pc, suspendedBy, txLock, rxLock, messages, length, t, Idle, messages);
      MoveOwner(t, Locking(pc[t].op), txLock, rxLock);
    }

    /** prvLockQueue. */
    method LockQueue(t: Task)
      requires Valid() && t in pc && pc[t].Locking?
      modifies this`pc, this`suspendedBy, this`txLock, this`rxLock
      ensures Valid() && pc == old(pc)[t := Deciding(old(pc)[t].op)] && txLock == rxLock == LOCKED_UNMODIFIED
      ensures Now() == AfterStep(old(Now()), t, false, 0)
    {
      hide WaitersAre, LocksAre, OverwritersOk;
      OwnerIs(pc, suspendedBy, txLock, rxLock, messages, length, t);
      MoveOwner(t, Deciding(pc[t].op), if txLock == UNLOCKED then LOCKED_UNMODIFIED else txLock,
                if rxLock == UNLOCKED then LOCKED_UNMODIFIED else rxLock);
    }

    /** With the queue locked: the task gives up, tries again, or goes to sleep because the
        queue is still empty, or full. */
    method Decide(t: Task, timedOut: bool)
      requires Valid() && t in pc && pc[t].Deciding?
      modifies this`pc, this`suspendedBy, this`txLock, this`rxLock
      ensures Valid() && txLock == old(txLock) && rxLock == old(rxLock)
      ensures var op := old(pc)[t].op;
        pc == old(pc)[t := if timedOut then UnlockingTx(op, GiveUp)
                           else if messages == (if op == Send then length else 0) then Sleeping(op)
                           else UnlockingTx(op, Again)]
      ensures Now() == AfterStep(old(Now()), t, timedOut, 0)
    {
      hide WaitersAre, LocksAre, OverwritersOk;
      OwnerIs(pc, suspendedBy, txLock, rxLock, messages, length, t);
      NotOverwriting(pc, length, t);
      var op := pc[t].op;
      if timedOut {
        MoveOwner(t, UnlockingTx(op, GiveUp), txLock, rxLock);
      } else if messages == if op == Send then length else 0 {
        MoveOwner(t, Sleeping(op), txLock, rxLock);
      } else {
        MoveOwner(t, UnlockingTx(op, Again), txLock, rxLock);
      }
    }

    /** vTaskPlaceOnEventList: the task joins its waiting list at the place its priority
        gives it. */
    method JoinWaiters(t: Task, place: nat)
      requires Valid() && t in pc && pc[t].Sleeping?
      requires place <= |if pc[t].op == Send then waitingToSend else waitingToReceive|
      modifies this`pc, this`waitingToReceive, this`waitingToSend
      ensures Valid() && pc == old(pc)[t := UnlockingTx(old(pc)[t].op, Again)]
      ensures if old(pc)[t].op == Send then
          waitingToSend == InsertAt(old(waitingToSend), place, t) && waitingToReceive == old(waitingToReceive)
        else
          waitingToReceive == InsertAt(old(waitingToReceive), place, t) && waitingToSend == old(waitingToSend)
      ensures Now() == AfterStep(old(Now()), t, false, place)
    {
      hide WaitersAre, LocksAre, OverwritersOk;
      OwnerIs(pc, suspendedBy, txLock, rxLock, messages, length, t);
      NotOverwriting(pc, length, t);
      var sends, next := pc[t].op == Send, UnlockingTx(pc[t].op, Again);
      OwnerSteps(pc, suspendedBy, txLock, rxLock, messages, length, t, next, txLock, rxLock);
      OverwriterOk(pc, length, t, next);
      StepKeepsWaiters(waitingToReceive, wokenReceivers, pc, false, t, Sleeping(next.op));
      if sends {
        NotAWaiter(waitingToSend, wokenSenders, pc, true, t);
        JoinKeepsWaiters(waitingToSend, wokenSenders, pc, true, t, next, place);
        StepKeepsWaiters(waitingToReceive, wokenReceivers, pc, false, t, next);
        waitingToSend := InsertAt(waitingToSend, place, t);
      } else {
        NotAWaiter(waitingToReceive, wokenReceivers, pc, false, t);
        JoinKeepsWaiters(waitingToReceive, wokenReceivers, pc, false, t, next, place);
        StepKeepsWaiters(waitingToSend, wokenSenders, pc, true, t, next);
        waitingToReceive := InsertAt(waitingToReceive, place, t);
      }
      pc := pc[t := next];
    }

    /** The loops of prvUnlockQueue. */
    method WakeReceivers(lock: nat)
      requires WaitersAre(waitingToReceive, wokenReceivers, pc, false)
      requires waitingToReceive != [] ==> messages <= |wokenReceivers| + lock
      modifies this`waitingToReceive, this`wokenReceivers
      ensures WaitersAre(waitingToReceive, wokenReceivers, pc, false)
      ensures waitingToReceive != [] ==> messages <= |wokenReceivers|
      ensures Now() == old(Now()).ReceiversWoken(lock)
    {
      hide WaitersAre, State.ReceiversWoken, State.ReceiverWoken;
      var left := lock;
      ghost var start := Now();
      start.ReceiversInTurn(0);
      while left > 0
        invariant 0 <= left <= lock && Now() == start.ReceiversWoken(lock - left)
        invariant |waitingToReceive| + (lock - left) == |start.waitingToReceive|
        invariant WaitersAre(waitingToReceive, wokenReceivers, pc, false)
        invariant waitingToReceive != [] ==> messages <= |wokenReceivers| + left
      {
        if waitingToReceive == [] {
          start.ReceiversInTurn(lock);
          break;
        }
        start.ReceiversInTurn(lock - left);
        WakeReceiver();
        left := left - 1;
      }
    }

    method WakeSenders(lock: nat)
      requires WaitersAre(waitingToSend, wokenSenders, pc, true)
      requires waitingToSend != [] ==> length - messages <= |wokenSenders| + lock
      modifies this`waitingToSend, this`wokenSenders
      ensures WaitersAre(waitingToSend, wokenSenders, pc, true)
      ensures waitingToSend != [] ==> length - messages <= |wokenSenders|
      ensures Now() == old(Now()).SendersWoken(lock)
    {
      hide WaitersAre, State.SendersWoken, State.SenderWoken;
      var left := lock;
      ghost var start := Now();
      start.SendersInTurn(0);
      while left > 0
        invariant 0 <= left <= lock && Now() == start.SendersWoken(lock - left)
        invariant |waitingToSend| + (lock - left) == |start.waitingToSend|
        invariant WaitersAre(waitingToSend, wokenSenders, pc, true)
        invariant waitingToSend != [] ==> length - messages <= |wokenSenders| + left
      {
        if waitingToSend == [] {
          start.SendersInTurn(lock);
          break;
        }
        start.SendersInTurn(lock - left);
        WakeSender();
        left := left - 1;
      }
    }

    /** The first half of prvUnlockQueue: one receiver is woken for every message that was
        posted while the queue was locked, as far as there are receivers. */
    method UnlockTx(t: Task)
      requires Valid() && t in pc && pc[t].UnlockingTx?
      modifies this`pc, this`suspendedBy, this`txLock, this`rxLock, this`waitingToReceive, this`wokenReceivers
      ensures Valid() && txLock == UNLOCKED && rxLock == old(rxLock)
      ensures pc == old(pc)[t := UnlockingRx(old(pc)[t].op, old(pc)[t].next)]
      ensures waitingToReceive == old(waitingToReceive)[AtMost(Owed(old(txLock)), |old(waitingToReceive)|)..]
      ensures Now() == AfterStep(old(Now()), t, false, 0)
    {
      hide WaitersAre, LocksAre, OverwritersOk;
      OwnerIs(pc, suspendedBy, txLock, rxLock, messages, length, t);
      WakeReceivers(txLock);
      MoveOwner(t, UnlockingRx(pc[t].op, pc[t].next), UNLOCKED, rxLock);
    }

    method UnlockRx(t: Task)
      requires Valid() && t in pc && pc[t].UnlockingRx?
      modifies this`pc, this`suspendedBy, this`txLock, this`rxLock, this`waitingToSend, this`wokenSenders
      ensures Valid() && txLock == rxLock == UNLOCKED
      ensures pc == old(pc)[t := Resuming(old(pc)[t].op, old(pc)[t].next)]
      ensures waitingToSend == old(waitingToSend)[AtMost(Owed(old(rxLock)), |old(waitingToSend)|)..]
      ensures Now() == AfterStep(old(Now()), t, false, 0)
    {
      hide WaitersAre, LocksAre, OverwritersOk;
      OwnerIs(pc, suspendedBy, txLock, rxLock, messages, length, t);
      WakeSenders(rxLock);
      MoveOwner(t, Resuming(pc[t].op, pc[t].next), UNLOCKED, UNLOCKED);
    }

    /** xTaskResumeAll, after which the task looks again, or leaves. */
    method ResumeScheduler(t: Task)
      requires Valid() && t in pc && pc[t].Resuming?
      modifies this`pc, this`suspendedBy, this`txLock, this`rxLock
      ensures Valid() && suspendedBy == None && txLock == old(txLock) && rxLock == old(rxLock)
      ensures var was := old(pc)[t];
        pc == old(pc)[t := if was.next == Again then Checking(was.op) else if was.op == Send then Idle
                      else Expired(was.op)]
      ensures Now() == AfterStep(old(Now()), t, false, 0)
    {
      hide WaitersAre, LocksAre, OverwritersOk;
      OwnerIs(pc, suspendedBy, txLock, rxLock, messages, length, t);
      NotOverwriting(pc, length, t);
      var op := pc[t].op;
      MoveOwner(t, if pc[t].next == Again then Checking(op) else if op == Send then Idle else Expired(op), txLock,
                rxLock);
    }

    /** A receiver whose time is up tries once more if a message came. */
    method LookExpired(t: Task)
      requires Valid() && t in pc && pc[t].Expired? && suspendedBy == None
      modifies this`pc, this`suspendedBy, this`txLock, this`rxLock
      ensures Valid() && suspendedBy == None
      ensures pc == old(pc)[t := if messages == 0 then Idle else Checking(old(pc)[t].op)]
      ensures Now() == AfterStep(old(Now()), t, false, 0)
    {
      hide WaitersAre, LocksAre, OverwritersOk;
      LocksFree(pc, suspendedBy, txLock, rxLock, messages, length, t, Idle, messages);
      NotOverwriting(pc, length, t);
      MoveOwner(t, if messages == 0 then Idle else Checking(pc[t].op), txLock, rxLock);
    }

    /** The tick that ends a task's wait takes it off its list. */
    method EndWait(t: Task)
      requires Valid() && suspendedBy == None && (t in waitingToReceive || t in waitingToSend)
      modifies this`waitingToReceive, this`waitingToSend
      ensures Valid()
      ensures waitingToReceive == if t in old(waitingToReceive) then Without(old(waitingToReceive), t)
        else old(waitingToReceive)
      ensures waitingToSend == if t in old(waitingToReceive) then old(waitingToSend) else Without(old(waitingToSend), t)
      ensures Now() == AfterWait(old(Now()), t)
    {
      hide WaitersAre, LocksAre, OverwritersOk;
      if t in waitingToReceive {
        LeaveKeepsWaiters(waitingToReceive, wokenReceivers, pc, false, t);
        waitingToReceive := Without(waitingToReceive, t);
      } else {
        LeaveKeepsWaiters(waitingToSend, wokenSenders, pc, true, t);
        waitingToSend := Without(waitingToSend, t);
      }
    }

    /** While a receiver waits for a message that is there, another one that was woken for
        it can look at the queue at once, unless a task is just unlocking the queue. */
    lemma ReceiverWillLook()
      requires Valid() && waitingToReceive != [] && messages > 0 && suspendedBy == None
      ensures exists t :: t in wokenReceivers && t in pc && CanCheck(t, pc[t].op) && pc[t].op != Send
    {
      assert wokenReceivers != {};
      var t :| t in wokenReceivers;
      assert CanCheck(t, pc[t].op);
    }

    lemma SenderWillLook()
      requires Valid() && waitingToSend != [] && messages < length && suspendedBy == None
      ensures exists t :: t in wokenSenders && CanCheck(t, Send)
    {
      assert wokenSenders != {};
      var t :| t in wokenSenders;
      assert CanCheck(t, Send);
    }

    /** When every task that was woken has looked, nobody sleeps on a usable queue. */
    lemma NobodySleepsInVain()
      requires Valid() && suspendedBy == None && wokenReceivers == {} && wokenSenders == {}
      ensures waitingToReceive != [] ==> messages == 0
      ensures waitingToSend != [] ==> messages >= length && (itemSize > 0 ==> messages == length)
    {
      if waitingToReceive != [] && messages > 0 {
        ReceiverWillLook();
      }
    }

    /** The section a task runs next. `choice` stands for what the queue does not decide:
        whether the task may wait, or that its time is up. */
    method Step(t: Task, choice: bool, place: nat)
      requires Valid() && t in pc && (suspendedBy == None || suspendedBy == Some(t))
      requires t in waitingToReceive || t in waitingToSend ==> Suspends(pc[t])
      modifies this
      ensures Valid() && Now() == AfterStep(old(Now()), t, choice, place)
    {
      hide WaitersAre, LocksAre, OverwritersOk, NoneLost;
      match pc[t]
      case Idle =>
      case Checking(op) =>
        OwnerOnly(t);
        match op {
          case Receive => var done := CheckReceive(t, choice);
          case Peek => var done := CheckPeek(t, choice);
          case Send => var done := CheckSend(t, choice);
          case Overwrite => CheckOverwrite(t);
        }
      case Blocking(_) => OwnerOnly(t); SuspendScheduler(t);
      case Locking(_) => LockQueue(t);
      case Deciding(_) => Decide(t, choice);
      case Sleeping(op) => JoinWaiters(t, AtMost(place, |if op == Send then waitingToSend else waitingToReceive|));
      case UnlockingTx(_, _) => UnlockTx(t);
      case UnlockingRx(_, _) => UnlockRx(t);
      case Resuming(_, _) => ResumeScheduler(t);
      case Expired(_) => OwnerOnly(t); LookExpired(t);
    }

    lemma OwnerOnly(t: Task)
      requires Valid() && t in pc && !Suspends(pc[t])
      ensures suspendedBy != Some(t)
    {
    }

    /** One event. */
    method Happen(e: Event)
      requires Valid()
      modifies this
      ensures Valid() && Now() == After(old(Now()), e)
    {
      hide WaitersAre, LocksAre, OverwritersOk, NoneLost, AfterStep;
      match e
      case Starts(t, op) =>
        if (t !in pc || pc[t] == Idle) && (op == Overwrite ==> length == 1) {
          Call(t, op);
        }
      case Steps(t, choice, place) =>
        if t in pc && (suspendedBy == None || suspendedBy == Some(t))
          && (t in waitingToReceive || t in waitingToSend ==> Suspends(pc[t])) {
          Step(t, choice, place);
        }
      case InterruptSends(overwrite) =>
        if txLock < 127 && (overwrite ==> length == 1) {
          var sent := SendFromISR(overwrite);
        }
      case InterruptReceives =>
        if rxLock < 127 {
          var received := ReceiveFromISR();
        }
      case WaitEnds(t) =>
        if suspendedBy == None && (t in waitingToReceive || t in waitingToSend) {
          EndWait(t);
        }
    }

    /** Whatever tasks and interrupts do, in whatever order, no wakeup is lost. An event that
        cannot happen in the state it meets is left out. */
    method Run(events: seq<Event>)
      requires Valid()
      modifies this
      ensures Valid() && Now() == AfterAll(old(Now()), events)
      ensures suspendedBy == None && wokenReceivers == {} && wokenSenders == {} ==>
        (waitingToReceive != [] ==> messages == 0)
          && (waitingToSend != [] ==> messages >= length && (itemSize > 0 ==> messages == length))
    {
      for i := 0 to |events|
        invariant Valid() && Now() == AfterAll(old(Now()), events[..i])
      {
        hide Valid, After;
        assert events[..i + 1][..i] == events[..i];
        Happen(events[i]);
      }
      assert events[..|events|] == events;
      NobodySleepsIfQuiet();
    }

    lemma NobodySleepsIfQuiet()
      requires Valid()
      ensures suspendedBy == None && wokenReceivers == {} && wokenSenders == {} ==>
        (waitingToReceive != [] ==> messages == 0)
          && (waitingToSend != [] ==> messages >= length && (itemSize > 0 ==> messages == length))
    {
      if suspendedBy == None && wokenReceivers == {} && wokenSenders == {} {
        NobodySleepsInVain();
      }
    }
  }
}
