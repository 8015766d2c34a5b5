/** The bounded queue of emitter.rs, and its ledger of what was shed, under any number of
    senders. Every method of `Emitter` is one atomic step of a sender, or of the thread that
    empties the queue. */
module Emitter {
  import opened Options

  const EMIT_QUEUE_DEPTH: nat := 32

  datatype Event =
    | Samples(points: nat, hostDroppedPoints: nat)
    | Line
    | Notice(lines: nat)        // "n log lines dropped"
    | Other

  datatype Pc =
    | Idle
    | Offering(points: nat)                  // send_samples has counted the points
    | Carrying(points: nat, shed: nat)       // has taken the tally along
    | Shedding(points: nat, shed: nat)       // the queue was full
    | Logging                                // send_log with one line
    | Noticing(lines: nat)                   // has taken the tally of lines along
    | Restoring(lines: nat)                  // the notice found no room
    | Writing                                // the line itself is next
    | Dropping                               // the line found no room
    | Retrying                               // send_reliable

  /** The points a sender holds between two atomic steps. */
  function HeldPoints(pc: Pc): (n: nat) {
    match pc
    case Offering(points) => points
    case Carrying(points, shed) => points + shed
    case Shedding(points, shed) => points + shed
    case _ => 0
  }

  /** Where a sender is that has just been called. */
  predicate Offerable(pc: Pc) {
    pc.Offering? || pc.Logging? || pc.Retrying?
  }

  function HeldLines(pc: Pc): (n: nat) {
    match pc
    case Logging => 1
    case Noticing(lines) => lines + 1
    case Restoring(lines) => lines + 1
    case Writing => 1
    case Dropping => 1
    case _ => 0
  }

  function Points(e: Event): (n: nat) {
    if e.Samples? then e.points + e.hostDroppedPoints else 0
  }

  function Lines(e: Event): (n: nat) {
    match e
    case Line => 1
    case Notice(lines) => lines
    case _ => 0
  }

  function Total<T>(amount: T -> nat, s: seq<T>): (n: nat) {
    if s == [] then 0 else Total(amount, s[..|s| - 1]) + amount(s[|s| - 1])
  }

  lemma TotalAppend<T>(amount: T -> nat, s: seq<T>, x: T)
    ensures Total(amount, s + [x]) == Total(amount, s) + amount(x)
  {
    assert (s + [x])[..|s|] == s;
  }

  lemma {:induction false} TotalUpdate<T>(amount: T -> nat, s: seq<T>, i: nat, x: T)
    requires i < |s|
    ensures Total(amount, s[i := x]) == Total(amount, s) - amount(s[i]) + amount(x)
  {
    var now := s[i := x];
    if i < |s| - 1 {
      assert now[..|s| - 1] == s[..|s| - 1][i := x];
      TotalUpdate(amount, s[..|s| - 1], i, x);
    } else {
      assert now[..|s| - 1] == s[..|s| - 1];
    }
  }

  /** What senders, the emitter thread and the receiver have in common at one moment. */
  datatype State = State(queue: seq<Event>, connected: bool, shedPoints: nat, droppedLogs: nat, senders: seq<Pc>,
                         sent: seq<Event>)
  {
    predicate Room() {
      connected && |queue| < EMIT_QUEUE_DEPTH
    }
  }

  /** The event that a sender at this place tries to queue next. */
  function Attempt(pc: Pc): (event: Option<Event>) {
    match pc
    case Carrying(points, shed) => Some(Samples(points, shed))
    case Noticing(lines) => Some(Notice(lines))
    case Writing => Some(Line)
    case Retrying => Some(Other)
    case _ => None
  }

  /** The place a step leads to. */
  function NextPlace(s: State, pc: Pc, late: bool): (next: Pc) {
    match pc
    case Offering(points) => Carrying(points, s.shedPoints)
    case Carrying(points, shed) => if s.Room() then Idle else Shedding(points, shed)
    case Logging => if s.droppedLogs > 0 then Noticing(s.droppedLogs) else Writing
    case Noticing(lines) => if s.Room() then Writing else Restoring(lines)
    case Restoring(_) => Writing
    case Writing => if s.Room() then Idle else Dropping
    case Retrying => if !s.connected || s.Room() || late then Idle else Retrying
    case _ => Idle
  }

  /** The state after one step of sender `i`. */
  function AfterStep(s: State, i: nat, late: bool): (r: State)
    requires i < |s.senders|
  {
    var pc := s.senders[i];
    var added := if Attempt(pc).Some? && s.Room() then [Attempt(pc).value] else [];
    State(s.queue + added, s.connected,
          match pc { case Offering(_) => 0 case Shedding(points, shed) => s.shedPoints + points + shed
                     case _ => s.shedPoints },
          match pc { case Logging => 0 case Restoring(lines) => s.droppedLogs + lines case Dropping => s.droppedLogs + 1
                     case _ => s.droppedLogs },
          s.senders[i := NextPlace(s, pc, late)], s.sent + added)
  }

  /** An offer is accepted when its sender is there and idle. */
  predicate Accepts(s: State, turn: Turn) {
    turn.Offers? && turn.i < |s.senders| && s.senders[turn.i] == Idle && Offerable(turn.pc)
  }

  function After(s: State, turn: Turn): (r: State)
    ensures |r.senders| == |s.senders|
  {
    match turn
    case Offers(i, pc) => if Accepts(s, turn) then s.(senders := s.senders[i := pc]) else s
    case Steps(i, late) => if i < |s.senders| then AfterStep(s, i, late) else s
    case Emits => if s.queue != [] then s.(queue := s.queue[1..]) else s
    case Disconnects => s.(connected := false)
  }

  /** The state that a schedule leads to. */
  function AfterAll(s: State, schedule: seq<Turn>): (r: State)
    ensures |r.senders| == |s.senders|
  {
    if schedule == [] then s else After(AfterAll(s, schedule[..|schedule| - 1]), schedule[|schedule| - 1])
  }

  /** In this turn a sender finds the queue full or the receiver gone. */
  predicate Refused(s: State, turn: Turn) {
    turn.Steps? && turn.i < |s.senders| && Attempt(s.senders[turn.i]).Some? && !s.Room()
  }

  predicate NeverRefused(s: State, schedule: seq<Turn>) {
    forall k :: 0 <= k < |schedule| ==> !Refused(AfterAll(s, schedule[..k]), schedule[k])
  }

  /** Nothing is shed: no tally, and no sender on its way to one. */
  predicate NothingShed(s: State) {
    && s.shedPoints == s.droppedLogs == 0
    && forall i :: 0 <= i < |s.senders| ==>
         !s.senders[i].Shedding? && !s.senders[i].Restoring? && !s.senders[i].Dropping?
  }

  /** How many events `e` a sender has still to queue. */
  function Owes(pc: Pc, e: Event): (n: nat) {
    match pc
    case Offering(points) => if e == Samples(points, 0) then 1 else 0
    case Carrying(points, shed) => if e == Samples(points, shed) then 1 else 0
    case Noticing(lines) => if e == Notice(lines) || e == Line then 1 else 0
    case Logging => if e == Line then 1 else 0
    case Writing => if e == Line then 1 else 0
    case Retrying => if e == Other then 1 else 0
    case _ => 0
  }

  function Owing(e: Event): (amount: Pc -> nat) {
    pc => Owes(pc, e)
  }

  function Count(s: seq<Event>, e: Event): (n: nat) {
    multiset(s)[e]
  }

  lemma CountAppend(s: seq<Event>, x: Event, e: Event)
    ensures Count(s + [x], e) == Count(s, e) + (if x == e then 1 else 0)
  {
  }

  /** The acceptances of a schedule. */
  predicate AcceptsAll(s: State, schedule: seq<Turn>, accepted: seq<bool>) {
    && |accepted| == |schedule|
    && forall k :: 0 <= k < |schedule| ==> accepted[k] == Accepts(AfterAll(s, schedule[..k]), schedule[k])
  }

  lemma NoTurns(s: State)
    ensures AfterAll(s, []) == s && AcceptsAll(s, [], [])
  {
  }

  lemma OneMore(s: State, schedule: seq<Turn>, accepted: seq<bool>, turn: Turn)
    requires AcceptsAll(s, schedule, accepted)
    ensures AfterAll(s, schedule + [turn]) == After(AfterAll(s, schedule), turn)
    ensures AcceptsAll(s, schedule + [turn], accepted + [Accepts(AfterAll(s, schedule), turn)])
  {
    hide After, Accepts;
    var n, longer := |schedule|, schedule + [turn];
    assert longer[..n] == schedule;
    forall k | 0 <= k < n
      ensures longer[..k] == schedule[..k]
    {
    }
  }

  lemma StepOwes(s: State, pc: Pc, late: bool, e: Event)
    requires s.shedPoints == s.droppedLogs == 0 && !pc.Shedding? && !pc.Restoring? && !pc.Dropping?
    requires Attempt(pc).Some? ==> s.Room()
    ensures Owes(NextPlace(s, pc, late), e) + (if Attempt(pc) == Some(e) then 1 else 0) == Owes(pc, e)
  {
  }

  /** A step that finds room sheds nothing, and what it queues is what its sender owes less. */
  lemma StepLosesNothing(s: State, i: nat, late: bool, e: Event)
    requires i < |s.senders| && NothingShed(s) && !Refused(s, Steps(i, late))
    ensures var r := AfterStep(s, i, late);
      && NothingShed(r)
      && Count(r.sent, e) + Total(Owing(e), r.senders) == Count(s.sent, e) + Total(Owing(e), s.senders)
  {
    hide Count, Owes;
    var pc := s.senders[i];
    TotalUpdate(Owing(e), s.senders, i, NextPlace(s, pc, late));
    StepOwes(s, pc, late, e);
    if Attempt(pc).Some? {
      CountAppend(s.sent, Attempt(pc).value, e);
    } else {
      assert s.sent + [] == s.sent;
    }
  }

  lemma IdleOwesNothing(e: Event)
    ensures Owes(Idle, e) == 0
  {
  }

  lemma TurnLosesNothing(s: State, turn: Turn, e: Event)
    requires NothingShed(s) && !Refused(s, turn)
    ensures var r := After(s, turn);
      && NothingShed(r)
      && Count(r.sent, e) + Total(Owing(e), r.senders)
        == Count(s.sent, e) + Total(Owing(e), s.senders) + (if Accepts(s, turn) then Owing(e)(turn.pc) else 0)
  {
    hide AfterStep, Owes, Attempt, Count;
    if turn.Steps? && turn.i < |s.senders| {
      StepLosesNothing(s, turn.i, turn.late, e);
    } else if Accepts(s, turn) {
      TotalUpdate(Owing(e), s.senders, turn.i, turn.pc);
      IdleOwesNothing(e);
    }
  }

  /** As long as no sender finds the queue full or the receiver gone, nothing is shed, and
      all that was offered is queued or still owed. */
  lemma {:induction false} NothingIsLost(s: State, schedule: seq<Turn>, accepted: seq<bool>, e: Event)
    requires NothingShed(s) && NeverRefused(s, schedule) && AcceptsAll(s, schedule, accepted)
    ensures var r := AfterAll(s, schedule);
      && NothingShed(r)
      && Count(r.sent, e) + Total(Owing(e), r.senders)
        == Count(s.sent, e) + Total(Owing(e), s.senders) + Accepted(Owing(e), schedule, accepted)
  {
    hide After, Owing, Attempt, Count, NothingShed, Total, Refused;
    if schedule != [] {
      var n := |schedule| - 1;
      forall k | 0 <= k < n
        ensures schedule[..n][..k] == schedule[..k]
      {
      }
      NothingIsLost(s, schedule[..n], accepted[..n], e);
      TurnLosesNothing(AfterAll(s, schedule[..n]), schedule[n], e);
    }
  }

  lemma OneTurnFindsRoom(s: State, turn: Turn)
    requires s.Room() && turn != Disconnects
    ensures !Refused(s, turn) && After(s, turn).connected && |After(s, turn).queue| <= |s.queue| + 1
  {
  }

  /** As many turns as there are free places never fill the queue. */
  lemma {:induction false} ShortRunsFindRoom(s: State, schedule: seq<Turn>)
    requires s.connected && |s.queue| + |schedule| <= EMIT_QUEUE_DEPTH && Disconnects !in schedule
    ensures NeverRefused(s, schedule)
    ensures AfterAll(s, schedule).connected && |AfterAll(s, schedule).queue| <= |s.queue| + |schedule|
  {
    hide After, Refused;
    if schedule != [] {
      var n := |schedule| - 1;
      ShortRunsFindRoom(s, schedule[..n]);
      OneTurnFindsRoom(AfterAll(s, schedule[..n]), schedule[n]);
      forall k | 0 <= k < n
        ensures !Refused(AfterAll(s, schedule[..k]), schedule[k])
      {
        assert schedule[..n][..k] == schedule[..k] && schedule[..n][k] == schedule[k];
      }
    }
  }

  lemma {:induction false} NobodyOwes(senders: seq<Pc>, e: Event)
    requires forall i :: 0 <= i < |senders| ==> senders[i] == Idle
    ensures Total(Owing(e), senders) == 0
  {
    if senders != [] {
      NobodyOwes(senders[..|senders| - 1], e);
    }
  }

  /** How many steps a sender still makes at most. */
  function StepsLeft(pc: Pc): (n: nat) {
    match pc
    case Idle => 0
    case Offering(_) => 3
    case Carrying(_, _) => 2
    case Shedding(_, _) => 1
    case Logging => 5
    case Noticing(_) => 4
    case Restoring(_) => 3
    case Writing => 2
    case Dropping => 1
    case Retrying => 1
  }

  /** However full the queue is, a sender comes to its end: only a reliable event waits, and
      only for room, for the receiver to go, or for its time to be up. */
  lemma NobodyBlocks(s: State, i: nat, late: bool)
    requires i < |s.senders| && s.senders[i] != Idle
    requires s.senders[i] == Retrying ==> late || !s.connected || |s.queue| < EMIT_QUEUE_DEPTH
    ensures StepsLeft(AfterStep(s, i, late).senders[i]) < StepsLeft(s.senders[i])
  {
  }

  class Emitter {
    var queue: seq<Event>
    var connected: bool
    var shedPoints: nat
    var droppedLogs: nat
    var senders: seq<Pc>
    ghost var offeredPoints: nat
    ghost var offeredLines: nat
    ghost var sent: seq<Event>          // all that ever found room
    ghost var delivered: nat

    /** Every point and every line that was offered is in what found room, in the tally, or
        in the hands of a sender. */
    ghost predicate Valid()
      reads this
    {
      && |queue| <= EMIT_QUEUE_DEPTH && delivered <= |sent| && queue == sent[delivered..]
      && offeredPoints == Total(Points, sent) + shedPoints + Total(HeldPoints, senders)
      && offeredLines == Total(Lines, sent) + droppedLogs + Total(HeldLines, senders)
    }

    ghost function Now(): (s: State)
      reads this
    {
      State(queue, connected, shedPoints, droppedLogs, senders, sent)
    }

    constructor (senders: nat)
      ensures Valid() && Now() == State([], true, 0, 0, seq(senders, _ => Idle), [])
      ensures NothingShed(Now()) && offeredPoints == offeredLines == 0
    {
      queue, connected, shedPoints, droppedLogs := [], true, 0, 0;
      this.senders := seq(senders, _ => Idle);
      offeredPoints, offeredLines, sent, delivered := 0, 0, [], 0;
      new;
      IdleHold(senders);
    }

    /** try_send: the event is queued, or stays with the caller. */
    method TrySend(event: Event) returns (ok: bool)
      requires |queue| <= EMIT_QUEUE_DEPTH && delivered <= |sent| && queue == sent[delivered..]
      modifies this`queue, this`sent
      ensures |queue| <= EMIT_QUEUE_DEPTH && delivered <= |sent| && queue == sent[delivered..]
      ensures ok == (connected && |old(queue)| < EMIT_QUEUE_DEPTH)
      ensures sent == if ok then old(sent) + [event] else old(sent)
      ensures queue == if ok then old(queue) + [event] else old(queue)
      ensures Total(Points, sent) == Total(Points, old(sent)) + (if ok then Points(event) else 0)
      ensures Total(Lines, sent) == Total(Lines, old(sent)) + (if ok then Lines(event) else 0)
    {
      ok := connected && |queue| < EMIT_QUEUE_DEPTH;
      if ok {
        TotalAppend(Points, sent, event);
        TotalAppend(Lines, sent, event);
        queue := queue + [event];
        sent := sent + [event];
      }
    }

    method Move(i: nat, pc: Pc)
      requires i < |senders|
      modifies this`senders
      ensures senders == old(senders)[i := pc]
      ensures Total(HeldPoints, senders)
        == Total(HeldPoints, old(senders)) - HeldPoints(old(senders)[i]) + HeldPoints(pc)
      ensures Total(HeldLines, senders) == Total(HeldLines, old(senders)) - HeldLines(old(senders)[i]) + HeldLines(pc)
    {
      TotalUpdate(HeldPoints, senders, i, pc);
      TotalUpdate(HeldLines, senders, i, pc);
      senders := senders[i := pc];
    }

    /** A sender begins to send an event. */
    method Offer(i: nat, pc: Pc)
      requires Valid() && i < |senders| && senders[i] == Idle && Offerable(pc)
      modifies this`senders, this`offeredPoints, this`offeredLines
      ensures Valid() && senders == old(senders)[i := pc]
      ensures offeredPoints == old(offeredPoints) + HeldPoints(pc) && offeredLines == old(offeredLines) + HeldLines(pc)
    {
      Move(i, pc);
      offeredPoints := offeredPoints + HeldPoints(pc);
      offeredLines := offeredLines + HeldLines(pc);
    }

    /** send_samples takes the tally of shed points along: one atomic swap. */
    method TakeShedPoints(i: nat)
      requires Valid() && i < |senders| && senders[i].Offering?
      modifies this`senders, this`shedPoints
      ensures Valid() && shedPoints == 0
      ensures senders == old(senders)[i := Carrying(old(senders)[i].points, old(shedPoints))]
    {
      Move(i, Carrying(senders[i].points, shedPoints));
      shedPoints := 0;
    }

    /** send_samples tries to queue the batch. */
    method SendBatch(i: nat)
      requires Valid() && i < |senders| && senders[i].Carrying?
      modifies this`senders, this`queue, this`sent
      ensures Valid()
      ensures var was := old(senders)[i];
        if connected && |old(queue)| < EMIT_QUEUE_DEPTH then
          senders == old(senders)[i := Idle] && sent == old(sent) + [Samples(was.points, was.shed)]
          && queue == old(queue) + [Samples(was.points, was.shed)]
        else
          senders == old(senders)[i := Shedding(was.points, was.shed)] && sent == old(sent) && queue == old(queue)
    {
      var pc := senders[i];
      var ok := TrySend(Samples(pc.points, pc.shed));
      Move(i, if ok then Idle else Shedding(pc.points, pc.shed));
    }

    /** A batch that found no room is charged to the next one: fetch_add. */
    method ShedBatch(i: nat)
      requires Valid() && i < |senders| && senders[i].Shedding?
      modifies this`senders, this`shedPoints
      ensures Valid() && senders == old(senders)[i := Idle]
      ensures shedPoints == old(shedPoints) + old(senders)[i].points + old(senders)[i].shed
    {
      var pc := senders[i];
      Move(i, Idle);
      shedPoints := shedPoints + (pc.points + pc.shed);
    }

    /** send_log takes the tally of dropped lines along. */
    method TakeDroppedLogs(i: nat)
      requires Valid() && i < |senders| && senders[i].Logging?
      modifies this`senders, this`droppedLogs
      ensures Valid() && droppedLogs == 0
      ensures senders == old(senders)[i := if old(droppedLogs) > 0 then Noticing(old(droppedLogs)) else Writing]
    {
      Move(i, if droppedLogs > 0 then Noticing(droppedLogs) else Writing);
      droppedLogs := 0;
    }

    method SendNotice(i: nat)
      requires Valid() && i < |senders| && senders[i].Noticing?
      modifies this`senders, this`queue, this`sent
      ensures Valid()
      ensures var lines := old(senders)[i].lines;
        if connected && |old(queue)| < EMIT_QUEUE_DEPTH then
          senders == old(senders)[i := Writing] && sent == old(sent) + [Notice(lines)]
          && queue == old(queue) + [Notice(lines)]
        else
          senders == old(senders)[i := Restoring(lines)] && sent == old(sent) && queue == old(queue)
    {
      var lines := senders[i].lines;
      var ok := TrySend(Notice(lines));
      Move(i, if ok then Writing else Restoring(lines));
    }

    method RestoreDroppedLogs(i: nat)
      requires Valid() && i < |senders| && senders[i].Restoring?
      modifies this`senders, this`droppedLogs
      ensures Valid() && senders == old(senders)[i := Writing]
      ensures droppedLogs == old(droppedLogs) + old(senders)[i].lines
    {
      var lines := senders[i].lines;
      Move(i, Writing);
      droppedLogs := droppedLogs + lines;
    }

    method SendLine(i: nat)
      requires Valid() && i < |senders| && senders[i].Writing?
      modifies this`senders, this`queue, this`sent
      ensures Valid()
      ensures if connected && |old(queue)| < EMIT_QUEUE_DEPTH then
          senders == old(senders)[i := Idle] && sent == old(sent) + [Line]
          && queue == old(queue) + [Line]
        else
          senders == old(senders)[i := Dropping] && sent == old(sent) && queue == old(queue)
    {
      var ok := TrySend(Line);
      Move(i, if ok then Idle else Dropping);
    }

    method DropLine(i: nat)
      requires Valid() && i < |senders| && senders[i].Dropping?
      modifies this`senders, this`droppedLogs
      ensures Valid() && senders == old(senders)[i := Idle] && droppedLogs == old(droppedLogs) + 1
    {
      Move(i, Idle);
      droppedLogs := droppedLogs + 1;
    }

    /** One turn of the loop of send_reliable; telemetry is sent the same way, but once. */
    method Retry(i: nat, late: bool)
      requires Valid() && i < |senders| && senders[i].Retrying?
      modifies this`senders, this`queue, this`sent
      ensures Valid() && if connected && |old(queue)| < EMIT_QUEUE_DEPTH then
          sent == old(sent) + [Other] && queue == old(queue) + [Other]
        else
          sent == old(sent) && queue == old(queue)
      ensures senders
        == old(senders)[i := if !connected || |old(queue)| < EMIT_QUEUE_DEPTH || late then Idle else Retrying]
    {
      var ok := TrySend(Other);
      Move(i, if ok || !connected || late then Idle else Retrying);
    }

    /** The emitter thread takes the oldest event. */
    method Emit() returns (event: Event)
      requires Valid() && queue != []
      modifies this`queue, this`delivered
      ensures Valid() && delivered == old(delivered) + 1 && delivered <= |sent| && event == sent[old(delivered)]
      ensures queue == old(queue)[1..] && event == old(queue)[0]
    {
      event := queue[0];
      queue := queue[1..];
      delivered := delivered + 1;
    }

    /** The next step of send_samples. */
    method SendSamples(i: nat, late: bool)
      requires Valid() && i < |senders| && (senders[i].Offering? || senders[i].Carrying? || senders[i].Shedding?)
      modifies this`senders, this`queue, this`sent, this`shedPoints
      ensures Valid() && Now() == AfterStep(old(Now()), i, late)
    {
      hide Valid;
      match senders[i]
      case Offering(_) => TakeShedPoints(i);
      case Carrying(_, _) => SendBatch(i);
      case Shedding(_, _) => ShedBatch(i);
    }

    /** The next step of send_log. */
    method SendLog(i: nat, late: bool)
      requires Valid() && i < |senders|
      requires senders[i].Logging? || senders[i].Noticing? || senders[i].Restoring?
        || senders[i].Writing? || senders[i].Dropping?
      modifies this`senders, this`queue, this`sent, this`droppedLogs
      ensures Valid() && Now() == AfterStep(old(Now()), i, late)
    {
      hide Valid;
      match senders[i]
      case Logging => TakeDroppedLogs(i);
      case Noticing(_) => SendNotice(i);
      case Restoring(_) => RestoreDroppedLogs(i);
      case Writing => SendLine(i);
      case Dropping => DropLine(i);
    }

    /** The next step of a sender: what it queues, where it goes on, and what the tallies are. */
    method Step(i: nat, late: bool)
      requires Valid() && i < |senders|
      modifies this`senders, this`queue, this`sent, this`shedPoints, this`droppedLogs
      ensures Valid() && |senders| == |old(senders)| && old(sent) <= sent
      ensures Now() == AfterStep(old(Now()), i, late)
    {
      hide Valid;
      match senders[i]
      case Idle =>
      case Retrying => Retry(i, late);
      case Offering(_) => SendSamples(i, late);
      case Carrying(_, _) => SendSamples(i, late);
      case Shedding(_, _) => SendSamples(i, late);
      case _ => SendLog(i, late);
    }

    /** One turn of a schedule. An offer is accepted when its sender is there and idle. */
    method TakeTurn(turn: Turn) returns (accepted: bool)
      requires Valid()
      modifies this
      ensures Valid() && |senders| == |old(senders)| && old(sent) <= sent
      ensures Now() == After(old(Now()), turn)
      ensures accepted == Accepts(old(Now()), turn)
      ensures offeredPoints == old(offeredPoints) + (if accepted then HeldPoints(turn.pc) else 0)
      ensures offeredLines == old(offeredLines) + (if accepted then HeldLines(turn.pc) else 0)
    {
      hide AfterStep;
      accepted := false;
      match turn
      case Offers(i, pc) =>
        accepted := i < |senders| && senders[i] == Idle && Offerable(pc);
        if accepted {
          Offer(i, pc);
        }
      case Steps(i, late) =>
        if i < |senders| {
          Step(i, late);
        }
      case Emits =>
        if queue != [] {
          var event := Emit();
        }
      case Disconnects =>
        connected := false;
    }

    /** However the steps of the senders and the emptying of the queue alternate, the points
        and lines offered are those of the offers accepted; and once no sender is in the
        middle of one, all of them are in what found room or in the tallies. If nothing was
        shed before and no sender found the queue full or the receiver gone, nothing is shed,
        and what was queued is exactly what the accepted offers brought. */
    method Run(schedule: seq<Turn>) returns (accepted: seq<bool>)
      requires Valid()
      modifies this
      ensures Valid() && |accepted| == |schedule| && old(sent) <= sent
      ensures offeredPoints == old(offeredPoints) + Accepted(HeldPoints, schedule, accepted)
      ensures offeredLines == old(offeredLines) + Accepted(HeldLines, schedule, accepted)
      ensures (forall i :: 0 <= i < |senders| ==> senders[i] == Idle) ==>
        offeredPoints == Total(Points, sent) + shedPoints && offeredLines == Total(Lines, sent) + droppedLogs
      ensures Now() == AfterAll(old(Now()), schedule)
      ensures AcceptsAll(old(Now()), schedule, accepted)
      ensures NothingShed(old(Now())) && NeverRefused(old(Now()), schedule) ==>
        && NothingShed(Now())
        && forall e :: Count(sent, e) + Total(Owing(e), senders)
                    == Count(old(sent), e) + Total(Owing(e), old(senders)) + Accepted(Owing(e), schedule, accepted)
      ensures (forall i :: 0 <= i < |senders| ==> senders[i] == Idle) ==> forall e :: Total(Owing(e), senders) == 0
    {
      hide After, AfterAll, AcceptsAll, NeverRefused, NothingShed;
      accepted := [];
      NoTurns(Now());
      for k := 0 to |schedule|
        invariant Valid() && |accepted| == k && old(sent) <= sent && Now() == AfterAll(old(Now()), schedule[..k])
        invariant AcceptsAll(old(Now()), schedule[..k], accepted)
        invariant offeredPoints == old(offeredPoints) + Accepted(HeldPoints, schedule[..k], accepted)
        invariant offeredLines == old(offeredLines) + Accepted(HeldLines, schedule[..k], accepted)
      {
        var ok := TakeTurn(schedule[k]);
        OneMore(old(Now()), schedule[..k], accepted, schedule[k]);
        AcceptedGrows(HeldPoints, schedule[..k], accepted, schedule[k], ok);
        AcceptedGrows(HeldLines, schedule[..k], accepted, schedule[k], ok);
        assert schedule[..k + 1] == schedule[..k] + [schedule[k]];
        accepted := accepted + [ok];
      }
      assert schedule[..|schedule|] == schedule;
      if forall i :: 0 <= i < |senders| ==> senders[i] == Idle {
        NothingHeld(senders);
        forall e
          ensures Total(Owing(e), senders) == 0
        {
          NobodyOwes(senders, e);
        }
      }
      if NothingShed(old(Now())) && NeverRefused(old(Now()), schedule) {
        forall e
          ensures Count(sent, e) + Total(Owing(e), senders)
            == Count(old(sent), e) + Total(Owing(e), old(senders)) + Accepted(Owing(e), schedule, accepted)
        {
          NothingIsLost(old(Now()), schedule, accepted, e);
        }
        NothingIsLost(old(Now()), schedule, accepted, Line);
      }
    }
  }

  datatype Turn = Offers(i: nat, pc: Pc) | Steps(i: nat, late: bool) | Emits | Disconnects

  /** The sum of what the accepted offers of a schedule hold at first. */
  function Accepted(amount: Pc -> nat, schedule: seq<Turn>, accepted: seq<bool>): (n: nat)
    requires |accepted| == |schedule|
  {
    if schedule == [] then 0
    else
      var n := |schedule| - 1;
      Accepted(amount, schedule[..n], accepted[..n])
        + (if accepted[n] && schedule[n].Offers? then amount(schedule[n].pc) else 0)
  }

  lemma AcceptedGrows(amount: Pc -> nat, schedule: seq<Turn>, accepted: seq<bool>, turn: Turn, ok: bool)
    requires |accepted| == |schedule|
    ensures Accepted(amount, schedule + [turn], accepted + [ok]) ==
            Accepted(amount, schedule, accepted) + (if ok && turn.Offers? then amount(turn.pc) else 0)
  {
    assert (schedule + [turn])[..|schedule|] == schedule && (accepted + [ok])[..|schedule|] == accepted;
  }

  lemma {:induction false} NothingHeld(senders: seq<Pc>)
    requires forall i :: 0 <= i < |senders| ==> senders[i] == Idle
    ensures Total(HeldPoints, senders) == 0 && Total(HeldLines, senders) == 0
  {
    if senders != [] {
      NothingHeld(senders[..|senders| - 1]);
    }
  }

  lemma IdleHold(n: nat)
    ensures Total(HeldPoints, seq(n, _ => Idle)) == 0 && Total(HeldLines, seq(n, _ => Idle)) == 0
  {
    NothingHeld(seq(n, _ => Idle));
  }
}
