/** Decisions that tasks.c takes on tick words, against the times the words stand for. */
module Delays {
  import opened Arithmetic
  import opened KernelState

  /** The test of vTaskDelayUntil: whether a task that woke at word `previous` still has to
      wait for word `previous + increment`. */
  function ShouldDelay(previous: nat, now: nat, increment: nat, m: nat): (b: bool)
    requires previous < m && now < m && 0 < increment < m
  {
    var wake := if previous + increment < m then previous + increment else previous + increment - m;
    if now < previous then wake < previous && wake > now else wake < previous || wake > now
  }

  /** Unsigned subtraction of the words of two times gives the word of their distance. */
  lemma {:induction false} WordOfDistance(from: nat, to: nat, m: nat)
    requires m > 0 && from <= to
    ensures WordMinus(Word(to, m), Word(from, m), m) == Word(to - from, m)
  {
    if to - from >= m {
      WordOfDistance(from, to - m, m);
    } else {
      WordStep(from, to - from, m);
    }
  }

  /** The decision depends only on the lateness of the task, as a word, and is right while
      that is less than one wrap. The wait that follows is what is left of the increment, so
      it ends at the intended time, or whole wraps after it. */
  lemma {:induction false} DelayUntilIsDriftFree(previous: nat, now: nat, increment: nat, m: nat)
    requires m > 0 && previous <= now && 0 < increment < m
    ensures ShouldDelay(Word(previous, m), Word(now, m), increment, m) <==> Word(now - previous, m) < increment
    ensures now - previous < m ==>
      (ShouldDelay(Word(previous, m), Word(now, m), increment, m) <==> now < previous + increment)
    ensures Word(now - previous, m) < increment ==>
      WordMinus(Word(previous + increment, m), Word(now, m), m) == increment - Word(now - previous, m)
  {
    WordOfDistance(previous, now, m);
    WordStep(previous, increment, m);
    if now - previous >= m {
      DelayUntilIsDriftFree(previous, now - m, increment, m);
    } else if now < previous + increment {
      WordOfDistance(now, previous + increment, m);
    }
  }

  /** A time as xTaskCheckForTimeOut sees it: the tick word and the count of its wraps, a
      word of 2^32 values itself. */
  datatype TimeOut = TimeOut(overflowCount: nat, timeOnEntering: nat)

  const COUNT_WORD := 0x1_0000_0000

  datatype TimeOutCheck = TimedOut | Remaining(ticksToWait: nat, timeOut: TimeOut)

  /** xTaskCheckForTimeOut. A wait of `m - 1` ticks, portMAX_DELAY, never times out. */
  function CheckForTimeOut(timeOut: TimeOut, wait: nat, overflows: nat, tick: nat, m: nat): (r: TimeOutCheck)
    requires tick < m && timeOut.timeOnEntering < m && wait < m
  {
    var elapsed := WordMinus(tick, timeOut.timeOnEntering, m);
    if wait == m - 1 then
      Remaining(wait, timeOut)
    else if overflows != timeOut.overflowCount && tick >= timeOut.timeOnEntering then
      TimedOut
    else if elapsed < wait then
      Remaining(wait - elapsed, TimeOut(overflows, tick))
    else
      TimedOut
  }

  /** How often the tick word wraps on the way to a time. */
  function Wraps(n: nat, m: nat): (r: nat)
    requires m > 0
  {
    if n < m then 0 else 1 + Wraps(n - m, m)
  }

  /** The epoch began when the tick word wrapped, as often as the kernel has counted. */
  ghost predicate EpochOk(base: nat, overflows: nat, maxDelay: nat) {
    WholeWraps(base, maxDelay) && overflows == Wraps(base, maxDelay + 1) % COUNT_WORD
  }

  lemma FirstEpochOk(maxDelay: nat)
    ensures EpochOk(0, 0, maxDelay)
  {
  }

  lemma NextEpochOk(base: nat, overflows: nat, maxDelay: nat)
    requires EpochOk(base, overflows, maxDelay)
    ensures EpochOk(base + maxDelay + 1, (overflows + 1) % COUNT_WORD, maxDelay)
  {
    OneMoreWrap(base, maxDelay);
    assert Wraps(base + maxDelay + 1, maxDelay + 1) == 1 + Wraps(base, maxDelay + 1);
  }

  /** Within an epoch, the count of its wraps and the tick word are those of the time. */
  lemma EnteredNow(base: nat, overflows: nat, tick: nat, maxDelay: nat)
    requires EpochOk(base, overflows, maxDelay) && tick <= maxDelay
    ensures Entered(base + tick, maxDelay + 1) == TimeOut(overflows, tick)
  {
    WrapsStep(base, tick, maxDelay + 1);
    WordStep(base, tick, maxDelay + 1);
  }

  function Entered(time: nat, m: nat): (r: TimeOut)
    requires m > 0
  {
    TimeOut(Wraps(time, m) % COUNT_WORD, Word(time, m))
  }

  lemma {:induction false} WrapsBetween(from: nat, to: nat, m: nat)
    requires m > 0 && from <= to
    ensures Wraps(from, m) <= Wraps(to, m)
    ensures Wraps(to, m) - Wraps(from, m) == Wraps(to - from, m) + (if Word(to, m) < Word(from, m) then 1 else 0)
  {
    if to - from >= m {
      WrapsBetween(from, to - m, m);
    } else {
      WrapsStep(from, to - from, m);
      WordStep(from, to - from, m);
    }
  }

  lemma {:induction false} WrapsStep(n: nat, k: nat, m: nat)
    requires m > 0 && k < m
    ensures Wraps(n + k, m) == Wraps(n, m) + (if Word(n, m) + k < m then 0 else 1)
  {
    if n >= m {
      WrapsStep(n - m, k, m);
      assert Wraps(n + k, m) == 1 + Wraps(n + k - m, m);
    }
  }

  /** The check reports a timeout exactly when the wait is over, except when a caller comes
      at least one whole wrap late and either the tick word is below its entry value or the
      count of wraps came back to its entry value. */
  lemma CheckForTimeOutIsExact(from: nat, to: nat, wait: nat, m: nat)
    requires m > 0 && from <= to && wait < m - 1
    ensures var missed := to - from >= m && Word(to - from, m) < wait
                          && (Word(to, m) < Word(from, m)
                              || Entered(to, m).overflowCount == Entered(from, m).overflowCount);
      CheckForTimeOut(Entered(from, m), wait, Entered(to, m).overflowCount, Word(to, m), m)
      == if to - from >= wait && !missed then TimedOut else Remaining(wait - Word(to - from, m), Entered(to, m))
  {
    WordOfDistance(from, to, m);
    WrapsBetween(from, to, m);
  }

  /** With a 16-bit tick, a wait of 0xFFFE ticks looked at after 0x1FFFC is not over yet. */
  lemma LateCheckMisses()
    ensures CheckForTimeOut(Entered(5, 0x1_0000), 0xFFFE, Entered(0x2_0001, 0x1_0000).overflowCount,
                            Word(0x2_0001, 0x1_0000), 0x1_0000)
      == Remaining(2, TimeOut(2, 1))
  {
    CheckForTimeOutIsExact(5, 0x2_0001, 0xFFFE, 0x1_0000);
    assert Word(0x1_FFFC, 0x1_0000) == 0xFFFC;
  }
}
