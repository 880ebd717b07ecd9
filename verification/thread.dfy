/** Thread's stop flag (include/nebula/thread.h) and the ready flag of LogServer
    (include/nebula/app_logger.h), both plain words touched only by atomic builtins. */
module Threads {
  /** What compare-and-swap leaves in a word. */
  function Swapped(value: int, expected: int, desired: int): int {
    if value == expected then desired else value
  }

  class Word {
    var value: int

    constructor (v: int)
      ensures value == v
    {
      value := v;
    }

    /** Returns what was there before, whether or not it was replaced. */
    method CompareAndSwap(expected: int, desired: int) returns (before: int)
      modifies this
      ensures before == old(value)
      ensures value == Swapped(old(value), expected, desired)
    {
      before := value;
      if value == expected {
        value := desired;
      }
    }

    method FetchAndAdd(n: int) returns (before: int)
      modifies this
      ensures before == old(value) && value == old(value) + n
    {
      before := value;
      value := value + n;
    }
  }

  class Thread {
    const stopFlag: Word

    constructor ()
      ensures fresh(stopFlag) && stopFlag.value == 0
    {
      stopFlag := new Word(0);
    }

    method TrySetStopFlag() returns (before: int)
      modifies stopFlag
      ensures before == old(stopFlag.value)
      ensures stopFlag.value == Swapped(old(stopFlag.value), 0, 1)
    {
      before := stopFlag.CompareAndSwap(0, 1);
    }

    /** The loop leaves when the swap reports a flag that was already up, so a call that raises the flag
        goes round twice; `rounds` counts the swaps. */
    method SetStopFlag() returns (ghost rounds: nat)
      modifies stopFlag
      ensures stopFlag.value == Swapped(old(stopFlag.value), 0, 1)
      ensures stopFlag.value != 0
      ensures rounds == if old(stopFlag.value) == 0 then 2 else 1
    {
      var before := stopFlag.CompareAndSwap(0, 1);
      rounds := 1;
      while before == 0
        invariant stopFlag.value == Swapped(old(stopFlag.value), 0, 1)
        invariant before == 0 ==> old(stopFlag.value) == 0 && rounds == 1
        invariant before != 0 ==> rounds == if old(stopFlag.value) == 0 then 2 else 1
        decreases before == 0
      {
        before := stopFlag.CompareAndSwap(0, 1);
        rounds := rounds + 1;
      }
    }

    method GetStopFlag() returns (flag: int)
      modifies stopFlag
      ensures flag == stopFlag.value == old(stopFlag.value)
    {
      flag := stopFlag.FetchAndAdd(0);
    }
  }

  const DEFAULT_CHECK_INTERVAL_MS := 1000

  /** The parts of a LogServer that its own thread shares with others. */
  class LogServer {
    const thread: Thread
    const readyToServe: Word
    var loopStopped: bool

    ghost predicate Valid()
      reads this
    {
      readyToServe != thread.stopFlag
    }

    /** `ready` is a static member: one word for all servers. */
    constructor (ready: Word)
      ensures readyToServe == ready && !loopStopped && fresh(thread) && fresh(thread.stopFlag)
      ensures Valid() && thread.stopFlag.value == 0
    {
      thread := new Thread();
      readyToServe := ready;
      loopStopped := false;
    }

    method SetReadyToServe()
      modifies readyToServe
      ensures readyToServe.value == Swapped(old(readyToServe.value), 0, 1)
    {
      var _ := readyToServe.CompareAndSwap(0, 1);
    }

    method ClearReadyToServe()
      modifies readyToServe
      ensures readyToServe.value == Swapped(old(readyToServe.value), 1, 0)
    {
      var _ := readyToServe.CompareAndSwap(1, 0);
    }

    method IsReadyToServe() returns (ready: bool)
      modifies readyToServe
      ensures ready <==> readyToServe.value == 1
      ensures readyToServe.value == old(readyToServe.value)
    {
      var value := readyToServe.FetchAndAdd(0);
      ready := value == 1;
    }

    /** The timer callback: the ready flag comes down before the loop is told to stop. Its result is the
        delay until it runs again, 0 for never. */
    method CheckStopFlag() returns (delay: nat)
      requires Valid()
      modifies this`loopStopped, readyToServe, thread.stopFlag
      ensures thread.stopFlag.value == old(thread.stopFlag.value)
      ensures thread.stopFlag.value != 0 ==>
                delay == 0 && loopStopped && readyToServe.value == Swapped(old(readyToServe.value), 1, 0)
      ensures thread.stopFlag.value == 0 ==>
                delay == DEFAULT_CHECK_INTERVAL_MS && loopStopped == old(loopStopped)
                && readyToServe.value == old(readyToServe.value)
    {
      var flag := thread.GetStopFlag();
      if flag != 0 {
        ClearReadyToServe();
        loopStopped := true;
        delay := 0;
      } else {
        delay := DEFAULT_CHECK_INTERVAL_MS;
      }
    }
  }
}
