# libnebula, verified in Dafny

A model of the stateful core of libnebula, a C++ library of server building blocks, with proofs about it.

* **AsyncEvent**, the edge-triggered event loop. `FdTable` and `Timers` hold its two tables and the kernel's
  epoll interest set as values; `EventModel` the public API and callbacks; `ReadySteps` and `ReadyPasses`,
  `PollPasses`, `TimerSteps` and `TimerPasses` the three passes of a round; `EventLoops` runs, the timeout and
  `eventLoop`; `LoopStops` how `stop()` ends it; `TimerLiveness` the loop with timers only. `ReadyFaults` and `TimerFaults` say what happens when
  a callback breaks its contract, and `Witnesses` gives runs from a fresh loop that get there.
  `AsyncEvents.AsyncEvent` is the class itself: its arrays and counters, edited in place, every method proved
  to do to them what the functions of the model do to their view.
* **Producer and consumer**: `Tasklets` is an interleaving transition system of any number of threads around
  one queue; `ProducerConsumer` has the three classes as objects; `SoloCalls` shows that an uninterrupted call
  does in the first what it promises in the second.
* **LogServer**: `LogServers` is the protocol of `getInstance`, `destroyInstance` and the server's thread, step
  by step, for any number of threads, `LogServerCalls` says what `getInstance` returns and when it creates a server,
  and `LogServerRuns` has runs; `Threads` has the stop flag and the
  ready flag as words under compare-and-swap.
* **Histogram**: `Thresholds` is the table and the binary search, `HistogramModel` the statistics a histogram
  must agree with, `Histograms.Histogram` the class.
* **Strings and text files**: `BoundedStrings` (`strlcpy`, `strlcat`), `TokenRuns` and `TextTokens` (`Tokens`),
  `TextLines` and `TextFileParsers` (`TextFileParser`).
* **Random**: how `Prng` mixes 31-bit draws; `Counting` has the set sizes it needs.
* `Words`, `Options` and `Sequences` hold what several of these share.

## How the outside world enters

What `epoll_ctl` answers is a parameter of each call (`willing`: whether it fails for a reason of its own);
what `epoll_wait` stores is the `batch` of a step; the clock is a parameter of each reading; a callback is a
script of API calls and a return value, chosen by an `oracle` per fd or per timer id. Every theorem holds for
all of them, under the contracts below. A run (`EventLoops.Run`) is any sequence of API calls and passes.

Contracts of the application, with the lemmas that give the exact condition and show what fails otherwise:

* no `addFdEvent` for an empty mask on an unregistered fd (`FdTable.AddFdKeepsInvIff`);
* a callback that `processReadyFds` calls leaves the table as `ReadySteps.TailOk` says, which is exactly what
  the ready list needs (`ReadySteps.ReadyStepKeepsInvIff`). For one that unregisters no fd but its own this
  means: having unregistered it, it asks for none of its events and was not called for the last slot
  (`ReadySteps.OwnStepKeepsInvIff`); otherwise an event is forgotten or the count becomes -1
  (`ReadyFaults.LastSlotRemovalForgetsAnotherFd`, `ReadyFaults.OnlySlotRemovalUnderflows`,
  `Witnesses.EarlierRemovalLosesEvent`). For "called exactly once" it also unregisters no fd in an earlier slot,
  because the last fd then moves behind the loop (`ReadyFaults.EarlierRemovalSkipsLast`);
* a callback that `processFdEvents` calls takes no events from an fd whose event comes later in the same batch
  (`PollPasses.PollStepMonitors`, `PollPasses.SecondIsRegisteredIff`,
  `PollPasses.UnregisteringAnotherFdBreaksBatch`); the tables survive even that, but the batch is then handled
  through a cleared entry;
* a timer callback deletes only events that the pass has still to meet, not its own and none in front of it, and
  the timers it adds are not due in the pass. The exact condition for one turn is `TimerSteps.TimerTurnActsIff`,
  in terms of the calls `TimerSteps.PrefixKeptIff`; deleting its own timer is right only from the last slot with
  a result other than 0, and takes `used_time_events_` to -1 when it was the only one and the result is 0
  (`TimerFaults.OwnDeleteActsIff`, `TimerFaults.OwnDeleteCases`); deleting an earlier one leaves a due event
  behind the loop (`TimerFaults.EarlierDeleteSkipsLast`); adding a due one keeps the pass going
  (`TimerFaults.TurnShrinksIff`, `TimerFaults.DueAddStalls`);
* `destroyInstance` does not overlap `getInstance` or the use of its result
  (`LogServers.OverlappingCallGetsDeletedServer`, `LogServerRuns.DeleteHappens`).

## Where the code differs from what it says

* `include/nebula/async_event.h:567` means to notice that the callback already removed its fd, but for the fd
  in the last slot the stale slot still equals the fd and the count drops twice. The guard
  `idx < num_ready_fds_` would repair it: `ReadySteps.GuardedStepKeepsInvIff`,
  `ReadyPasses.GuardedReadyPassCorrect`.
* `include/nebula/async_event.h:390` casts the wait to `int`; the exact condition under which the loop still
  respects the earliest deadline is `EventLoops.TimeoutRespectsDeadlineIff`, and a timer 2^31 ms away makes it
  wait for ever: `Witnesses.FarTimerBlocksForever`.
* A callback cannot drop a recorded event by returning `NONE`, because its result is joined with
  `already_fired_` (`include/nebula/async_event.h:477`, `include/nebula/async_event.h:557`): an event stays
  recorded for as long as it is monitored.
* `src/histogram.cc:93` clears `min_` to 0, the constructor sets it to 2^64 - 1; when this shows is
  `HistogramModel.ClearedIsRightIff`.
* `include/nebula/text_file_parser.h:188` promises to remove one CR, LF or CR LF; the code also removes CR CR:
  `TextLines.StrippedAsDocumentedIff`, `TextLines.TwoReturnsHappen`.
* A `LogServer` whose `routine` fails before it raises the ready flag leaves its creator waiting for ever with
  the lock held, instead of returning NULL: `LogServers.WaitEndsIff`, `LogServerRuns.FailedSetUpHappens`.
* `src/app_logger.cc:217` calls `setStopFlag` through the result of `getInstance`, which is NULL when `create()`
  failed for a server that `destroyInstance` itself made: `LogServers.CrashesIff`,
  `LogServerRuns.NullDereferenceHappens`.

## Model

| member | source | states |
|---|---|---|
| FdTable.AddFd | include/nebula/async_event.h:153-190 | A failed `addFdEvent` leaves every table and the kernel as they were. |
| FdTable.DelFd | include/nebula/async_event.h:199-247 | A failed `delFdEvent` leaves every table and the kernel as they were. |
| FdTable.RemoveFd | include/nebula/async_event.h:258-287 | A failed `removeFd` leaves every table and the kernel as they were. |
| FdTable.ReadyFits | include/nebula/async_event.h:478-482 | Pigeonhole: an fd without recorded events still fits into the ready list, so the append of `processFdEvents` is in bounds. |
| FdTable.AddFdKeepsInvIff | include/nebula/async_event.h:153-190 | On every outcome of `epoll_ctl`, `addFdEvent` keeps tables, counter, ready list and kernel in agreement, exactly unless it registers an unmonitored fd for no event. |
| FdTable.DelFdKeepsInv | include/nebula/async_event.h:199-247 | `delFdEvent` keeps the agreement on every outcome, and when it succeeds, both ways. |
| FdTable.RemoveFdKeepsInv | include/nebula/async_event.h:258-287 | `removeFd` keeps the agreement on every outcome, and when it succeeds, both ways. |
| FdTable.AddFdMonitorsIff | include/nebula/async_event.h:153-190 | After a successful `addFdEvent` an event is monitored exactly if it was or was asked for, and the kernel is asked for input exactly if the fd is monitored for reading, for output exactly if for writing; the new handler is in place, recorded events and other fds are untouched; it succeeds exactly for an fd in the table when the kernel is willing. |
| FdTable.DelFdMonitorsIff | include/nebula/async_event.h:199-247 | After a successful `delFdEvent` an event is monitored exactly if it was and was not named, and the kernel is asked for exactly these; an fd left without events is cleared and out of the ready list; other fds are untouched. |
| EventTypes.InterestOf | include/nebula/async_event.h:171-176 | The word passed to `epoll_ctl` has EPOLLIN exactly for READABLE and EPOLLOUT exactly for WRITABLE. |
| FdTable.RemoveFdForgets | include/nebula/async_event.h:258-287 | After a successful `removeFd` the fd is not monitored, not watched by the kernel and not listed; entry, watch and listing of every other fd are as before. |
| FdTable.DelUndoesAdd | include/nebula/async_event.h:153-247 | Deleting the events an `addFdEvent` added restores the kernel, counter, ready list and events, and for a new fd the whole state. |
| FdTable.DropReadyFacts | include/nebula/async_event.h:239-244 | Swap-with-last deletion removes exactly the named fd from a duplicate-free ready list. |
| Timers.AddTimerDistinctIff | include/nebula/async_event.h:297-311 | Live ids stay distinct across `addTimeEvent` exactly when the table is full or the next id is not live. |
| Timers.AddTimerKeepsInv | include/nebula/async_event.h:297-311 | `addTimeEvent` fails exactly on a full table; else it appends one event, due `ms_later` after now, whose id is new until the 64-bit counter wraps; no dead id revives. |
| Timers.DelTimerExact | include/nebula/async_event.h:319-329 | `delTimeEvent` fails exactly when the id is not live; else it removes one event with that id and keeps all others as a multiset, and the id is then dead. |
| Timers.DelTimerKeepsInv | include/nebula/async_event.h:319-329 | `delTimeEvent` keeps ids distinct and bounded and revives none. |
| Timers.Nearest | include/nebula/async_event.h:603-617 | `nearestTimeEvent` is negative exactly without timers, never beyond any deadline, and when positive hits one exactly. |
| EventModel.ExecKeepsInv | include/nebula/async_event.h:153-329 | Any series of API calls with any kernel failures keeps tables, counter, ready list and kernel in agreement. |
| EventModel.ExecOwn | include/nebula/async_event.h:199-287 | Calls that unregister at most one fd leave the recorded events of all others alone, take no monitored event from them, and move that fd's place in the ready list only by removing it. |
| EventModel.ExecKeepsTimerInv | include/nebula/async_event.h:297-329 | Any series of API calls keeps live timer ids distinct and revives no dead one. |
| ReadySteps.ReadyTailKeepsInvIff | include/nebula/async_event.h:557-570 | What the code does to the fd's entry and slot keeps the invariant if and only if the table it finds meets `TailOk`: an fd about to stay listed is listed, and what is about to leave the list is that fd. |
| ReadySteps.ReadyStepKeepsInvIff | include/nebula/async_event.h:553-571 | One turn of `processReadyFds` keeps the invariant, whatever its callback does to any fd, if and only if the callback leaves the table so. |
| ReadySteps.OwnStepKeepsInvIff | include/nebula/async_event.h:553-571 | For a callback that unregisters no fd but its own: if and only if, having unregistered it, it asks for none of its events and was not called for the last slot. |
| ReadyFaults.LastSlotRemovalForgetsAnotherFd | include/nebula/async_event.h:565-570 | In every state with two ready fds, a last-slot callback that unregisters its fd makes the count drop twice: the fd before it keeps its recorded events but leaves the ready list. |
| ReadyFaults.OnlySlotRemovalUnderflows | include/nebula/async_event.h:565-570 | With a single ready fd it takes `num_ready_fds_` to -1. |
| ReadyFaults.EarlierRemovalSkipsLast | include/nebula/async_event.h:552-570 | In every state, a callback that removes an fd in an earlier slot moves the last fd behind the loop: it stays listed and is not called in this pass. |
| ReadyFaults.StaleSlotLosesEvent | include/nebula/async_event.h:567-569 | When slot idx is stale and still names the fd, the last fd of the list leaves it with its events recorded, and an fd listed elsewhere stays with nothing recorded. |
| Witnesses.LastSlotRemovalHappens | include/nebula/async_event.h:565-570 | A run from a fresh loop reaches a state in which the fd in the last slot removes itself. |
| Witnesses.EarlierRemovalLosesEvent | include/nebula/async_event.h:565-570 | A run reaches three ready fds of which the last removes the first and stops reading: it is left listed with nothing recorded, and the recorded event of the second leaves the list. |
| ReadySteps.GuardedStepKeepsInvIff | include/nebula/async_event.h:553-571 | With the guard `idx < num_ready_fds_` added, the exact condition for any callback. |
| ReadySteps.GuardedOwnStepKeepsInvIff | include/nebula/async_event.h:553-571 | With the guard, a callback that unregisters its own fd needs no exception for the last slot. |
| ReadyPasses.GuardedReadyPassCorrect | include/nebula/async_event.h:548-595 | With the guard a whole pass keeps the invariant and calls every ready fd exactly once, or drops it when it was unregistered before its turn, without a clause about the last slot. |
| ReadySteps.ReadyTailRecordsIff | include/nebula/async_event.h:557-570 | After a callback exactly those monitored events are recorded that it asked for or that were recorded before. |
| ReadySteps.ReadyTailTouchesIff | include/nebula/async_event.h:557-570 | Exactly what is recorded afterwards, and that nothing else but the list changes: not the handler, the mask, another entry, the kernel or a timer. |
| ReadyPasses.ReadyPassKeepsInv | include/nebula/async_event.h:548-595 | A pass whose callbacks meet `TailOk` keeps the invariant, whatever other fds they unregister. |
| ReadyPasses.ReadyPassCallsOnce | include/nebula/async_event.h:548-595 | If moreover none unregisters an fd in an earlier slot, every initially ready fd is called exactly once, with the events recorded for it at the start, or was unregistered before its turn; no other is called. |
| ReadyPasses.ReadyPassCleans | include/nebula/async_event.h:557-561 | If none stops monitoring a recorded event of an earlier fd either, each entry is left with its recorded events within its monitored ones. |
| ReadyPasses.ReadyPassCorrect | include/nebula/async_event.h:548-595 | With callbacks that unregister no fd but their own: invariant kept, every ready fd called exactly once with its events, recorded events within monitored ones. |
| ReadyPasses.ReadyPassKeepsRecorded | include/nebula/async_event.h:548-595 | No pass forgets a recorded, monitored event, whatever callbacks return, unless one stops monitoring it. |
| PollPasses.PollDispatches | include/nebula/async_event.h:437-476 | Every event of the batch is handled, in order, through the entry its fd has by then: by the error callback if and only if it is a hang-up or an error and there is one; otherwise by `proc_` if and only if input or output came, told READABLE exactly for EPOLLIN and WRITABLE exactly for EPOLLOUT; otherwise not at all. |
| PollPasses.PollStepRuns | include/nebula/async_event.h:446-500 | The callback's calls take effect exactly in the first two cases; its answer is recorded only in the second; in the third nothing happens. |
| PollPasses.PollStepKeepsInv | include/nebula/async_event.h:446-536 | Handling one event keeps the invariant whatever its callback does through the API. |
| PollPasses.PollTailRecordsIff | include/nebula/async_event.h:476-500 | After the callback exactly those monitored events are recorded that it asked for or that were recorded before; no other entry changes. |
| PollPasses.PollTailTouchesIff | include/nebula/async_event.h:477-500 | Exactly which events are recorded afterwards, monitored or not; the fd leaves the ready list exactly when no monitored event is wanted and the report covers what was recorded; nothing else changes. |
| PollPasses.PollStepMonitors | include/nebula/async_event.h:446-536 | Handling an event leaves every fd monitored for exactly what the callback left it monitored for, or for what it was if no callback ran. |
| PollPasses.PollCallsRegistered | include/nebula/async_event.h:437-546 | When no callback takes events from an fd whose event comes later in the batch, every event is handled once, in order, through an entry registered at that moment. |
| PollPasses.SecondIsRegisteredIff | include/nebula/async_event.h:446-476 | In any batch of two the second event is handled through a registered entry if and only if the first callback left its fd registered, or there was none. |
| PollPasses.UnregisteringAnotherFdBreaksBatch | include/nebula/async_event.h:470-476 | In every state, a first callback that removes the second fd makes its event be handled through a cleared entry. |
| Witnesses.BrokenBatchHappens | include/nebula/async_event.h:470-476 | A run reaches a state and a batch from the kernel in which this happens. |
| PollPasses.PollPassKeepsRecorded | include/nebula/async_event.h:476-500 | No batch forgets a recorded, monitored event unless a callback stops monitoring it. |
| TimerSteps.TimerTailActsIff | include/nebula/async_event.h:417-426 | After a callback left the table c, the code acts on the fired event and on nothing else if and only if slot i is live and holds it, or slot i is dead, rc is 0 and it is the last live event; or the callback deleted it, rc is not 0 and slot i is dead (or holds an event due at now + rc in any case). |
| TimerSteps.TimerTurnActsIff | include/nebula/async_event.h:414-426 | The same for every turn of the loop and every script of its callback. |
| TimerSteps.PrefixKeptIff | include/nebula/async_event.h:297-329 | The slots up to i are live and unchanged after a callback if and only if none of its calls deleted an event at slot i or in front of it. |
| TimerPasses.TimerPassRefines | include/nebula/async_event.h:408-429 | `processTimeEvents`, its callbacks adding timers and deleting timers ahead of the loop, refines a filter and map on the multiset of the events it meets, which are those there or added, less those deleted first: due events fire once, zero drops, others move to now + rc, added timers do not fire, nothing due remains. |
| TimerPasses.EachDueFiresOnce | include/nebula/async_event.h:408-429 | In one pass each due event fires exactly once or was deleted before its turn, no other fires, and nothing due remains. |
| TimerPasses.AddersRefine | include/nebula/async_event.h:408-429 | When callbacks delete nothing, the pass is that filter and map on the whole table, plus what was added. |
| TimerPasses.SweepFiresDue | include/nebula/async_event.h:414-416 | That specification fires an event as often as the table holds it if due, and never otherwise. |
| TimerPasses.SweepStaysCount | include/nebula/async_event.h:414-426 | What stays is every event that is not due, as it was, and every due one whose callback returned rc other than 0, moved to now + rc. |
| TimerPasses.SweepPermutes | include/nebula/async_event.h:421-423 | The specification does not depend on the order of the table, so swap-with-last deletion skips and repeats no event. |
| TimerPasses.TimerStepShrinks | include/nebula/async_event.h:412-427 | Every firing leaves fewer due events ahead although callbacks grow the table, so the pass ends. |
| TimerPasses.TimerPassKeepsInv | include/nebula/async_event.h:408-429 | The pass keeps fd tables, kernel and timer ids in order and revives no dead id. |
| TimerPasses.PassedSlotsStay | include/nebula/async_event.h:412-427 | The loop never goes back: what it has passed stays as it is. |
| TimerFaults.OwnDeleteActsIff | include/nebula/async_event.h:417-426 | A callback that deletes its own event leaves every other event alone if and only if rc is not 0 and its slot was the last (or the last event is due at now + rc in any case). |
| TimerFaults.OwnDeleteCases | include/nebula/async_event.h:417-426 | In every state and for every slot: not the last, another event is rescheduled or lost; the last, rc other than 0 is harmless, 0 loses the event in front of it or takes `used_time_events_` to -1. |
| TimerFaults.EarlierDeleteSkipsLast | include/nebula/async_event.h:412-427 | In every state, a callback that deletes an event the loop has passed moves the last event behind the loop: if due, it is still due after the pass. |
| TimerFaults.TurnShrinksIff | include/nebula/async_event.h:412-427 | A turn leaves fewer due events ahead if and only if its callback added no more due events than it deleted ahead. |
| TimerFaults.DueAddStalls | include/nebula/async_event.h:412-427 | A callback that adds a due timer leaves as many due events ahead as before, the new one among them. |
| Witnesses.SingleTimerUnderflows | include/nebula/async_event.h:421-423 | A run reaches a single timer that deletes itself and returns 0: `used_time_events_` becomes -1. |
| EventLoops.ReachableStates | include/nebula/async_event.h:153-595 | In every state any run reaches: the ready list holds exactly the fds with recorded events, once, all monitored, with room for any other; the counter is the number of monitored fds; the kernel watches exactly those, for input exactly if monitored for reading and for output exactly if for writing; live timer ids are distinct. |
| EventLoops.DeadIdsStayDead | include/nebula/async_event.h:297-329 | Over any run, a timer id once dead is never live again until the 64-bit counter wraps. |
| EventLoops.RecordedEventsAreKept | include/nebula/async_event.h:437-595 | Over any run, a recorded event stays recorded, its fd in the ready list, until a call stops monitoring it. |
| EventLoops.NearestIsEarliest | include/nebula/async_event.h:603-617 | `nearestTimeEvent` is the time to the earliest deadline, 0 when it has passed. |
| EventLoops.TimeoutRespectsDeadlineIff | include/nebula/async_event.h:389-394 | The loop waits between 0 and the time to the earliest deadline exactly when an fd is ready or the wait cut to 32 bits is not negative, in particular below 2^31 ms. |
| EventLoops.TimeoutIs | include/nebula/async_event.h:389-393 | The wait in every case: the time to the earliest deadline cut to an `int`, but 0 when that is 0, and else 1 when an fd is ready. |
| EventLoops.BlocksForeverIff | include/nebula/async_event.h:389-394 | It waits for ever exactly when no fd is ready and there is no timer or the cut wait is negative. |
| EventLoops.EventLoopGoesOn | include/nebula/async_event.h:381-396 | A loop that is not stopped and has a watched fd or a timer runs the next round, waiting in it as the state after `processReadyFds` says. |
| EventLoops.EventLoopEnds | include/nebula/async_event.h:381-396 | The loop ends only when it is stopped, or the kernel watches nothing for it and no timer is left. |
| LoopStops.ExecStopIff | include/nebula/async_event.h:331-339 | After any series of calls the stop flag is what the last `start()` or `stop()` among them says. |
| LoopStops.RoundStopIff | include/nebula/async_event.h:381-396 | A round whose callbacks do not call `start()` leaves the loop stopped if and only if it was, or a callback that the round did call called `stop()`. |
| LoopStops.StopEndsLoop | include/nebula/async_event.h:381-396 | Such a round is finished and is the last. |
| EventLoops.EventLoopStops | include/nebula/async_event.h:387-396 | Once the guard of `eventLoop` fails, further rounds make no difference. |
| Witnesses.FarTimerBlocksForever | include/nebula/async_event.h:389-394 | A run reaches a loop with one timer 2^31 ms away, which then waits for ever. |
| TimerLiveness.RoundFires | include/nebula/async_event.h:387-396 | With timers only and a clock that advances at least by the wait, every round fires a timer, spends one firing of each timer it fires, and leaves deadlines near. |
| TimerLiveness.RoundIsTimerPass | include/nebula/async_event.h:387-396 | In such a round the other two passes do nothing. |
| TimerLiveness.BudgetsAreSpentExactly | include/nebula/async_event.h:371-429 | Then, with a finite firing budget per timer, the loop ends with no timer left, in at most as many rounds as firings, and the firings of any set of timers are exactly the sum of their budgets. |
| TimerLiveness.DrainIsEventLoop | include/nebula/async_event.h:371-399 | The function used there is `eventLoop` on its rounds: same final state, where the guard fails, and one wait for each round. |
| AsyncEvents.Epoll.Ctl | include/nebula/async_event.h:183-186 | `epoll_ctl` as the code relies on it: adds new fds only, changes and deletes registered ones only, and a failure changes nothing. |
| AsyncEvents.AsyncEvent.constructor | include/nebula/async_event.h:89-143 | Construction and `initialize` give empty tables of the sizes asked for. |
| AsyncEvents.AsyncEvent.AddFdEvent | include/nebula/async_event.h:153-190 | In place, with rollback on failure, does exactly `FdTable.AddFd`. |
| AsyncEvents.AsyncEvent.DelFdEvent | include/nebula/async_event.h:199-247 | In place, with rollback on failure, does exactly `FdTable.DelFd`. |
| AsyncEvents.AsyncEvent.RemoveFd | include/nebula/async_event.h:258-287 | In place does exactly `FdTable.RemoveFd`. |
| AsyncEvents.AsyncEvent.DropReady | include/nebula/async_event.h:239-244 | The scan removes the first slot that holds the fd, by swap with the last. |
| AsyncEvents.AsyncEvent.AddTimeEvent | include/nebula/async_event.h:297-311 | In place does exactly `Timers.AddTimer`. |
| AsyncEvents.AsyncEvent.DelTimeEvent | include/nebula/async_event.h:319-329 | In place does exactly `Timers.DelTimer`. |
| AsyncEvents.AsyncEvent.RunOps | include/nebula/async_event.h:153-339 | API calls made by a callback act on the arrays as on the model. |
| AsyncEvents.AsyncEvent.ProcessReadyFds | include/nebula/async_event.h:548-595 | The loop over the array does exactly `ReadyPasses.ReadyPass`, stays in bounds, and returns the number of callbacks. |
| AsyncEvents.AsyncEvent.ProcessFdEvents | include/nebula/async_event.h:437-546 | The loop over the batch does exactly `PollPasses.PollPass`, stays in bounds and keeps the invariant. |
| AsyncEvents.AsyncEvent.ProcessTimeEvents | include/nebula/async_event.h:408-429 | The loop over the array does exactly `TimerPasses.TimerPass` and returns the number fired. |
| AsyncEvents.AsyncEvent.NearestTimeEvent | include/nebula/async_event.h:603-617 | The scan computes `Timers.Nearest`. |
| AsyncEvents.AsyncEvent.LoopTurn | include/nebula/async_event.h:387-396 | One round on the object is one round of the model, with the timeout it asks for. |
| AsyncEvents.AsyncEvent.EventLoop | include/nebula/async_event.h:371-399 | The loop on the object, with its guard, is `EventLoops.EventLoop`. |
| Tasklets.InitialInv | include/nebula/producer_consumer.h:144-154 | Nothing queued, held or deleted satisfies the invariant. |
| Tasklets.NextFifo | include/nebula/producer_consumer.h:156-187 | Every step keeps first in, first out: pushed equals popped, then cancelled, then queued. |
| Tasklets.NextPlaces | include/nebula/producer_consumer.h:144-373 | No step creates a place for a tasklet but the one of the tasklet it generates, and none destroys one. |
| Tasklets.NextExecuted | include/nebula/producer_consumer.h:285-296 | Every execution is of a tasklet its consumer still holds or has deleted since. |
| Tasklets.NextLimits | include/nebula/producer_consumer.h:285-373 | No call handles more tasklets than its limit. |
| Tasklets.QueueTouchedIff | include/nebula/producer_consumer.h:285-373 | A dispatch pushes exactly when its producer is attached and deletes the tasklet otherwise; a fetch pops exactly when its consumer is attached, the queue is not empty and the call is below its limit; no other step does. |
| Tasklets.DestructorIsAlone | include/nebula/producer_consumer.h:156-168 | From the start of the destructor no thread pushes or pops, in any interleaving. |
| Tasklets.EveryInterleaving | include/nebula/producer_consumer.h:144-373 | In every interleaving of any numbers of producers and consumers: first in, first out; every generated tasklet in exactly one place; none executed or deleted twice; none executed that was cancelled or not dispatched; limits kept. |
| Tasklets.NothingLeaks | include/nebula/producer_consumer.h:156-373 | Once the queue is empty and all threads have returned, every tasklet has been deleted exactly once, and executed exactly if that is why. |
| ProducerConsumer.Queue.PushTasklet | include/nebula/producer_consumer.h:170-175 | Appends at the back. |
| ProducerConsumer.Queue.PopTasklet | include/nebula/producer_consumer.h:177-187 | Takes the front, NULL exactly when empty. |
| ProducerConsumer.Queue.Destroy | include/nebula/producer_consumer.h:156-168 | The destructor cancels exactly what is queued, in order. |
| ProducerConsumer.Consumer.FetchTaskletAndExecute | include/nebula/producer_consumer.h:285-296 | Executes and deletes, in order, exactly as many front tasklets as limit and queue allow; a detached consumer does nothing. |
| ProducerConsumer.Producer.DispatchTasklet | include/nebula/producer_consumer.h:311-318 | Pushes exactly when attached. |
| ProducerConsumer.Producer.GenerateTaskletAndDispatch | include/nebula/producer_consumer.h:361-373 | Generates exactly as many as limit and source allow; pushes them in order, or deletes them when detached, counting both. |
| SoloCalls.SoloFetch | include/nebula/producer_consumer.h:285-296 | In the transition system an uninterrupted call takes exactly the front tasklets that limit and queue allow, executes and deletes them in order, and returns. |
| SoloCalls.SoloGenerate | include/nebula/producer_consumer.h:361-373 | An uninterrupted call generates exactly as many as limit and source allow, queues them in order, or deletes them when detached, and returns. |
| SoloCalls.AllGetThrough | include/nebula/producer_consumer.h:285-373 | A run from the start, for any n: attached, one producer generates n tasklets and one consumer executes and deletes them all, in order, leaving nothing. |
| Threads.Thread.TrySetStopFlag | include/nebula/thread.h:133-136 | Raises a lowered flag, leaves another value, returns the old one. |
| Threads.Thread.SetStopFlag | include/nebula/thread.h:138-143 | Ends with the flag up, after two swaps when it had to raise it and one otherwise. |
| Threads.Thread.GetStopFlag | include/nebula/thread.h:145-148 | Reads without changing. |
| Threads.LogServer.SetReadyToServe | include/nebula/app_logger.h:245-248 | Raises the ready flag if it is down. |
| Threads.LogServer.ClearReadyToServe | include/nebula/app_logger.h:250-253 | Lowers the ready flag if it is up. |
| Threads.LogServer.IsReadyToServe | include/nebula/app_logger.h:303-306 | Tells whether the flag is up, leaving it. |
| Threads.LogServer.CheckStopFlag | src/app_logger.cc:200-213 | Once the stop flag is up, lowers the ready flag, stops the loop and asks for no further call; before that changes nothing and asks to be called again in 1000 ms. |
| LogServers.StepKeepsInv | include/nebula/app_logger.h:275-297 | Every step of any thread or server keeps the protocol's invariant. |
| LogServers.OneServer | include/nebula/app_logger.h:275-297 | For any number of threads, at most one server is alive in any reachable state, and it is published or being created under the lock: none leaks. |
| LogServers.PublishedWasReady | include/nebula/app_logger.h:275-297 | A non-NULL `uniq_instance_` raised the ready flag before it was published, and is deleted exactly between the delete and the store of NULL, under the lock. |
| LogServers.EveryThread | src/app_logger.cc:200-223 | Wherever a thread is: the lock excludes; a pointer a client holds is the live published server; the flag a creator polls is up exactly when its own server serves; the flag is down after the join and whenever a creator allocates; the only crash is through NULL, nothing is used after deletion. |
| LogServerCalls.CallsFindServer | include/nebula/app_logger.h:275-297 | As long as `create()` does not fail, `getInstance` never returns NULL, whatever number of `destroyInstance` calls came before, and no thread crashes. |
| LogServerCalls.AllocatesIff | include/nebula/app_logger.h:280-283 | A step allocates, and then exactly one server, if and only if its thread holds the lock at the second check and `uniq_instance_` is NULL. |
| LogServerCalls.PublishedNeedsNoLock | include/nebula/app_logger.h:278-296 | With a server published, `getInstance` returns it without the lock. |
| LogServerRuns.EveryRestartServes | include/nebula/app_logger.h:275-297 | For every m, a run from the start that creates and destroys the singleton m times and creates it again: the client holds server m, serving and published, all before it deleted. |
| LogServers.FailedSetUpBlocks | src/app_logger.cc:225-262 | When a server cannot set itself up, its creator holds the lock for ever and nothing is published, in every continuation. |
| LogServers.WaitEndsIff | include/nebula/app_logger.h:287-291 | From any reachable state, some continuation ends a creator's wait if and only if its server has not failed to set itself up. |
| LogServerRuns.FailedSetUpHappens | src/app_logger.cc:225-262 | A run from the start reaches a creator whose server failed. |
| LogServers.CrashesIff | src/app_logger.cc:217-218 | A thread crashes if and only if its first `getInstance` in `destroyInstance` returned NULL, by dereferencing it; never at the join and never by use after deletion. |
| LogServers.FirstCallReturnsNullIff | include/nebula/app_logger.h:296 | That call returns NULL exactly when `uniq_instance_` is NULL at its last read. |
| LogServerRuns.NullDereferenceHappens | src/app_logger.cc:217 | A run from the start in which `create()` fails and `destroyInstance` dereferences NULL. |
| LogServers.OverlappingCallGetsDeletedServer | src/app_logger.cc:215-223 | Without serialisation: a `getInstance` that starts while `destroyInstance` deletes returns the deleted server. |
| LogServerRuns.DeleteHappens | src/app_logger.cc:215-223 | A run from the start reaches that point of `destroyInstance` with every other thread idle. |
| Thresholds.ThresholdsAscend | src/histogram.cc:130-176 | The threshold table is strictly ascending. |
| Thresholds.ThresholdsRepeat | src/histogram.cc:130-176 | From 6 on every sixteenth threshold is ten times larger. |
| Thresholds.FirstThresholdsStep | src/histogram.cc:130-176 | Up to 50 the thresholds go in steps of 1, from 10 of 2, from 20 of 5; the last is 2^64 - 1. |
| Thresholds.BucketUnique | src/histogram.cc:111-126 | Each value lies in at most one bucket. |
| Thresholds.BucketAtMostIff | src/histogram.cc:111-126 | A value is in bucket b or before exactly when it is below threshold b + 1. |
| Thresholds.Search | src/histogram.cc:111-125 | The binary search of `add` ends at the unique bucket of the value, and for 2^64 - 1, which no interval holds, at the last one. |
| HistogramModel.BuildSummarizes | src/histogram.cc:76-128 | Any construction from adds and merges equals the summary of all samples: min, max, per-bucket counts, and total and count modulo 2^64. |
| HistogramModel.HistogramIsMultisetSummary | src/histogram.cc:76-128 | Two constructions from the same multiset of samples are equal, whatever the order and the merges. |
| HistogramModel.AddSummarizes | src/histogram.cc:100-128 | Adding to the summary of some samples gives the summary of one more. |
| HistogramModel.MergeSummarizes | src/histogram.cc:76-89 | Merging summaries gives the summary of the samples together. |
| HistogramModel.MergeCommutes | src/histogram.cc:76-89 | Merging commutes. |
| HistogramModel.MergeAssociates | src/histogram.cc:76-89 | Merging associates. |
| HistogramModel.MergeHasUnit | include/nebula/histogram.h:54-58 | The fresh histogram is its unit on both sides. |
| HistogramModel.BucketsAddUpToCount | src/histogram.cc:108-126 | Below 2^64 samples the bucket counts add up to `count_`. |
| HistogramModel.BucketsBoundTotal | src/histogram.cc:108-126 | While the exact total is below 2^64, it lies between the bucket counts weighted by lower and by upper thresholds. |
| HistogramModel.AverageBetween | include/nebula/histogram.h:83-86 | min <= average <= max for a non-empty histogram of fewer than 2^64 samples whose exact total is below 2^64. |
| HistogramModel.AverageIsMean | include/nebula/histogram.h:83-86 | For fewer than 2^64 samples whose exact total is below 2^64: the average is their mean rounded down, 0 for none. |
| HistogramModel.RunningSumCounts | src/histogram.cc:49-55 | The running sum at bucket b counts exactly the samples below the next threshold, all of them at the last bucket. |
| HistogramModel.LinesReport | src/histogram.cc:49-71 | `toString` reports one line per non-empty bucket, in order, with true count and running sum. |
| HistogramModel.ClearedIsRightIff | src/histogram.cc:91-98 | After `clear()` a histogram is right about the samples added since exactly when 0 is among them. |
| Histograms.Histogram.constructor | include/nebula/histogram.h:54-58 | The constructor gives the summary of no samples. |
| Histograms.Histogram.Clear | src/histogram.cc:91-98 | Resets every field, `min_` to 0. |
| Histograms.Histogram.Add | src/histogram.cc:100-128 | In place does `HistogramModel.Add` and returns the value's bucket. |
| Histograms.Histogram.Merge | src/histogram.cc:76-89 | In place does `HistogramModel.Merge`, also with itself. |
| Histograms.Histogram.ToLines | src/histogram.cc:37-71 | The loop of `toString` computes the lines with their running sums. |
| BoundedStrings.Strlcpy | src/strlcpy.cc:46-69 | The whole buffer afterwards and the source's length, for any `siz`. |
| BoundedStrings.Strlcat | src/strlcat.cc:50-75 | The whole buffer afterwards, and min(siz, initial length) plus the source's length, also when no NUL lies within `siz`. |
| BoundedStrings.CopiedFits | src/strlcpy.cc:46-69 | The first siz - 1 characters, NUL-terminated within siz, nothing beyond written; the result is at least siz exactly when it truncated. |
| BoundedStrings.AppendedFits | src/strlcat.cc:50-75 | The same for an append to a string terminated within siz. |
| BoundedStrings.UnterminatedIsLeftAlone | src/strlcat.cc:57-64 | A buffer without NUL within siz is left alone, and the result reports truncation. |
| BoundedStrings.ChainKeepsPrefix | src/strlcat.cc:50-75 | A copy and any chain of appends leave the terminated first siz - 1 characters of the whole concatenation and write nothing at or beyond siz; each call reports truncation exactly when it truncated. |
| BoundedStrings.ChainTruncatesIffReported | src/strlcat.cc:50-75 | The concatenation does not fit exactly when some call of the chain returned siz or more. |
| TokenRuns.RunsExact | include/nebula/text_file_parser.h:72-85 | The tokens are exactly the maximal delimiter-free runs. |
| TokenRuns.RunsInOrder | include/nebula/text_file_parser.h:72-85 | Each once, in the order of the text, apart from each other. |
| TokenRuns.TokenReadsAsRun | include/nebula/text_file_parser.h:92-95 | Read as a C string in the cut buffer, each recorded token is its run of the original text. |
| TextTokens.StrtokR | include/nebula/text_file_parser.h:78-83 | `strtok_r` in place: the next run, one NUL over the delimiter after it, and where to go on. |
| TextTokens.Tokens.constructor | include/nebula/text_file_parser.h:52-57 | Starts empty; a hint of 0 means 32. |
| TextTokens.Tokens.SaveTokenAddr | include/nebula/text_file_parser.h:98-123 | Appends one address, growing a full table by the hint and keeping what it holds; the capacity stays a multiple of the hint. |
| TextTokens.Tokens.Token | include/nebula/text_file_parser.h:92-95 | The recorded address, NULL exactly beyond the last. |
| TextTokens.Tokens.SplitString | include/nebula/text_file_parser.h:72-85 | Whatever the object held before, records the starts of the maximal runs in order; the count is at most the capacity, which grows only by the hints needed. |
| TextLines.LinesJoin | include/nebula/text_file_parser.h:186-187 | The lines read are the whole file, nothing lost or added. |
| TextLines.LinesAreProper | include/nebula/text_file_parser.h:186-187 | A newline ends a line and is nowhere else in it; only the last line may lack one. |
| TextLines.StrippedAsDocumentedIff | include/nebula/text_file_parser.h:188-194 | The stripping is the documented one exactly unless the line ends in CR CR. |
| TextLines.TwoReturnsHappen | include/nebula/text_file_parser.h:186-194 | There is a file whose last line does. |
| TextLines.TokensAreRuns | include/nebula/text_file_parser.h:188-195 | A line's tokens are the maximal delimiter-free runs of what the documented stripping leaves (less one more CR when the line ends in two). |
| TextLines.SkippedIff | include/nebula/text_file_parser.h:196-198 | A line is skipped exactly when that was asked for and it has no character but delimiters. |
| TextLines.CalledIffReached | include/nebula/text_file_parser.h:182-202 | A line causes a call with its own number and tokens exactly when it is not skipped and every call before returned 0. |
| TextLines.CallIsForItsLine | include/nebula/text_file_parser.h:182-202 | Every call is for one of the lines, with its number and tokens. |
| TextLines.CallsInOrder | include/nebula/text_file_parser.h:186-202 | Calls come in the order of the lines, at most one for each. |
| TextLines.ResultIsLast | include/nebula/text_file_parser.h:199-205 | The result is that of the last call, which alone may be non-zero, or 0. |
| TextFileParsers.StringsAreTexts | include/nebula/text_file_parser.h:195-199 | What a callback reads through the tokens is the text of the line's runs. |
| TextFileParsers.TextFileParser.StripLine | include/nebula/text_file_parser.h:188-194 | Writes NULs over the end of the line in place. |
| TextFileParsers.TextFileParser.ParseLineByLine | include/nebula/text_file_parser.h:165-206 | Makes exactly the calls of `TextLines.Calls` on the file's lines and returns their result, -1 for a file that cannot be opened; the file is closed. |
| Random.Prng.RandomU32 | include/nebula/random.h:62-69 | Mixes the next two draws, the first one on top. |
| Random.Prng.RandomU64 | include/nebula/random.h:71-79 | Mixes two 32-bit results, the first one on top, from four draws. |
| Random.U32Splits | include/nebula/random.h:62-69 | The low 13 bits of the first draw and the high 19 of the second, side by side. |
| Random.U64Splits | include/nebula/random.h:71-79 | The first 32-bit result above the second. |
| Random.U32IsUniform | include/nebula/random.h:62-69 | Over all pairs of 31-bit draws every 32-bit value has exactly 2^30 preimages. |
| Random.U64IsUniform | include/nebula/random.h:71-79 | Over all quadruples of draws every 64-bit value has exactly 2^60 preimages. |

## Left out

- Sockets, pthread creation, the clock and epoll itself: parameters or steps with contracts, see above.
- An `epoll_wait` error is the empty batch; the -1 that `processFdEvents` then returns, which `eventLoop` ignores, is not modelled.
- Allocation failure everywhere, and with it the error returns of `initialize` and `saveTokenAddr`.
- Mask bits outside `RDWR`: `Mask` has the two bits the loop looks at.
- Overflow of 64-bit deadlines and of the 32-bit capacity of `Tokens`: these are unbounded integers here; the timer id, the histogram's fields and the `int` timeout do wrap or truncate.
- `close(fd)` in `removeFd`, and exceptions raised by callbacks.
- The slot at index -1 that a second drop from an empty ready list, or from a timer table that a callback emptied, would read; the model leaves the slots as they are there, and the contracts of `ProcessReadyFds` and `ProcessTimeEvents` exclude it. The counter's fall to -1 is modelled.
- AsyncEvents.AsyncEvent.EventLoop: runs for the rounds it is given, any finite part of what the loop does, because a loop that need not end has no result to state.
- ProducerConsumer.Consumer.FetchTaskletAndExecute: one thread alone; interleavings are in `Tasklets`, the connection in `SoloCalls`.
- ProducerConsumer.Producer.GenerateTaskletAndDispatch: one thread alone; interleavings are in `Tasklets`, the connection in `SoloCalls`.
- `Consumer::routine`, whose loop runs while the stop flag is up, and the result reporting in `Tasklet::execute`.
- Weak memory: `LogServers` steps are sequentially consistent.
- Log formatting, log files and their rotation, time formatting, percentages and bars in `Histogram::toString`.
- Threads.LogServer.CheckStopFlag: does not write the log message.
- `random_r` itself: draws are given; `randomI32` and `randomI64` only reinterpret.
- async_io, file_system, hardwareinfo, misc, mutex, endian and suffix parsing in string.cc: thin wrappers over system calls or single-branch facts.
