# Rain's asynchronous core, modelled and proved in Dafny

Rain is a C++ runtime for coroutines: one event loop per core with an epoll reactor and a timer
wheel, awaiters that race the two against cancellation, a channel and a thread pool for the other
threads, and combinators that race coroutines. This project models those parts and proves what
they promise, over every input, every history and every interleaving.

`dafny verify dfyconfig.toml` checks the whole project.

## What is modelled

- **The timer wheel** (`WheelMath`, `TimerSpec`, `TimerSlotMap`, `WheelLevels`, `TimerWheel`,
  `TimerExamples`). Class `TimerWheel.Wheel` updates levels, cursors, slot map, free stack and
  ready list in place, with the recursive cascade of the source. It refines `TimerSpec.Table`, a
  map from ids to deadlines: each method's contract is one `Step` of that table. The theorems about
  histories (`ExactFiring`, `OnTime`, `IdsAreForOnce`, `LiveOrEnded`, `ExpiryOrder`, `FifoFiring`) are about the
  table. The wheel records its own history of such steps, so they hold of the object: `LiveUntilDueHere`,
  `ExactFiringHere` and `FifoFiringHere` say so. Time is integer nanoseconds; a tick is one millisecond.
- **Firing** (`Firing`): what the reactor and the wheel share, completing a wait and waking its
  coroutine unless somebody else has decided the wait. Wait states live in a map of allocated
  addresses, so reading a freed one would be a domain error.
- **The reactor** (`Reactor`): class `EpollReactor` over a map of armed directions per descriptor
  that stands for the kernel's side.
- **The wait protocol** (`WaitProtocol`): reactor event, timer expiry and stop callback race for a
  suspended coroutine, in the phases of `EventLoop::run` and against the wheel's clock, as a state
  machine over its steps.
- **The event loop of one core** (`EventLoop`, `LoopMirror`): class `EventLoop.Loop` drives an
  `EpollReactor` object, a `Wheel` object and the awaiters' fields through the same phases. Each of
  its methods extends a recorded run of the wait protocol, so the protocol's theorems hold of the
  objects: `ListedOnceHere`, `DecisionStandsHere`, `NothingDangles`, `PendingIsServed` and `DelayHere`
  say so in their terms.
- **Threads**: `ChannelSpec` (all interleavings of the channel's critical sections, with spurious
  wake-ups and timeouts), `Channel` (the object, each critical section a method), `ThreadPool`,
  `CrossCore` (submitting to a loop from other threads) and `Bridge` (`spawn_blocking`).
- **Combinators** (`Combinators`): `when_all`, `when_any`, `timeout` under every completion order.

## What the proofs found

- **Early timers.** A cascade measures distances from the tick after the one it is processing
  (`src/async/timer.hpp:129-130`). A timer set at least 16384 ticks ahead whose deadline tick is 256
  modulo 16384 is dropped into the slot being processed and fires 256 ticks early. `OnTime` gives
  the exact family, `FireOffset` states it of the wheel itself for every phase and delay, and
  measuring from the processed tick removes the family (`OnTimeRepaired`, `FireOffset` with `lead` 0).
  Everything else with a deadline not in the past fires exactly in the tick that leaves its deadline
  tick. The tests ask for `delay` to `delay + 2` ticks (`test/timer_test.cpp:33-40`): the family is
  at `delay - 255`, all other delays at `delay + 1`.
- **Past deadlines** wait up to 255 ticks (`OnTime`): the slot is taken from the raw deadline.
- **`next_deadline`** is the first timer met on the lowest occupied level, not the earliest of all. On
  level 0 a slot answers with the timer listed first, so of two timers for one tick the one set first
  is reported even if the other's deadline within the tick is earlier (`FirstSetReported`).
  An answer from levels 0 to 2 can be trusted up to the next visit of the level above. An answer from
  level 3 can be trusted within one turn of that level's cursor, 67,108,864 ticks from its next visit,
  and in the last slot of its scan, whatever the other timers are (`EarliestOfAll`; before the first
  tick answers from levels 0 to 2 are always right, `EarliestAtStart`). Both bounds are exact: for
  every wheel time and every answer past them there is a wheel that gives this answer with an earlier
  timer live (`Overtaken`, from the first tick on; `OvertakenOnTop`, from the start). After 100 ticks
  350 ms may be reported with 256 ms live (`LaterDeadlineReported`), at the start 68,157,440 ms with
  2,097,152 ms live (`LaterOnTop`).
- **A timed wait can end early, with the timers.** The wait of a coroutine is ended by its timer only
  after its full delay, except in the early family, where it is ended 256 ticks before (`DelayHere`).
- **A timed wait without time left** deregisters a direction it never registered. That is harmless
  exactly when nobody is parked there (`ZeroTimeoutIsSafeIff`, `ZeroTimeoutExample`).
- **Cancelling from another thread** takes a descriptor wait off its own loop without listing it
  there, and that loop never resumes it (`OffCoreStrandsIff`, `StrandedForever`). If the other thread
  runs no loop, as the thread that calls `Runtime::request_graceful_stop` may, nobody lists the
  coroutine. If it runs a loop of its own, that loop lists a coroutine that is not waiting with it,
  which breaks that loop's invariant (`OffCoreExample` has both). A sleep wakes itself through the
  wheel.
- **A task submitted after the loop's last drain** is accepted and never runs; for the exit with
  nothing owned `RunsIffDrained` is the exact condition, although a comment
  (`src/async/event_loop.hpp:223`) reads as if draining before the exit closed this window. After a
  stop request or a poll error drained tasks may be left too (`StopLeavesDrained`).
- **A failing eventfd write** in `submit` reports an error although the task stays queued and may run.
  The loop is still told of the task exactly if another write is to be reported or a drain has taken
  it already (`FailedWriteIsHarmlessIff`, `FailedWriteExample`).
- **`when_any` and `timeout`** move the result out twice, so the caller gets what the first move
  left behind: the winner itself exactly if moving leaves it unchanged (`WhenAny`, `Timeout`).
- **A pool without workers** accepts tasks it never runs (`ShutdownDrains` is an equivalence;
  `EmptyPoolExample`).
- **A failing eventfd write** in `spawn_blocking` leaves the coroutine suspended until the loop is
  torn down (`FailedRingStrands`, `FailedRingExample`). Once the worker is through with the function,
  it is the only thing that keeps the sleeper from being woken (`WokenIffRungWell`); a pool without
  workers, or a function that never returns, keeps it asleep before that.

## Parameters in place of the outside world

The clock is an argument (`AdvanceTo`, the wheel's constructor). `coroutine_handle::done()` is the
set `done` of finished handles. Kernel events are the lists given to `Poll`; the outcomes of
`epoll_ctl` are the argument `Ctl`. Scheduling of threads, spurious wake-ups and timeouts are the
free choice of the next step. `Wheel.lead` is 1 for the source and 0 for the repaired wheel.

## Assumptions

- Fewer than 2^24 timers at a time and fewer than 2^40 uses of one index, as the comment at
  `src/async/timer.hpp:221-224` states (`HasRoom`; `RoomEnough` bounds it by the number of timers
  ever scheduled).
- In `Reactor`, re-arming a registered descriptor succeeds, as the source ignores that result;
  registration may fail.
- In `WaitProtocol`, stop callbacks run on the owner core (`src/async/task.hpp:75-76`) while
  coroutines are being resumed, and no descriptor is closed while somebody is parked on it. Nothing
  in the source enforces the first: `Runtime::request_graceful_stop` (`src/runtime/runtime.hpp:151`)
  runs the callbacks of every loop on its caller's thread (`src/runtime/executor.hpp:176-181`).
  `OffCoreStrandsIff` says what that does, for callers with and without a loop; the race of two
  threads on one reactor or wheel is not modelled.

## Model

| member | source | states |
|---|---|---|
| `WheelMath.DistanceInTicks` | src/async/timer.hpp:199-207 | measuring from the wheel's time, truncated toward zero and clamped, is the tick distance, for every sign and fraction of the deadline |
| `WheelMath.PlaceFresh` | src/async/timer.hpp:209-217 | at every phase and for every deadline, past or beyond the horizon, a new timer lands in a slot that serves it in tick `DueTick` |
| `WheelMath.PassBy` | src/async/timer.hpp:254-306 | a timer in a slot that a tick does not visit is still on time after the tick |
| `WheelMath.Redistribute` | src/async/timer.hpp:295-302 | whatever a cascade takes out of the visited slot of any level it puts back where it will still be served in its due tick |
| `WheelMath.CursorVisits` | src/async/timer.hpp:282-304 | advancing `current_slot` modulo the size keeps it at ceil(T / span) |
| `WheelMath.CursorWraps` | src/async/timer.hpp:256-293 | a level stands at slot 0 at a visit exactly when the next level is due for a visit |
| `TimerSpec.LiveUntilDue` | src/async/timer.hpp:86-131 | in every history a scheduled timer is live exactly until it is cancelled or its due tick has passed |
| `TimerSpec.ExactFiring` | src/async/timer.hpp:127-131 | a tick expires a timer if and only if it leaves the due tick fixed at scheduling and no cancel came before |
| `TimerSpec.OnTime` | src/async/timer.hpp:196-219 | the due tick is the deadline tick exactly outside the early family and the past; 256 early in the family; within 255 ticks for the past |
| `TimerSpec.OnTimeRepaired` | src/async/timer.hpp:286-306 | with cascades measuring from the processed tick, every deadline not in the past is met exactly |
| `TimerSpec.IdsAreForOnce` | src/async/timer.hpp:91-125 | in every history no id is issued twice and each id sees at most one successful cancel or expiry |
| `TimerSpec.LiveOrEnded` | src/async/timer.hpp:86-131 | conservation: a scheduled timer is out of the table if and only if a cancel or an expiry took it out |
| `TimerSpec.ExpiryOrder` | src/async/timer.hpp:260-280 | expiries come in strictly increasing due ticks from tick to tick |
| `TimerSpec.FifoFiring` | src/async/timer.hpp:196-219 | first set, first fired: of two timers set in the same tick for the same deadline tick, a tick that expires both fires the one set first before the other |
| `TimerSpec.LiveDeadlineAhead` | src/async/timer.hpp:133-140 | a timer scheduled for a deadline not in the past is never overdue while it is live |
| `TimerSpec.SweptNext` | src/async/timer.hpp:133-140 | one more tick appends its expiries, in order of due tick, to those of the ticks before |
| `Firing.FireAllAppend` | src/async/timer.hpp:263-280 | firing two batches in turn is firing their concatenation |
| `Firing.FireAllStates` | src/async/timer.hpp:268-274 | a wait state decided before, or belonging to nobody who fires, keeps its value; a change is some firing waiter's completion |
| `Firing.Independent` | src/async/timer.hpp:263-280 | of waiters with wait states of their own exactly those undecided before take their completion and wake their unfinished coroutines, in order; a waiter without a wait state counts as undecided |
| `TimerSlotMap.PackRoundTrip` | src/async/timer.hpp:225-229 | packed ids are 64-bit numbers in one-to-one correspondence with (index, generation); a used id is never 0 |
| `TimerSlotMap.HoldsIffLive` | src/async/timer.hpp:232-241 | the lookup test accepts exactly the live ids and finds their own entries, however often the index was reused |
| `TimerSlotMap.Claim` | src/async/timer.hpp:91-106 | claiming an index issues a fresh id and keeps the free stack (exactly the inactive indices, no duplicates) and the active count exact |
| `TimerSlotMap.Release` | src/async/timer.hpp:244-252 | releasing a live id frees its index and keeps all other timers, the free stack and the count exact |
| `TimerSlotMap.Grow` | src/async/timer.hpp:96-99 | appending an empty slot is as good as finding its index on the free stack |
| `TimerSlotMap.RoomEnough` | src/async/timer.hpp:221-224 | indices and generations cannot run out before 2^24 - 1 timers were scheduled |
| `WheelLevels.AddConsistent` | src/async/timer.hpp:196-219 | placing a new timer keeps the placement invariant: each live id once, in a slot visited in time |
| `WheelLevels.ForgetConsistent` | src/async/timer.hpp:111-125 | cancelling leaves a stale id in its slot and the placement invariant intact |
| `WheelLevels.TakeConsistent` | src/async/timer.hpp:295 | emptying the visited slot leaves every other timer in time and puts exactly the slot's timers in flight |
| `WheelLevels.RedealConsistent` | src/async/timer.hpp:296-302 | putting one timer back in a cascade keeps the placement invariant |
| `WheelLevels.DropHeadConsistent` | src/async/timer.hpp:263-280 | every live id met in the visited bottom slot is due now, and dropping it keeps the invariant |
| `WheelLevels.OrderlyPut` | src/async/timer.hpp:296-302 | a cascade keeps timers set in the same tick for the same deadline tick together and in the order they were set |
| `WheelLevels.OrderlyAdd` | src/async/timer.hpp:196-219 | a new timer comes after all its like |
| `WheelLevels.NextInTurn` | src/async/timer.hpp:263-280 | what the visited bottom slot expires next is the first set of its like that is left |
| `WheelLevels.RestIsLater` | src/async/timer.hpp:254-284 | after the visits of a tick everything still live is due later |
| `WheelLevels.QuietAbove` | src/async/timer.hpp:291-293 | when a level is not visited neither is any above, and all of those are up to date |
| `WheelLevels.EarliestOfAll` | src/async/timer.hpp:142-176 | a reported timer is the earliest of all live timers (by due tick from the bottom level, by deadline tick from the others) if its tick comes no later than the next visit of the level above, or, from the top level, within one turn of the cursor or in the last slot of the scan; nothing is asked of the other timers |
| `WheelLevels.EarliestAtStart` | src/async/timer.hpp:142-176 | before the first tick an answer from levels 0 to 2 is always the earliest deadline tick, one from level 3 within one turn or in the last slot of the scan |
| `WheelLevels.FirstSetIsReported` | src/async/timer.hpp:142-176 | of timers set in the same tick for the same deadline tick the one set first is reported, unless on an upper level another has an earlier deadline within that tick |
| `TimerWheel.Wheel.constructor` | src/async/timer.hpp:61-64 | a new wheel is valid and its table empty |
| `TimerWheel.Wheel.Place` | src/async/timer.hpp:196-219 | the id is appended to one slot, chosen by the tick distance and the absolute deadline tick |
| `TimerWheel.Wheel.ScheduleAt` | src/async/timer.hpp:86-109 | one Schedule step of the table: fresh id, due tick fixed by deadline and wheel time, invariant kept |
| `TimerWheel.Wheel.Cancel` | src/async/timer.hpp:113-125 | one Cancel step of the table: true exactly for live ids, nobody else touched |
| `TimerWheel.Wheel.Release` | src/async/timer.hpp:244-252 | removes a live id, does nothing for a stale one |
| `TimerWheel.Wheel.Redeal` | src/async/timer.hpp:296-302 | one iteration of a cascade: stale ids are dropped, live ones put back in time |
| `TimerWheel.Wheel.Cascade` | src/async/timer.hpp:286-306 | afterwards this level and all above have done the visits of the tick; only timers in visited slots moved |
| `TimerWheel.Wheel.Fire` | src/async/timer.hpp:268-278 | completes a pending wait and wakes an unfinished coroutine; leaves a decided wait alone |
| `TimerWheel.Wheel.ExpireSlot` | src/async/timer.hpp:263-280 | all and only the live ids of the slot leave the table, in order, each firing once |
| `TimerWheel.Wheel.ProcessCurrentSlot` | src/async/timer.hpp:254-284 | what leaves the table is due in this tick; cursors and placement are those of the next tick |
| `TimerWheel.Wheel.Tick` | src/async/timer.hpp:127-131 | one Tick step of the table: exactly the timers due now expire, first set first fired among their like; their effects are those of firing them in order |
| `TimerWheel.Wheel.AdvanceTo` | src/async/timer.hpp:133-140 | ends within one tick past the target; exactly what was due on the way expired, in order of due tick, and among their like in the order they were set |
| `TimerWheel.Wheel.LiveUntilDueHere` | src/async/timer.hpp:86-131 | a timer scheduled at any point of the object's life is live now if and only if it was not cancelled since and its due tick has not passed |
| `TimerWheel.Wheel.ExactFiringHere` | src/async/timer.hpp:127-131 | of all ticks of the object's life exactly the one that left the due tick expired the timer, unless it was cancelled before |
| `TimerWheel.Wheel.FifoFiringHere` | src/async/timer.hpp:196-219 | first set, first fired, in the object's own life |
| `TimerWheel.Wheel.ScanLevel` | src/async/timer.hpp:148-173 | the timer of the level that is met first: in the first occupied slot from the cursor on, on the bottom level the live timer listed first there, above it the one with the earliest deadline and of several the first listed; none if the level is empty |
| `TimerWheel.Wheel.NextDeadline` | src/async/timer.hpp:142-176 | some exactly when a timer is live; the deadline of the timer met first on the lowest occupied level; of timers set in the same tick for the same deadline tick the one set first, unless on an upper level another's deadline is earlier |
| `TimerExamples.FireOffset` | test/timer_test.cpp:14-27 | for every phase and every delay, driving the wheel tick by tick: the timer fires after delay + 1 ticks, and after delay - 255 exactly in the early family; always after delay + 1 on the repaired wheel |
| `TimerExamples.EarlyExample` | src/async/timer.hpp:129-130 | a delay of 16640 from the start, on the wheel as written and on the repaired one |
| `TimerExamples.Overtaken` | src/async/timer.hpp:142-176 | the bound of `EarliestOfAll` is exact on levels 0 to 2: for every wheel time after the start and every tick past the bound, past deadlines included, a wheel that reports it while an earlier timer is live |
| `TimerExamples.OvertakenOnTop` | src/async/timer.hpp:142-176 | the bound is exact on level 3: for every wheel time and every tick neither within one turn nor in the last slot, a wheel that reports it while an earlier timer of the same level is live |
| `TimerExamples.LaterOnTop` | src/async/timer.hpp:142-176 | a new wheel that reports 68157440 ms while its timer for 2097152 ms is live |
| `TimerExamples.LaterDeadlineReported` | src/async/timer.hpp:142-176 | a wheel that reports 350 ms while its timer for 256 ms is live |
| `TimerExamples.FirstSetReported` | src/async/timer.hpp:148-155 | a wheel with timers set for 10.9 ms and then 10.1 ms reports 10.9 ms |
| `Reactor.EpollReactor.Register` | src/async/io_reactor.hpp:174-204 | the three error cases and success, exactly; a failure rolls back; parked waiters stay armed exactly for their directions |
| `Reactor.EpollReactor.Deregister` | src/async/io_reactor.hpp:252-264 | only the given direction goes; the other stays parked and armed |
| `Reactor.EpollReactor.DeregisterAll` | src/async/io_reactor.hpp:245-249 | both directions go, nobody else's |
| `Reactor.EpollReactor.RearmOrErase` | src/async/io_reactor.hpp:330-346 | the descriptor is armed for exactly the directions still parked |
| `Reactor.EpollReactor.Fire` | src/async/io_reactor.hpp:313-327 | completes a pending wait and wakes its coroutine; leaves a decided wait alone |
| `Reactor.EpollReactor.Poll` | src/async/io_reactor.hpp:121-165 | a reader leaves exactly if some event on its descriptor is readable or an error, a writer exactly if one is writable or an error; they are fired in the order of the first events that concern them, a reader before the writer of the same event; everybody else stays parked, and armed although the reported descriptors were disarmed |
| `WaitProtocol.CancelKeeps` | src/net/io_awaiters.hpp:239-248 | a stop callback on a pending wait withdraws both registrations and lists the coroutine once |
| `WaitProtocol.ParkKeeps` | src/net/io_awaiters.hpp:216-234 | suspending registers in both places and lists nowhere |
| `WaitProtocol.ResumeKeeps` | src/net/io_awaiters.hpp:253-275 | resuming withdraws the registration the wait did not win by |
| `WaitProtocol.NextKeeps` | src/async/event_loop.hpp:211-258 | every step of the core, in phase order, keeps the protocol's invariant |
| `WaitProtocol.RunInv` | src/async/event_loop.hpp:211-258 | in every state of every run a pending wait is listed nowhere and a decided one exactly once |
| `WaitProtocol.DecidedUntilResumed` | src/net/io_awaiters.hpp:216-275 | a wait leaves Pending once: the decision stays, and the handle stays listed once, until it is resumed |
| `WaitProtocol.NoDanglingRegistration` | src/net/io_awaiters.hpp:253-275 | resuming removes exactly this coroutine's registrations and timers, nobody else's |
| `WaitProtocol.RoundResumesAll` | src/async/event_loop.hpp:211-218 | each round resumes, once each, exactly the coroutines whose waits were decided before it |
| `WaitProtocol.StopEnds` | src/net/io_awaiters.hpp:239-248 | in every run a stop request cancels a pending wait, takes its registration and its timer away and nobody else's, and lists it once; it changes nothing for a decided wait |
| `WaitProtocol.EventEnds` | src/async/io_reactor.hpp:313-327 | in every run an event makes the pending wait registered for it ready, lists it once and takes only that registration away; a wait that timed out is left alone |
| `WaitProtocol.ExpiryEnds` | src/async/timer.hpp:268-278 | in every run the expiry of a timer ends the pending wait it was set for, as timed out or, for a sleep, as ready, and lists it once; a wait the reactor has won is left alone |
| `WaitProtocol.EndedBefore` | src/net/io_awaiters.hpp:216-275 | every decided wait was decided by one step of the run, and nothing has changed it since |
| `WaitProtocol.StateTellsWho` | src/net/io_awaiters.hpp:216-275 | the wait state says who ended the wait: timed out iff the expiry of a timed wait, cancelled iff a stop request after or before it began, ready iff an event or the expiry of a sleep |
| `WaitProtocol.EndsWhenDue` | src/net/io_awaiters.hpp:216-275 | along every run a wait is ended by its timer only once the wheel has left the timer's due tick, and outside the tick phase it is not pending any more once the wheel has |
| `WaitProtocol.ZeroTimeoutIsSafeIff` | src/net/io_awaiters.hpp:218-221 | a timed wait without time left keeps the invariant exactly when nobody is parked on its descriptor and direction |
| `WaitProtocol.ZeroTimeoutExample` | src/net/io_awaiters.hpp:218-221 | a run whose last state has a wait that such a timed wait leaves pending and unregistered |
| `WaitProtocol.OffCoreStrandsIff` | src/net/accept_awaiter.hpp:50-57 | a stop callback on another thread, with or without a loop there: a wait is stranded on its own loop if and only if it is not a sleep, is listed by nobody if and only if moreover the calling thread runs no loop, and otherwise is listed by that loop, whose invariant is broken; a sleep is listed once and both invariants hold |
| `WaitProtocol.OffCoreExample` | src/net/accept_awaiter.hpp:50-57 | a run whose last state has a wait that is stranded by a caller without a loop, and listed by the loop of a caller that has one |
| `WaitProtocol.StrandedForever` | src/net/accept_awaiter.hpp:50-57 | along every continuation of any length of its own loop the coroutine stays cancelled and unlisted there, and no step of that loop resumes it |
| `LoopMirror.PollMirrors` | src/async/io_reactor.hpp:135-162 | firing the waiters that a poll takes out continues the run by one Event step for each, in order, with the same wait states and ready list |
| `LoopMirror.TickMirrors` | src/async/timer.hpp:263-280 | the same for the waiters of expired timers and Expire steps |
| `LoopMirror.MirrorPark` | src/net/io_awaiters.hpp:222-234 | registering with wheel and reactor is parking in the protocol |
| `LoopMirror.MirrorCancel` | src/net/io_awaiters.hpp:239-248 | the stop callback's effect on wheel, reactor and lists is the protocol's cancellation |
| `LoopMirror.MirrorAwaken` | src/net/io_awaiters.hpp:253-275 | `await_resume`'s effect is the protocol's resumption |
| `LoopMirror.MirrorTick` | src/async/timer.hpp:133-140 | a run of the wheel's ticks is an Advance of the protocol's clock and one Expire step for each timer due before it, in order |
| `LoopMirror.PollDecides` | src/async/io_reactor.hpp:135-162 | a poll makes exactly the pending waits that one of its events concerns ready and leaves every other wait state alone |
| `LoopMirror.TicksDecide` | src/async/timer.hpp:263-280 | a run of ticks ends exactly the pending waits whose due tick it leaves, and leaves every other wait state alone |
| `LoopMirror.MirrorAllocated` | src/async/timer.hpp:111-112 | whatever reactor or wheel may dereference is the wait state of a suspended awaiter, hence allocated |
| `EventLoop.Loop.Enlist` | src/net/io_awaiters.hpp:224-234 | both registrations or, if the reactor refuses, neither |
| `EventLoop.Loop.Suspend` | src/net/io_awaiters.hpp:216-251 | one Suspend step of the protocol on the real objects, with the due tick that the wheel gives the delay; the wait is pending, or cancelled at once if a stop was requested before; a refusal leaves no wait |
| `EventLoop.Loop.Callback` | src/net/io_awaiters.hpp:239-248 | cancels a pending wait, withdraws both registrations and lists the coroutine; does nothing to a decided wait |
| `EventLoop.Loop.StopRequested` | src/net/io_awaiters.hpp:239-248 | one Stop step: a pending wait is cancelled, no reactor slot and no live timer is left for it, and its coroutine is put at the end of the ready queue, or for a sleep of the wheel's ready list, and so is listed once; for a decided wait no wait state and no list changes |
| `EventLoop.Loop.AwaitResume` | src/net/io_awaiters.hpp:253-275 | reports cancelled, timed out or completed as the wait state says, and withdraws the registration the wait did not win by |
| `EventLoop.Loop.ResumeNext` | src/async/event_loop.hpp:216-218 | one Resume step of the first on the list, whose wait state is freed; it reports a timeout iff the expiry of a timed wait ended the wait in the recorded run, a cancellation iff a stop request did, completion iff an event or the expiry of a sleep did |
| `EventLoop.Loop.RunPoll` | src/async/event_loop.hpp:243-250 | exactly the pending waits that an event concerns become ready; those woken are queued in the order of the events; the recorded run is continued by one Event step for each waiter taken out, in order, and an EndPoll step |
| `EventLoop.Loop.AdvanceTimers` | src/async/event_loop.hpp:252-253 | exactly the pending waits whose due tick has passed are ended; the recorded run is continued by an Advance step and one Expire step for each timer due on the way, in order |
| `EventLoop.Loop.BeginRound` | src/async/event_loop.hpp:212-254 | draining the wheel and swapping the ready queue in is an EndTick step |
| `EventLoop.Loop.PollAndTick` | src/async/event_loop.hpp:243-258 | from poll to swap, no decision is overturned, a pending wait is decided by an event if one concerns it and else by its timer if that is due, and the next round's list is, once each, exactly the coroutines whose waits are decided |
| `EventLoop.Loop.WaitNoTime` | src/net/io_awaiters.hpp:218-221 | a timed wait without time left takes away whoever is parked there; the loop is in order afterwards exactly if nobody was |
| `EventLoop.Loop.ListedOnceHere` | src/net/io_awaiters.hpp:216-275 | over the four real lists, a handle occurs once if its wait is decided and never while it is pending |
| `EventLoop.Loop.DecisionStandsHere` | src/net/io_awaiters.hpp:216-275 | a decision taken at any earlier point of the loop's life stands in the awaiter's wait state, listed once, unless the coroutine was resumed since |
| `EventLoop.Loop.NothingDangles` | src/net/io_awaiters.hpp:253-275 | every reactor slot and every live timer points to a coroutine suspended on exactly that |
| `EventLoop.Loop.PendingIsServed` | src/net/io_awaiters.hpp:224-228 | a pending wait is registered with everybody who can end it |
| `EventLoop.Loop.DelayHere` | src/net/io_awaiters.hpp:224 | from suspension to resumption: the timer has ended the wait only if more than its delay has passed in wheel time (256 ticks less in the early family), and outside the tick phase the wait is pending only if no more than that has |
| `ChannelSpec.StepKeeps` | src/sync/channel.hpp:23-102 | every critical section keeps order, bound and cover of sleepers by notified threads |
| `ChannelSpec.RunInv` | src/sync/channel.hpp:23-102 | in every interleaving: accepted = received + queue, the bound holds, no wake-up is lost, nobody sleeps once closed |
| `ChannelSpec.RepliesTell` | src/sync/channel.hpp:23-94 | exactly a reply of Sent appends the offered value to what is accepted, exactly a reply of Got takes the oldest queued value; nothing goes in once closed |
| `ChannelSpec.AnsweredByState` | src/sync/channel.hpp:23-94 | in every run a receive of any kind gets an item iff one is queued, a send of any kind is accepted iff the channel is open with room, and every other reply has its exact condition |
| `ChannelSpec.BlockedSleeps` | src/sync/channel.hpp:23-102 | a thread waits after its call iff the reply was Blocked, on its own side; exactly a close closes, and nobody sleeps through it |
| `ChannelSpec.CanSend` | src/sync/channel.hpp:23-55 | in every state a thread that is not waiting can send, with or without waiting for room, and is answered at once |
| `ChannelSpec.HeldSinceCall` | src/sync/channel.hpp:23-37 | a blocked sender holds the value of its own call for as long as it waits |
| `ChannelSpec.NothingMeansDrained` | src/sync/channel.hpp:57-68 | a blocking receive comes back empty only from a closed channel whose every item is delivered, for good |
| `ChannelSpec.SleepingReceiverIsServed` | src/sync/channel.hpp:57-68 | a receiver that sleeps while an item is queued is covered by another that can take it now |
| `ChannelSpec.SleepingSenderIsServed` | src/sync/channel.hpp:23-37 | a sender that sleeps while there is room is covered by another that can send now |
| `Channel.Channel.Send` | src/sync/channel.hpp:23-37 | one StartSend step; blocks only when full and open |
| `Channel.Channel.SendAgain` | src/sync/channel.hpp:27-36 | one ResumeSend step: the predicate is tested again after a wake-up |
| `Channel.Channel.TrySend` | src/sync/channel.hpp:39-55 | one TrySend step; closed is reported before full |
| `Channel.Channel.Recv` | src/sync/channel.hpp:57-68 | one StartRecv step |
| `Channel.Channel.RecvAgain` | src/sync/channel.hpp:60-67 | one ResumeRecv step |
| `Channel.Channel.RecvExpired` | src/sync/channel.hpp:84-93 | one ExpireRecv step: a timed receive tests its predicate a last time |
| `Channel.Channel.TryRecv` | src/sync/channel.hpp:69-79 | one TryRecv step |
| `Channel.Channel.Close` | src/sync/channel.hpp:95-102 | one Close step: everybody asleep is notified |
| `ThreadPool.NextKeeps` | src/runtime/thread_pool.hpp:69-128 | every move of submitters, workers and shutdown keeps the pool's invariant |
| `ThreadPool.ShutdownDrains` | src/runtime/thread_pool.hpp:94-105 | when shutdown returns every accepted task has run exactly once, if and only if there is a worker or nothing was accepted |
| `ThreadPool.SentIffAccepted` | src/runtime/thread_pool.hpp:69-92 | a submission, also one that was blocked first, is answered Sent iff exactly the task of that call is accepted, and otherwise nothing is |
| `ThreadPool.SentIffOpen` | src/runtime/thread_pool.hpp:69-92 | when a submission is accepted and when it is refused as closed or full |
| `ThreadPool.EverySubmissionHasATask` | src/runtime/thread_pool.hpp:69-92 | every move that goes on with a submission is for the task of one earlier call of that thread |
| `ThreadPool.CanSubmit` | src/runtime/thread_pool.hpp:69-92 | in every run a thread that is no worker and not waiting can submit and spawn |
| `ThreadPool.CanSubmitAgain` | src/sync/channel.hpp:23-37 | a blocked submitter that is awake can go on; one that is asleep may wake without being notified |
| `ThreadPool.WorkerGoesOn` | src/runtime/thread_pool.hpp:118-128 | a worker that is neither waiting nor gone can fetch the next task or finish its own, and does not stay as it was |
| `ThreadPool.EachSentRuns` | src/runtime/thread_pool.hpp:94-105 | when shutdown returns from a pool with a worker, each submission answered Sent has a position of its own among those accepted, with its task, that has run exactly once |
| `ThreadPool.ShutdownStarts` | src/runtime/thread_pool.hpp:94-105 | shutdown gets as far as joining, with the channel closed, whatever the workers do |
| `ThreadPool.EmptyPoolExample` | src/runtime/thread_pool.hpp:94-105 | a run in which a pool without workers accepts a task, shuts down and has not run it |
| `ThreadPool.OnlyAcceptedRun` | src/runtime/thread_pool.hpp:118-128 | at any time only accepted tasks have run, none twice |
| `ThreadPool.JoinNotStuck` | src/runtime/thread_pool.hpp:94-105 | while shutdown joins, every worker that has not exited can take a step |
| `ThreadPool.JoinEnds` | src/runtime/thread_pool.hpp:94-105 | from the join on the workers make exactly as many moves as a measure goes down, whatever submitters do, and with no worker left shutdown can return |
| `CrossCore.NextKeeps` | src/async/event_loop.hpp:156-347 | every step of the loop, of spawning on it and of any number of submitters and stoppers, with any write failing, keeps each task in one place and announced unless its own write failed |
| `CrossCore.FailedWriteIsHarmlessIff` | src/async/event_loop.hpp:198-201 | a failed write leaves everything queued announced if and only if another write is to be reported or the task was drained already |
| `CrossCore.FailedWriteExample` | src/async/event_loop.hpp:198-201 | a run in which the loop polls with a task queued that nobody announces |
| `CrossCore.PollSeesSubmissions` | src/async/event_loop.hpp:243-247 | a poll entered with tasks queued has a write to report, or each task's submitter is about to write or has had its write fail earlier in the run |
| `CrossCore.ReportedOnce` | src/async/event_loop.hpp:120 | edge-triggered: a poll reports the eventfd again only after another successful write |
| `CrossCore.QueuedUntilDrain` | src/async/event_loop.hpp:335-347 | a submitted task stays queued until the next drain and is never queued again |
| `CrossCore.QueuedInOrder` | src/async/event_loop.hpp:189-203 | of two queued tasks the one submitted first comes first |
| `CrossCore.CompletedIffRan` | src/async/event_loop.hpp:329-333 | a task counts as completed exactly if a step of the loop completed it |
| `CrossCore.CompletedWasDrained` | src/async/event_loop.hpp:335-347 | in every state of every run, whatever has run was drained after its submission |
| `CrossCore.RunsIffDrained` | src/async/event_loop.hpp:223-228 | at the exit with nothing owned, a submitted task has run if and only if a drain followed its submission |
| `CrossCore.RunsIffDrainedAndNotOwned` | src/async/event_loop.hpp:211-261 | at any exit, also by a stop request or a poll error, it has run if and only if it was drained and is not left in the owned set |
| `CrossCore.SpawnedRunsIffNotOwned` | src/async/event_loop.hpp:156-162 | a task spawned on the loop's own thread has run if and only if it is not owned any more |
| `CrossCore.StopMayLeave` | src/async/event_loop.hpp:274-284 | whatever the loop owns at its guard is left behind if a stop is requested there |
| `CrossCore.LeavesIffStopped` | src/async/event_loop.hpp:211 | at its guard the loop leaves iff a stop was requested before; a graceful stop is none |
| `CrossCore.ExitIsFinal` | src/async/event_loop.hpp:211-261 | a failed poll and an exit with nothing owned end the loop, for good |
| `CrossCore.StopLeavesDrained` | src/async/event_loop.hpp:211 | a run in which a drained task is left behind by a stop request |
| `CrossCore.LateSubmitIsLeft` | src/async/event_loop.hpp:223-228 | a run in which a submission succeeds and its task is left behind |
| `CrossCore.AllRunExample` | src/async/event_loop.hpp:207-261 | a run in which an owned, a submitted and a spawned task all run and the loop leaves with nothing left |
| `CrossCore.LoopQueues.DrainCrossCore` | src/async/event_loop.hpp:335-347 | the loop over the queue is a DrainMoves and a DrainReads step: every queued task becomes owned and ready, in order, and none is owned twice |
| `Bridge.NextKeeps` | src/runtime/bridge.hpp:124-200 | every interleaved step of loop and worker keeps the call's invariant |
| `Bridge.ResumedOnceWithResult` | src/runtime/bridge.hpp:187-200 | a resumption comes after the worker wrote, delivers what it wrote or, exactly if reading the eventfd fails, that error, is the only one of the run, and leaves nothing registered from then on |
| `Bridge.DoneDelivers` | src/runtime/bridge.hpp:187-200 | what the coroutine goes on with is what it was resumed with |
| `Bridge.TornDownForGood` | src/runtime/bridge.hpp:121-123 | a coroutine torn down with its loop is never woken or resumed |
| `Bridge.WorkerGoesOn` | src/runtime/bridge.hpp:141-163 | once the pool has the work, a step of the worker takes it further: it runs, writes what the function returned, rings and lets go |
| `Bridge.FrameGoesOn` | src/runtime/bridge.hpp:167-200 | the coroutine can go on whenever it does not sleep: it registers and hands over its work, or is refused, and once woken or refused it takes its answer |
| `Bridge.MayBeTornDown` | src/runtime/bridge.hpp:121-123 | a sleeping coroutine can be torn down with its loop at any time |
| `Bridge.NoUseAfterFree` | src/runtime/bridge.hpp:121-163 | in every interleaving with teardown, whoever goes through the shared pointer finds the cell allocated, the reactor wakes no frame that is gone, and the cell is freed exactly when both owners are gone |
| `Bridge.RefusalLeavesNothing` | src/runtime/bridge.hpp:167-185 | a refused registration or submission leaves nothing registered or queued, and the error in the shared state |
| `Bridge.RefusedByStep` | src/runtime/bridge.hpp:167-185 | a coroutine is refused iff the reactor refused its registration or the pool its work |
| `Bridge.RefusedGetsError` | src/runtime/bridge.hpp:187-200 | a refused coroutine gets the refusal, or the error of a failed read of the eventfd |
| `Bridge.WokenIffRungWell` | src/runtime/bridge.hpp:158-162 | once the worker is through, the reactor can wake the sleeper if and only if no eventfd write failed |
| `Bridge.FailedRingStrands` | src/runtime/bridge.hpp:158-162 | after a failed eventfd write the coroutine sleeps until it is torn down with the loop |
| `Bridge.FailedRingExample` | src/runtime/bridge.hpp:158-162 | a run in which the worker's write fails, the worker is done and the sleeper cannot be woken |
| `Bridge.DeliveryExample` | src/runtime/bridge.hpp:121-200 | a run in which the coroutine is woken, gets the worker's result and goes on, and the shared state is freed |
| `Combinators.WhenAllState.Complete` | src/async/combinators.hpp:219-228 | stores the result at the racer's index and notifies a waiter only with the last one |
| `Combinators.WhenAll` | src/async/combinators.hpp:251-269 | for every completion order and moment of awaiting, result i is at index i and the parent goes on once |
| `Combinators.WinnerIsFirst` | src/async/combinators.hpp:286-305 | the winner is a success with only failures before it, or the last of all failures |
| `Combinators.WhenAnyState.Complete` | src/async/combinators.hpp:286-305 | resolves once, with the winner of the completions so far, stops every source and notifies at most once |
| `Combinators.WhenAny` | src/async/combinators.hpp:331-356 | for every sequence of completions: first success or last failure, every source stopped, one wake-up; what is delivered is what a move leaves behind of the winner |
| `Combinators.TimeoutState.TaskDone` | src/async/combinators.hpp:373-387 | the first of the two racers decides; then nothing changes |
| `Combinators.TimeoutState.TimerDone` | src/async/combinators.hpp:389-405 | the same for the timer; a sleep cut short changes nothing |
| `Combinators.Timeout` | src/async/combinators.hpp:425-442 | for both orders: the first to complete decides, only the loser is stopped, one wake-up; what is delivered is what a move leaves behind of the result |

## Left out

- Sockets, addresses, files, signals: system-call plumbing.
- `Executor`, `Runtime`, fault policies: orchestration over the parts modelled here.
- Coroutine frames and symmetric transfer: a handle is an opaque number.
- `schedule`, `drain_ready`, `wake`: one line each; `SleepAwaiter` is the `Sleep` kind of `EventLoop.Loop.Suspend`.
- Pipe operators, `retry`, `with_deadline_check`: each is one branch or one bounded loop over a task.
- Wall-clock accuracy: all claims about timers are in wheel time.
- Memory orders and cache lines: critical sections are atomic steps.
- Counters of fired timers and of notifications are unbounded; no run reaches 2^32 expiries per call, as at most 2^24 timers are live.
- `ThreadPool`, `CrossCore` and `Bridge` are step machines on values: their subject is the order of steps of several threads, so what the threads update appears as parts of one state.
- `EventLoop.Loop` keeps the awaiters' fields in maps by coroutine and names wait states by their coroutine; what a resumed coroutine does next is the caller's choice of method.
- The value written through a waiter's `result` pointer in the reactor: it is `Ok(0)` whenever the wait is completed.
- `Reactor.EpollReactor.Register`: `register_read` and `register_write` are one method with the direction as an argument.
