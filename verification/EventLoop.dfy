/**
 * One core's event loop over its real parts: the reactor object, the timer wheel object, the
 * awaiters' fields and the lists of handles. `run` records the steps of the wait protocol that the
 * loop has taken; every method extends it, so what `WaitProtocol` proves of every run holds here.
 */
module EventLoop {
  import opened Prelude
  import opened WheelMath
  import opened Firing
  import opened TimerSpec
  import opened TimerSlotMap
  import opened WheelLevels
  import opened TimerWheel
  import opened Reactor
  import opened WaitProtocol
  import opened LoopMirror

  /** What `await_resume` reports. */
  datatype Report = Completed | ErrCancelled | ErrTimedOut

  class Loop {
    const reactor: EpollReactor
    const timer: Wheel

    /** The wait states of the suspended awaiters and their other fields, by coroutine. */
    var mem: Memory
    var awaiters: map<Handle, Awaiting>
    var readyQueue: seq<Handle>
    var scratch: seq<Handle>
    var running: Option<Handle>

    ghost var run: Run

    ghost function PartsNow(): Parts
      reads this, reactor, timer
    {
      Parts(running, readyQueue, scratch, mem, awaiters,
            reactor.slots, reactor.ready, timer.timers, timer.issued, timer.ready, timer.now)
    }

    ghost predicate Valid()
      reads this, reactor, timer
    {
      && reactor.Valid() && timer.Valid() && timer.lead == 1
      && IsRun(run) && Mirror(LastOf(run), PartsNow())
    }

    ghost predicate In(phase: Phase)
      reads this
    {
      run.worlds != [] && LastOf(run).phase == phase
    }

    constructor (clock: int)
      ensures Valid() && In(Resuming) && fresh(reactor) && fresh(timer)
      ensures running == None && awaiters == map[] && scratch == [] && |run.steps| == 0
    {
      reactor := new EpollReactor();
      timer := new Wheel(clock, 1);
      mem, awaiters, readyQueue, scratch, running := map[], map[], [], [], None;
      run := Run([World(Phase.Resuming, 0, None, map[], map[], map[], {}, [], [], [], [])], []);
      new;
      assert SlotsMatch(LastOf(run), reactor.slots) by {
        assert forall fd, d :: EntryAt(reactor.slots, fd, d) == None;
      }
    }

    /** Appends a protocol step that the loop has just taken. */
    ghost method Record(s: Step, w: World)
      requires IsRun(run) && WaitProtocol.Next(LastOf(run), s, w)
      modifies this`run
      ensures IsRun(run) && LastOf(run) == w && Continues(old(run), [s], run)
    {
      ExtendRun(run, s, w);
      run := LoopMirror.Extend(run, s, w);
    }

    /** Starts or continues a coroutine that is not waiting for anything modelled here. */
    method Launch(h: Handle)
      requires Valid() && In(Resuming) && running == None && h !in awaiters
      modifies this
      ensures Valid() && In(Resuming) && running == Some(h) && Continues(old(run), [WaitProtocol.Launch(h)], run)
    {
      ghost var w, p := LastOf(run), PartsNow();
      assert FrameMatches(w, awaiters, h);
      running := Some(h);
      Record(WaitProtocol.Launch(h), w.(running := Some(h)));
      MirrorLists(w, p, LastOf(run));
    }

    /** The running coroutine finishes, or waits for something not modelled here. */
    method Leave()
      requires Valid() && In(Resuming) && running.Some?
      modifies this
      ensures Valid() && In(Resuming) && running == None && Continues(old(run), [WaitProtocol.Leave], run)
    {
      ghost var w, p := LastOf(run), PartsNow();
      running := None;
      Record(WaitProtocol.Leave, w.(running := None));
      MirrorLists(w, p, LastOf(run));
    }

    /** Everything ready has been resumed. */
    method EndRound()
      requires Valid() && In(Resuming) && running == None && scratch == []
      modifies this`run
      ensures Valid() && In(Polling) && Continues(old(run), [EndResume], run)
    {
      ghost var w, p := LastOf(run), PartsNow();
      Record(EndResume, w.(phase := Polling));
      MirrorLists(w, p, LastOf(run));
    }

    /**
     * Polling the reactor and draining what it made ready: exactly the pending waits that an event
     * concerns become ready. The protocol sees one Event step for each waiter taken out, in order;
     * `g` lists them.
     */
    method RunPoll(events: seq<IoReady>) returns (ghost g: PollRun)
      requires Valid() && In(Polling)
      modifies this`mem, this`readyQueue, this`run, reactor
      ensures Valid() && In(Ticking) && Continues(old(run), EventsOf(g.hits) + [EndPoll], run)
      ensures forall h <- awaiters :: h in old(mem) && h in mem && AfterPoll(awaiters[h], old(mem)[h], mem[h], events)
      ensures Polled(g, reactor.slots, mem, old(reactor.ready) + g.woken) && Ordered(g) && AllCaused(g, events)
      ensures Reactor.SameRun(Reactor.Begin(old(reactor.slots), old(mem), old(reactor.ready)), g)
      ensures readyQueue == old(readyQueue) + (old(reactor.ready) + g.woken)
    {
      ghost var start := run;
      g := PollReactor(events);
      ghost var w, q, middle := LastOf(run), PartsNow(), run;
      readyQueue := reactor.DrainReadyInto(readyQueue);
      Record(EndPoll, w.(phase := Ticking, readyQueue := w.readyQueue + w.reactorReady, reactorReady := []));
      MirrorLists(w, q, LastOf(run));
      ContinuesTwice(start, EventsOf(g.hits), middle, [EndPoll], run);
    }

    method PollReactor(events: seq<IoReady>) returns (ghost g: PollRun)
      requires Valid() && In(Polling)
      modifies this`mem, this`run, reactor
      ensures Valid() && In(Polling) && Continues(old(run), EventsOf(g.hits), run)
      ensures forall h <- awaiters :: h in old(mem) && h in mem && AfterPoll(awaiters[h], old(mem)[h], mem[h], events)
      ensures Polled(g, reactor.slots, mem, reactor.ready) && Ordered(g) && AllCaused(g, events)
      ensures Reactor.SameRun(Reactor.Begin(old(reactor.slots), old(mem), old(reactor.ready)), g)
    {
      ghost var p := PartsNow();
      RunInv(run, |run.worlds| - 1);
      MirrorAllocated(LastOf(run), p);
      var completed;
      completed, mem, g := reactor.Poll(events, mem);
      PollDecides(LastOf(run), p, g, reactor.slots, mem, reactor.ready, events);
      run := MirrorPoll(run, p, g, reactor.slots, mem, reactor.ready);
    }

    /**
     * Advancing the timers to the clock: exactly the pending waits whose due tick has passed are
     * ended. The protocol sees the clock move and one Expire step for each timer that expires, in
     * order; `g` lists them.
     */
    method AdvanceTimers(now: int) returns (ghost g: Progress)
      requires Valid() && In(Ticking)
      modifies this`mem, this`run, timer
      ensures Valid() && In(Ticking)
      ensures if old(timer.currentTime) < now then now <= timer.currentTime < now + Ns(1)
              else timer.currentTime == old(timer.currentTime)
      ensures Continues(old(run), [Advance(timer.now)] + ExpiriesOf(g.expired), run)
      ensures forall h <- awaiters :: h in old(mem) && h in mem && TimeDecides(old(PartsNow()), timer.now, mem, h)
      ensures Swept(old(timer.timers), timer.timers, g.expired, timer.now)
      ensures Fifo(timer.startTime, old(timer.timers), g.expired)
    {
      ghost var p := PartsNow();
      RunInv(run, |run.worlds| - 1);
      MirrorAllocated(LastOf(run), p);
      var total;
      total, mem, g := timer.AdvanceTo(now, mem, {});
      TicksDecide(LastOf(run), p, g, timer.now, timer.Reach(mem));
      run := MirrorTick(run, p, g, timer.now, timer.Reach(mem));
    }

    /** Draining what the timers made ready, and swapping everything ready in for resumption. */
    method BeginRound()
      requires Valid() && In(Ticking)
      modifies this`readyQueue, this`scratch, this`run, timer`ready
      ensures Valid() && In(Resuming) && Continues(old(run), [EndTick], run)
      ensures scratch == old(readyQueue) + old(timer.ready)
    {
      ghost var w, p := LastOf(run), PartsNow();
      NothingOverdue(timer.ChartWith([]), timer.now);
      NoneOverdue(w, p);
      readyQueue := timer.DrainReadyInto(readyQueue);
      scratch, readyQueue := readyQueue, [];
      Record(EndTick,
             w.(phase := Resuming, scratch := w.readyQueue + w.timerReady, readyQueue := [], timerReady := []));
      MirrorLists(w, p, LastOf(run));
    }

    /**
     * The rest of a round of `run`: poll, timers, swap. What was decided before stands, and what is
     * to be resumed next is, once each, exactly what is decided now.
     */
    method PollAndTick(events: seq<IoReady>, now: int)
      requires Valid() && In(Polling)
      modifies this`mem, this`readyQueue, this`scratch, this`run, reactor, timer
      ensures Valid() && In(Resuming) && old(run.worlds) <= run.worlds
      ensures forall h :: h in old(mem) && old(mem)[h] != Pending ==> h in mem && mem[h] == old(mem)[h]
      ensures forall h :: Count(scratch, h) == if h in mem && mem[h] != Pending then 1 else 0
      ensures forall h <- awaiters :: h in old(mem) && h in mem &&
                                      AfterRound(awaiters[h], old(timer.timers), timer.now, old(mem)[h], mem[h], events)
    {
      ghost var start, mem0 := run, mem;
      ghost var more := PollThenTimers(events, now);
      ghost var ticked := run;
      BeginRound();
      ContinuesTwice(start, more, ticked, [EndTick], run);
      AllDecisionsStand(start, more + [EndTick], mem0);
    }

    /** Poll and timers, in this order: what an event concerns is ready even if its timer is due as well. */
    method PollThenTimers(events: seq<IoReady>, now: int) returns (ghost more: seq<Step>)
      requires Valid() && In(Polling)
      modifies this`mem, this`readyQueue, this`run, reactor, timer
      ensures Valid() && In(Ticking) && Continues(old(run), more, run) && Resume !in more
      ensures forall h <- awaiters :: h in old(mem) && h in mem &&
                                      AfterRound(awaiters[h], old(timer.timers), timer.now, old(mem)[h], mem[h], events)
    {
      ghost var start, mem0 := run, mem;
      ghost var g := RunPoll(events);
      ghost var polled, p := run, PartsNow();
      ghost var t := AdvanceTimers(now);
      RoundDecides(mem0, p, timer.now, mem, events);
      more := RoundContinues(start, polled, run, g.hits, timer.now, t.expired);
    }

    /** Along steps that resume nobody and end with the swap, decisions stand and fill the list. */
    lemma AllDecisionsStand(start: Run, more: seq<Step>, mem0: Memory)
      requires Valid() && IsRun(start) && Continues(start, more, run) && Resume !in more
      requires more != [] && more[|more| - 1] == EndTick && StatesMatch(LastOf(start), mem0)
      ensures forall h :: h in mem0 && mem0[h] != Pending ==> h in mem && mem[h] == mem0[h]
      ensures forall h :: Count(scratch, h) == if h in mem && mem[h] != Pending then 1 else 0
    {
      forall h | h in mem0 && mem0[h] != Pending ensures h in mem && mem[h] == mem0[h] {
        NoResumeIn(start, more, run, h);
        DecisionStandsHere(h, |start.worlds| - 1);
      }
      forall h ensures Count(scratch, h) == if h in mem && mem[h] != Pending then 1 else 0 {
        RoundLists(run, h);
      }
    }

    // ----- what holds of the objects whenever the loop is at rest -----

    /** A suspended coroutine is listed exactly once if its wait is decided, and nowhere while pending. */
    lemma ListedOnceHere(h: Handle)
      requires Valid()
      ensures Count(reactor.ready, h) + Count(timer.ready, h) + Count(readyQueue, h) + Count(scratch, h)
              == if h in mem && mem[h] != Pending then 1 else 0
    {
      RunInv(run, |run.worlds| - 1);
      assert ListedOnce(LastOf(run), h);
    }

    /** A decision taken at any point of the recorded run stands, listed once, unless the coroutine was resumed. */
    lemma DecisionStandsHere(h: Handle, i: nat)
      requires Valid() && i < |run.worlds| && Decided(run.worlds[i], h)
      requires forall k :: i <= k < |run.steps| ==> !Resumes(run.worlds[k], run.steps[k], h)
      ensures h in mem && mem[h] == run.worlds[i].waits[h].state && h in awaiters
      ensures Count(reactor.ready, h) + Count(timer.ready, h) + Count(readyQueue, h) + Count(scratch, h) == 1
    {
      DecidedUntilResumed(run, i, |run.worlds| - 1, h);
      assert FrameMatches(LastOf(run), awaiters, h) && h in LastOf(run).waits;
    }

    /** Every registration and every live timer points to a coroutine that is suspended on exactly that. */
    lemma NothingDangles(fd: int, d: Dir, id: TimerId)
      requires Valid()
      ensures EntryAt(reactor.slots, fd, d).Some? ==>
                var h := EntryAt(reactor.slots, fd, d).value.handle;
                && h.Some? && h.value in awaiters && UsesIo(awaiters[h.value].kind)
                && (awaiters[h.value].fd, awaiters[h.value].dir) == (fd, d)
      ensures id in timer.timers ==>
                var h := timer.timers[id].entry.waiter.handle;
                h.Some? && h.value in awaiters && awaiters[h.value].timer == Some(id)
    {
      var w := LastOf(run);
      RunInv(run, |run.worlds| - 1);
      assert SlotMatches(w, reactor.slots, fd, d) && SlotOk(w, (fd, d));
      assert TimerMatches(w, timer.timers, id) && TimerOk(w, id);
      if (fd, d) in w.slots {
        assert FrameMatches(w, awaiters, w.slots[(fd, d)]);
      }
      if id in w.timers {
        assert FrameMatches(w, awaiters, w.timers[id]);
      }
    }

    /** A pending wait is known to whoever can end it. */
    lemma PendingIsServed(h: Handle)
      requires Valid() && h in awaiters
      ensures h in mem
      ensures mem[h] == Pending && UsesIo(awaiters[h].kind) ==>
                EntryAt(reactor.slots, awaiters[h].fd, awaiters[h].dir) == Some(IoWaiter(h))
      ensures mem[h] == Pending && awaiters[h].timer.Some? ==> awaiters[h].timer.value in timer.timers
    {
      var w, f := LastOf(run), awaiters[h];
      RunInv(run, |run.worlds| - 1);
      assert FrameMatches(w, awaiters, h) && WaitOk(w, h);
      assert SlotMatches(w, reactor.slots, f.fd, f.dir);
      if f.timer.Some? {
        assert TimerMatches(w, timer.timers, f.timer.value);
      }
    }

    /** The tick that will expire a timer set now for `delay`. */
    ghost function DueAfter(delay: int): nat
      reads timer
    {
      DueOf(timer.View(), timer.currentTime + delay)
    }

    lemma DueAhead(delay: int)
      requires timer.Valid() && timer.lead == 1
      ensures timer.now <= DueAfter(delay) == DueTick(1, timer.now, WholeTicks(Ns(timer.now) + delay))
    {
      OnTime(timer.now, WholeTicks(Ns(timer.now) + delay));
    }

    /**
     * A wait that step `i` of the recorded run began with a timer, at wheel time `t` and for `delay`:
     * the timer has ended it only if more than the delay has passed since, or, in the early family,
     * more than the delay less 256 ticks. It is pending, once the timers were advanced, only if no
     * more than that has passed.
     */
    lemma DelayHere(h: Handle, i: nat, t: nat, delay: int)
      requires Valid() && i < |run.steps| && BegunWith(run, i, h, t, delay) && delay >= 0
      requires forall k :: i <= k < |run.steps| ==> !Resumes(run.worlds[k], run.steps[k], h)
      ensures h in mem && h in awaiters && UsesTimer(awaiters[h].kind)
      ensures
        var passed, cut := timer.currentTime - (timer.startTime + Ns(t)), if EarlyWait(t, delay) then Ns(256) else 0;
        && (mem[h] == TimedOut || (awaiters[h].kind == Sleep && mem[h] == Ready) ==> passed > delay - cut)
        && (mem[h] == Pending && !In(Ticking) ==> passed <= delay - cut)
    {
      var j := |run.worlds| - 1;
      EndsWhenDue(run, i, j, h);
      assert FrameMatches(LastOf(run), awaiters, h) && mem[h] == LastOf(run).waits[h].state;
      BegunIsFixed(run, i, j, h);
      DelayTicks(t, delay, timer.now);
    }

    // ----- awaiters -----

    /** The registrations of `await_suspend`: the timer first, then the reactor; a failure takes the timer back. */
    method Enlist(h: Handle, kind: Kind, fd: int, dir: Dir, delay: int, ctl: Ctl, ghost due: nat)
      returns (ok: bool, id: TimerId)
      requires reactor.Valid() && timer.Valid() && due == DueAfter(delay)
      requires UsesTimer(kind) ==> HasRoom(timer.slotmap, timer.freeIndices)
      modifies reactor, timer
      ensures reactor.Valid() && timer.Valid() && reactor.ready == old(reactor.ready) && timer.ready == old(timer.ready)
      ensures timer.now == old(timer.now)
      ensures ok == (UsesIo(kind) ==> old(Accepts(fd, dir, ctl)))
      ensures UsesTimer(kind) ==> id !in old(timer.issued)
      ensures timer.issued == if UsesTimer(kind) then old(timer.issued) + {id} else old(timer.issued)
      ensures
        EnlistedIn(h, kind, fd, dir, id, due, ok, old(reactor.slots), reactor.slots, old(timer.timers), timer.timers)
    {
      id := StartTimer(h, kind, delay);
      ok := EnlistIo(h, kind, fd, dir, ctl);
      if !ok && UsesTimer(kind) {
        var found := timer.Cancel(id);
        assert timer.timers == old(timer.timers);
      }
    }

    method StartTimer(h: Handle, kind: Kind, delay: int) returns (id: TimerId)
      requires timer.Valid() && (UsesTimer(kind) ==> HasRoom(timer.slotmap, timer.freeIndices))
      modifies timer
      ensures timer.Valid() && timer.ready == old(timer.ready) && timer.now == old(timer.now)
      ensures if UsesTimer(kind) then
                && id !in old(timer.issued) && timer.issued == old(timer.issued) + {id}
                && id !in old(timer.timers) && id in timer.timers
                && timer.timers == old(timer.timers)[id := timer.timers[id]]
                && timer.timers[id].entry.waiter == TimerWaiter(h, kind) && timer.timers[id].due == old(DueAfter(delay))
              else timer.issued == old(timer.issued) && timer.timers == old(timer.timers)
    {
      id := TimerId(0, 0);
      if UsesTimer(kind) {
        id := timer.ScheduleAt(timer.currentTime + delay, TimerWaiter(h, kind));
      }
    }

    method EnlistIo(h: Handle, kind: Kind, fd: int, dir: Dir, ctl: Ctl) returns (ok: bool)
      requires reactor.Valid()
      modifies reactor
      ensures reactor.Valid() && reactor.ready == old(reactor.ready)
      ensures ok == (UsesIo(kind) ==> old(Accepts(fd, dir, ctl)))
      ensures if ok && UsesIo(kind) then Reslotted(old(reactor.slots), reactor.slots, fd, dir, Some(IoWaiter(h)))
              else SameEntries(old(reactor.slots), reactor.slots)
      ensures !UsesIo(kind) ==> reactor.slots == old(reactor.slots)
    {
      ok := true;
      if UsesIo(kind) {
        var r := reactor.Register(fd, dir, IoWaiter(h), ctl);
        ok := r == Ok;
      }
    }

    /** A registration on `fd` in direction `dir` would succeed. */
    predicate Accepts(fd: int, dir: Dir, ctl: Ctl)
      reads reactor
    {
      fd >= 0 && EntryAt(reactor.slots, fd, dir).None? && if fd in reactor.kernel then ctl.mod else ctl.add
    }

    /**
     * `await_suspend` of the running coroutine. `stopped` says that a stop was requested before, in
     * which case the stop callback runs at once, inside its own constructor.
     */
    method Suspend(kind: Kind, fd: int, dir: Dir, delay: int, hooked: bool, stopped: bool, ctl: Ctl)
      returns (suspended: bool, id: TimerId)
      requires Valid() && In(Resuming) && running.Some?
      requires UsesTimer(kind) ==> HasRoom(timer.slotmap, timer.freeIndices)
      modifies this, reactor, timer
      ensures Valid() && In(Resuming) && running == if suspended then None else old(running)
      ensures
        var due := old(DueAfter(delay));
        Continues(old(run), [WaitProtocol.Suspend(kind, fd, dir, id, due, hooked, stopped, suspended)], run)
      ensures suspended == (UsesIo(kind) ==> old(Accepts(fd, dir, ctl)))
      ensures if suspended then
                && mem == old(mem)[old(running).value := if hooked && stopped then Cancelled else Pending]
                && awaiters == old(awaiters)[old(running).value := NewAwaiter(kind, fd, dir, id, hooked)]
              else mem == old(mem) && awaiters == old(awaiters)
      ensures suspended && UsesTimer(kind) ==>
                BegunWith(run, |old(run).steps|, old(running).value, old(timer.now), delay)
    {
      ghost var w, due, start := LastOf(run), DueAfter(delay), run;
      RunInv(run, |run.worlds| - 1);
      DueAhead(delay);
      suspended, id := AwaitSuspend(running.value, kind, fd, dir, delay, hooked, stopped, ctl, w, due);
      Record(WaitProtocol.Suspend(kind, fd, dir, id, due, hooked, stopped, suspended),
             AfterSuspend(w, w.running.value, kind, fd, dir, id, due, hooked, stopped, suspended));
      SuspendedTo(w, old(PartsNow()), PartsNow(), kind, fd, dir, id, due, hooked, stopped, suspended);
      Begun(start, run, w.clock, delay);
    }

    method AwaitSuspend(
      h: Handle, kind: Kind, fd: int, dir: Dir, delay: int, hooked: bool, stopped: bool, ctl: Ctl,
      ghost w: World, ghost due: nat)
      returns (ok: bool, id: TimerId)
      requires reactor.Valid() && timer.Valid() && Mirror(w, PartsNow()) && Inv(w) && w.phase == Resuming
      requires running == Some(h) && due == DueAfter(delay) && w.clock <= due
      requires UsesTimer(kind) ==> HasRoom(timer.slotmap, timer.freeIndices)
      modifies this`running, this`mem, this`awaiters, this`readyQueue, reactor, timer
      ensures reactor.Valid() && timer.Valid() && running == if ok then None else Some(h)
      ensures ok == (UsesIo(kind) ==> old(Accepts(fd, dir, ctl)))
      ensures UsesTimer(kind) ==> id !in w.issued
      ensures Mirror(AfterSuspend(w, h, kind, fd, dir, id, due, hooked, stopped, ok), PartsNow())
    {
      ok, id := ParkRunning(h, kind, fd, dir, delay, hooked, ctl, w, due);
      StopAfterPark(w, h, kind, fd, dir, id, due, hooked, ok);
      if ok && hooked && stopped {
        Callback(h, AfterSuspend(w, h, kind, fd, dir, id, due, hooked, false, ok));
      }
    }

    /** `await_suspend` up to the stop callback. */
    method ParkRunning(
      h: Handle, kind: Kind, fd: int, dir: Dir, delay: int, hooked: bool, ctl: Ctl, ghost w: World, ghost due: nat)
      returns (ok: bool, id: TimerId)
      requires reactor.Valid() && timer.Valid() && Mirror(w, PartsNow()) && Inv(w) && w.phase == Resuming
      requires running == Some(h) && due == DueAfter(delay) && w.clock <= due
      requires UsesTimer(kind) ==> HasRoom(timer.slotmap, timer.freeIndices)
      modifies this`running, this`mem, this`awaiters, reactor, timer
      ensures reactor.Valid() && timer.Valid() && running == if ok then None else Some(h)
      ensures ok == (UsesIo(kind) ==> old(Accepts(fd, dir, ctl)))
      ensures UsesTimer(kind) ==> id !in w.issued
      ensures ok == Park(w, h, kind, fd, dir, id, due, hooked, ok).Some? && (ok ==> h in awaiters)
      ensures
        var parked := AfterSuspend(w, h, kind, fd, dir, id, due, hooked, false, ok);
        Mirror(parked, PartsNow()) && (ok ==> Inv(parked))
    {
      ghost var p := PartsNow();
      ok, id := Enlist(h, kind, fd, dir, delay, ctl, due);
      EnlistMirrors(w, p, h, kind, fd, dir, id, due, hooked, ok, reactor.slots, timer.timers);
      if ok {
        running, mem := None, mem[h := Pending];
        awaiters := awaiters[h := NewAwaiter(kind, fd, dir, id, hooked)];
        assert PartsNow() == Enlisted(w, p, h, kind, fd, dir, id, hooked, reactor.slots, timer.timers);
      } else {
        assert PartsNow() == p.(slots := reactor.slots, issued := timer.issued);
      }
    }

    /**
     * A timed wait with no time left: it does not suspend, and its `await_resume` deregisters. The
     * loop is in order afterwards exactly if nobody was parked there.
     */
    method WaitNoTime(fd: int, dir: Dir) returns (report: Report)
      requires Valid()
      modifies reactor
      ensures report == ErrTimedOut && reactor.Valid() && Reslotted(old(reactor.slots), reactor.slots, fd, dir, None)
      ensures Valid() <==> old(EntryAt(reactor.slots, fd, dir)) == None
    {
      ghost var w := LastOf(run);
      reactor.Deregister(fd, dir);
      if old(EntryAt(reactor.slots, fd, dir)) == None {
        SameAfterAll(old(reactor.slots), reactor.slots, fd, dir);
        SlotsSame(w, w, old(reactor.slots), reactor.slots);
      } else {
        assert SlotMatches(w, old(reactor.slots), fd, dir);
        assert !SlotMatches(w, reactor.slots, fd, dir);
      }
      report := ErrTimedOut;
    }

    /** The stop callbacks of the awaiters, against a protocol state that the loop mirrors. */
    method Callback(h: Handle, ghost w: World)
      requires reactor.Valid() && timer.Valid() && Mirror(w, PartsNow()) && Inv(w) && h in awaiters
      modifies this`mem, this`readyQueue, reactor, timer
      ensures reactor.Valid() && timer.Valid() && h in w.waits
      ensures Mirror(if w.waits[h].state == Pending then CancelWait(w, h) else w, PartsNow())
    {
      ghost var p := PartsNow();
      assert FrameMatches(w, awaiters, h) && h in mem && mem[h] == w.waits[h].state;
      if mem[h] != Pending {
        return;
      }
      var f := awaiters[h];
      WithdrawBoth(f);
      MirrorCancel(w, p, h, reactor.slots);
      mem := mem[h := Cancelled];
      if f.kind == Sleep {
        timer.Wake(h);
      } else {
        readyQueue := readyQueue + [h];
      }
    }

    method WithdrawBoth(f: Awaiting)
      requires reactor.Valid() && timer.Valid()
      modifies reactor, timer
      ensures reactor.Valid() && timer.Valid() && reactor.ready == old(reactor.ready) && timer.ready == old(timer.ready)
      ensures timer.issued == old(timer.issued) && timer.now == old(timer.now)
      ensures if UsesIo(f.kind) then Reslotted(old(reactor.slots), reactor.slots, f.fd, f.dir, None)
              else reactor.slots == old(reactor.slots)
      ensures timer.timers == if f.timer.Some? then old(timer.timers) - {f.timer.value} else old(timer.timers)
    {
      if f.timer.Some? {
        var found := timer.Cancel(f.timer.value);
      }
      if UsesIo(f.kind) {
        reactor.Deregister(f.fd, f.dir);
      }
    }

    /**
     * A stop request on this core reaches the wait of `h`. If it is pending, it is cancelled, neither
     * the reactor nor the wheel knows it any more, and it is listed once; else nothing happens.
     */
    method StopRequested(h: Handle)
      requires Valid() && In(Resuming) && h in awaiters && awaiters[h].hooked
      modifies this, reactor, timer
      ensures Valid() && In(Resuming) && Continues(old(run), [Stop(h)], run) && h in old(mem)
      ensures awaiters == old(awaiters) && scratch == old(scratch)
      ensures mem == if old(mem[h]) == Pending then old(mem)[h := Cancelled] else old(mem)
      ensures reactor.ready == old(reactor.ready)
      ensures timer.ready == old(timer.ready) + if old(mem[h]) == Pending && awaiters[h].kind == Sleep then [h] else []
      ensures readyQueue == old(readyQueue) + if old(mem[h]) == Pending && awaiters[h].kind != Sleep then [h] else []
      ensures Count(reactor.ready, h) + Count(timer.ready, h) + Count(readyQueue, h) + Count(scratch, h) == 1
      ensures old(mem[h]) == Pending ==> NotKnown(h)
    {
      ghost var w := LastOf(run);
      RunInv(run, |run.worlds| - 1);
      assert FrameMatches(w, awaiters, h);
      Callback(h, w);
      Record(Stop(h), if w.waits[h].state == Pending then CancelWait(w, h) else w);
      ListedOnceHere(h);
      StoppedTo(w, old(PartsNow()), PartsNow(), h);
      if mem[h] == Cancelled {
        CancelledIsUnknown(h);
      }
    }

    /** No registration and no live timer is for `h`. */
    ghost predicate NotKnown(h: Handle)
      reads reactor, timer
    {
      && (forall fd, d {:trigger EntryAt(reactor.slots, fd, d)} ::
            EntryAt(reactor.slots, fd, d).Some? ==> EntryAt(reactor.slots, fd, d).value.handle != Some(h))
      && forall id <- timer.timers :: timer.timers[id].entry.waiter.handle != Some(h)
    }

    lemma CancelledIsUnknown(h: Handle)
      requires Valid() && h in mem && mem[h] == Cancelled
      ensures NotKnown(h)
    {
      var w := LastOf(run);
      RunInv(run, |run.worlds| - 1);
      assert mem[h] == w.waits[h].state;
      forall fd, d | EntryAt(reactor.slots, fd, d).Some?
        ensures EntryAt(reactor.slots, fd, d).value.handle != Some(h)
      {
        assert SlotMatches(w, reactor.slots, fd, d) && SlotOk(w, (fd, d));
      }
      forall id | id in timer.timers ensures timer.timers[id].entry.waiter.handle != Some(h) {
        assert TimerMatches(w, timer.timers, id) && TimerOk(w, id);
      }
    }

    /** `await_resume`: a timed wait withdraws the registration it did not win by. */
    method AwaitResume(h: Handle, ghost w: World) returns (report: Report)
      requires reactor.Valid() && timer.Valid() && Mirror(w, PartsNow()) && Inv(w)
      requires scratch != [] && scratch[0] == h && h in w.waits && w.waits[h].state != Pending
      modifies this`running, this`scratch, this`mem, this`awaiters, reactor, timer
      ensures reactor.Valid() && timer.Valid() && running == Some(h) && h in old(mem) && h !in mem
      ensures report == if old(mem[h]) == Cancelled then ErrCancelled
                        else if old(mem[h]) == TimedOut then ErrTimedOut
                        else Completed
      ensures Mirror(Awaken(w, h).(scratch := w.scratch[1..]), PartsNow())
    {
      ghost var p := PartsNow();
      assert FrameMatches(w, awaiters, h) && mem[h] == w.waits[h].state;
      match mem[h] {
        case Cancelled => report := ErrCancelled;
        case TimedOut => report := ErrTimedOut;
        case _ => report := Completed;
      }
      WithdrawLoser(awaiters[h], mem[h]);
      MirrorAwaken(w, p, h, reactor.slots);
      scratch, running := scratch[1..], Some(h);
      mem, awaiters := mem - {h}, awaiters - {h};
    }

    /** The registration that a timed wait did not win by goes; the other is gone already. */
    method WithdrawLoser(f: Awaiting, state: WaitState)
      requires reactor.Valid() && timer.Valid()
      modifies reactor, timer
      ensures reactor.Valid() && timer.Valid() && reactor.ready == old(reactor.ready) && timer.ready == old(timer.ready)
      ensures timer.issued == old(timer.issued) && timer.now == old(timer.now)
      ensures if f.kind == Timed && state == TimedOut then
                Reslotted(old(reactor.slots), reactor.slots, f.fd, f.dir, None)
              else reactor.slots == old(reactor.slots)
      ensures timer.timers ==
              if f.kind == Timed && state != TimedOut && f.timer.Some? then old(timer.timers) - {f.timer.value}
              else old(timer.timers)
    {
      if f.kind == Timed {
        if state == TimedOut {
          reactor.Deregister(f.fd, f.dir);
        } else if f.timer.Some? {
          var found := timer.Cancel(f.timer.value);
        }
      }
    }

    /**
     * Resumes the next coroutine on the list. Step `k` of the recorded run has ended its wait, and
     * the report says who that was.
     */
    method ResumeNext() returns (h: Handle, report: Report, ghost k: nat)
      requires Valid() && In(Resuming) && running == None && scratch != []
      modifies this, reactor, timer
      ensures Valid() && In(Resuming) && running == Some(h) && Continues(old(run), [Resume], run)
      ensures h == old(scratch[0]) && scratch == old(scratch)[1..] && readyQueue == old(readyQueue)
      ensures h in old(mem) && h in old(awaiters) && mem == old(mem) - {h} && awaiters == old(awaiters) - {h}
      ensures EndedIn(old(run), k, h)
      ensures
        var w, s, kind := old(run).worlds[k], old(run).steps[k], old(awaiters)[h].kind;
        && (report == ErrTimedOut <==> ByExpiry(w, s, h) && kind == Timed)
        && (report == ErrCancelled <==> ByStop(w, s, h))
        && (report == Completed <==> ByEvent(w, s, h) || (ByExpiry(w, s, h) && kind == Sleep))
    {
      ghost var w := LastOf(run);
      h := scratch[0];
      NextIsDecided(run, h);
      k := WhoEnded(run, h);
      RunInv(run, |run.worlds| - 1);
      assert mem[h] == w.waits[h].state && FrameMatches(w, awaiters, h);
      ghost var p := PartsNow();
      report := AwaitResume(h, w);
      ResumedTo(w, p, PartsNow(), h);
      Record(Resume, Awaken(w, h).(scratch := w.scratch[1..]));
    }
  }

  ghost function AfterSuspend(
    w: World, h: Handle, kind: Kind, fd: int, dir: Dir, id: TimerId, due: nat,
    hooked: bool, stopped: bool, accepted: bool): (w': World)
    requires w.phase == Resuming && w.running == Some(h) && (UsesTimer(kind) ==> id !in w.issued && w.clock <= due)
    ensures WaitProtocol.Next(w, WaitProtocol.Suspend(kind, fd, dir, id, due, hooked, stopped, accepted), w')
  {
    var parked := Park(w, h, kind, fd, dir, id, due, hooked, accepted);
    if parked.None? then w.(issued := Issue(w, kind, id))
    else if hooked && stopped then CancelWait(parked.value, h)
    else parked.value
  }

  /** A stop requested before is a cancellation of the wait just begun. */
  lemma StopAfterPark(
    w: World, h: Handle, kind: Kind, fd: int, dir: Dir, id: TimerId, due: nat, hooked: bool, ok: bool)
    requires w.phase == Resuming && w.running == Some(h) && (UsesTimer(kind) ==> id !in w.issued && w.clock <= due)
    requires ok == Park(w, h, kind, fd, dir, id, due, hooked, ok).Some?
    ensures
      var parked := AfterSuspend(w, h, kind, fd, dir, id, due, hooked, false, ok);
      var stopped := AfterSuspend(w, h, kind, fd, dir, id, due, hooked, true, ok);
      if ok && hooked then h in parked.waits && parked.waits[h].state == Pending && stopped == CancelWait(parked, h)
      else stopped == parked
  {
  }

  function NewAwaiter(kind: Kind, fd: int, dir: Dir, id: TimerId, hooked: bool): Awaiting {
    Awaiting(kind, fd, dir, if UsesTimer(kind) then Some(id) else None, hooked)
  }

  ghost function Enlisted(
    w: World, p: Parts, h: Handle, kind: Kind, fd: int, dir: Dir, id: TimerId, hooked: bool,
    slots: seq<FdEntry>, timers: map<TimerId, Timer>): Parts
  {
    p.(running := None, mem := p.mem[h := Pending], awaiters := p.awaiters[h := NewAwaiter(kind, fd, dir, id, hooked)],
       slots := slots, timers := timers, issued := Issue(w, kind, id))
  }

  /** What registering a wait does to the tables of registrations and timers, whether it succeeds or is refused. */
  ghost predicate EnlistedIn(
    h: Handle, kind: Kind, fd: int, dir: Dir, id: TimerId, due: nat, ok: bool,
    slots: seq<FdEntry>, slots': seq<FdEntry>, timers: map<TimerId, Timer>, timers': map<TimerId, Timer>)
  {
    && (ok && UsesIo(kind) ==> fd >= 0 && EntryAt(slots, fd, dir).None?)
    && (!ok ==> UsesIo(kind))
    && (if ok && UsesIo(kind) then Reslotted(slots, slots', fd, dir, Some(IoWaiter(h))) else SameEntries(slots, slots'))
    && (!UsesIo(kind) ==> slots' == slots)
    && (if ok && UsesTimer(kind) then
          && id in timers' && timers' == timers[id := timers'[id]]
          && timers'[id].entry.waiter == TimerWaiter(h, kind) && timers'[id].due == due
        else timers' == timers)
  }

  /** Both outcomes of the registrations, as a Park of the protocol or its refusal. */
  lemma EnlistMirrors(
    w: World, p: Parts, h: Handle, kind: Kind, fd: int, dir: Dir, id: TimerId, due: nat, hooked: bool, ok: bool,
    slots: seq<FdEntry>, timers: map<TimerId, Timer>)
    requires Mirror(w, p) && Inv(w) && w.phase == Resuming && w.running == Some(h)
    requires UsesTimer(kind) ==> id !in w.issued && w.clock <= due
    requires EnlistedIn(h, kind, fd, dir, id, due, ok, p.slots, slots, p.timers, timers)
    ensures ok == Park(w, h, kind, fd, dir, id, due, hooked, ok).Some?
    ensures
      var parked := AfterSuspend(w, h, kind, fd, dir, id, due, hooked, false, ok);
      if ok then Inv(parked) && Mirror(parked, Enlisted(w, p, h, kind, fd, dir, id, hooked, slots, timers))
      else Mirror(parked, p.(slots := slots, issued := Issue(w, kind, id)))
  {
    assert SlotMatches(w, p.slots, fd, dir);
    if ok {
      ParkKeeps(w, h, kind, fd, dir, id, due, hooked);
      MirrorPark(w, p, h, kind, fd, dir, id, due, hooked, slots, if UsesTimer(kind) then timers[id] else NO_TIMER);
    } else {
      MirrorRefused(w, p, w.(issued := Issue(w, kind, id)), slots);
    }
  }

  ghost const NO_TIMER: Timer := Timer(TimerEntry(TimerId(0, 0), 0, Waiter(None, None, TimedOut)), 0, 0, 0)

  ghost predicate SameEntries(slots: seq<FdEntry>, slots': seq<FdEntry>) {
    forall x, y {:trigger EntryAt(slots', x, y)} :: EntryAt(slots', x, y) == EntryAt(slots, x, y)
  }

  lemma SameAfterAll(slots: seq<FdEntry>, slots': seq<FdEntry>, fd: int, d: Dir)
    requires OnlyAt(slots, slots', fd, d) && EntryAt(slots', fd, d) == EntryAt(slots, fd, d)
    ensures SameEntries(slots, slots')
  {
  }

  /** `await_suspend` when the registration fails: an id was used up, nothing else changed. */
  lemma MirrorRefused(w: World, p: Parts, w': World, slots': seq<FdEntry>)
    requires Mirror(w, p) && SameEntries(p.slots, slots') && w' == w.(issued := w'.issued)
    ensures Mirror(w', p.(slots := slots', issued := w'.issued))
  {
    SlotsSame(w, w', p.slots, slots');
    FramesSame(w, w', p.awaiters, p.timers);
  }

  /** Events, expiries and ends of phases resume nobody. */
  lemma NoResumeIn(start: Run, more: seq<Step>, run: Run, h: Handle)
    requires Continues(start, more, run) && |start.worlds| == |start.steps| + 1 && |run.worlds| == |run.steps| + 1
    requires Resume !in more
    ensures forall k :: |start.worlds| - 1 <= k < |run.steps| ==> !Resumes(run.worlds[k], run.steps[k], h)
  {
    forall k | |start.worlds| - 1 <= k < |run.steps| ensures run.steps[k] != Resume {
      assert run.steps[k] == more[k - |start.steps|];
    }
  }

  /** Right after the swap, everything decided is on the list, once. */
  lemma RoundLists(run: Run, h: Handle)
    requires IsRun(run) && run.steps != [] && run.steps[|run.steps| - 1] == EndTick
    ensures Count(LastOf(run).scratch, h) == if Decided(LastOf(run), h) then 1 else 0
  {
    var k := |run.steps| - 1;
    RoundResumesAll(run, k, h);
    assert WaitProtocol.StepAt(run, k);
  }

  /** Step `i` of the run suspended `h` with a timer, at wheel time `t` and for `delay`. */
  ghost predicate BegunWith(run: Run, i: nat, h: Handle, t: nat, delay: int)
    requires i < |run.steps| && i + 1 < |run.worlds|
  {
    && run.worlds[i].running == Some(h) && run.worlds[i + 1].running == None && run.worlds[i].clock == t
    && run.steps[i].Suspend? && UsesTimer(run.steps[i].kind)
    && run.steps[i].due == DueTick(1, t, WholeTicks(Ns(t) + delay))
  }

  lemma Begun(run: Run, run': Run, t: nat, delay: int)
    requires IsRun(run) && IsRun(run') && |run'.steps| == |run.steps| + 1 && Continues(run, [LastStep(run')], run')
    requires LastOf(run).running.Some? && LastOf(run).clock == t && LastStep(run').Suspend?
    requires LastStep(run').due == DueTick(1, t, WholeTicks(Ns(t) + delay))
    ensures LastOf(run').running == None && UsesTimer(LastStep(run').kind) ==>
              BegunWith(run', |run.steps|, LastOf(run).running.value, t, delay)
  {
    assert run'.worlds[|run.worlds| - 1] == LastOf(run);
  }

  function LastStep(run: Run): Step
    requires run.steps != []
  {
    run.steps[|run.steps| - 1]
  }

  /** The early family, for a wait begun at wheel time `t`. */
  predicate EarlyWait(t: nat, delay: int) {
    var d := WholeTicks(Ns(t) + delay);
    d - t >= 16_384 && d % 16_384 == 256
  }

  lemma BegunIsFixed(run: Run, i: nat, j: nat, h: Handle)
    requires IsRun(run) && i < j < |run.worlds| && run.worlds[i].running == Some(h)
    requires run.steps[i].Suspend? && UsesTimer(run.steps[i].kind) && run.worlds[i + 1].running == None
    requires forall k :: i <= k < j ==> !Resumes(run.worlds[k], run.steps[k], h)
    ensures h in run.worlds[j].waits && run.worlds[j].waits[h].kind == run.steps[i].kind
  {
    assert WaitProtocol.StepAt(run, i);
    AwaiterFixedUntilResumed(run, i + 1, j, h);
  }

  /** Ticks and nanoseconds: whether the wheel, now at tick `now`, has left the due tick of such a wait. */
  lemma DelayTicks(t: nat, delay: int, now: nat)
    requires delay >= 0
    ensures
      var due, cut := DueTick(1, t, WholeTicks(Ns(t) + delay)), if EarlyWait(t, delay) then Ns(256) else 0;
      && (due < now ==> Ns(now) - Ns(t) > delay - cut)
      && (now <= due ==> Ns(now) - Ns(t) <= delay - cut)
  {
    OnTime(t, WholeTicks(Ns(t) + delay));
  }

  /** Step `k` ended the wait of `h`, which has been decided ever since. */
  ghost predicate EndedIn(run: Run, k: nat, h: Handle) {
    && |run.worlds| == |run.steps| + 1 && k < |run.steps| && EndsAt(run, k, h)
    && forall j :: k < j < |run.worlds| ==> Decided(run.worlds[j], h)
  }

  lemma WhoEnded(run: Run, h: Handle) returns (k: nat)
    requires IsRun(run) && Decided(LastOf(run), h)
    ensures EndedIn(run, k, h)
    ensures
      var w, s, a := run.worlds[k], run.steps[k], LastOf(run).waits[h];
      && (a.state == TimedOut <==> ByExpiry(w, s, h) && a.kind == Timed)
      && (a.state == Cancelled <==> ByStop(w, s, h))
      && (a.state == Ready <==> ByEvent(w, s, h) || (ByExpiry(w, s, h) && a.kind == Sleep))
  {
    k := EndedBefore(run, |run.worlds| - 1, h);
    StateTellsWho(run, k, h);
  }

  /** What a poll followed by ticks to `now` makes of a wait in state `s`; `timers` are those live before. */
  ghost predicate AfterRound(
    f: Awaiting, timers: map<TimerId, Timer>, now: nat, s: WaitState, s': WaitState, events: seq<IoReady>)
  {
    var concerned := exists i :: 0 <= i < |events| && events[i].fd == f.fd &&
                                 (events[i].err || if f.dir == Read then events[i].readable else events[i].writable);
    if s != Pending then s' == s
    else if UsesIo(f.kind) && concerned then s' == Ready
    else if !UsesTimer(f.kind) then s' == Pending
    else
      && f.timer.Some? && f.timer.value in timers
      && s' == if timers[f.timer.value].due >= now then Pending else if f.kind == Sleep then Ready else TimedOut
  }

  lemma RoundContinues(
    start: Run, polled: Run, run: Run, hits: seq<(int, Dir)>, now: nat, expired: seq<TimerId>) returns (more: seq<Step>)
    requires Continues(start, EventsOf(hits) + [EndPoll], polled)
    requires Continues(polled, [Advance(now)] + ExpiriesOf(expired), run)
    ensures Continues(start, more, run) && Resume !in more
  {
    more := EventsOf(hits) + [EndPoll] + ([Advance(now)] + ExpiriesOf(expired));
    ContinuesTwice(start, EventsOf(hits) + [EndPoll], polled, [Advance(now)] + ExpiriesOf(expired), run);
  }

  lemma RoundDecides(mem0: Memory, p: Parts, now: nat, mem': Memory, events: seq<IoReady>)
    requires forall h <- p.awaiters :: h in mem0 && h in p.mem && AfterPoll(p.awaiters[h], mem0[h], p.mem[h], events)
    requires forall h <- p.awaiters :: h in p.mem && h in mem' && TimeDecides(p, now, mem', h)
    ensures forall h <- p.awaiters :: h in mem0 && h in mem' &&
                                      AfterRound(p.awaiters[h], p.timers, now, mem0[h], mem'[h], events)
  {
    forall h | h in p.awaiters ensures AfterRound(p.awaiters[h], p.timers, now, mem0[h], mem'[h], events) {
      assert TimeDecides(p, now, mem', h);
    }
  }

  // ----- what the protocol's steps make of the loop's own fields -----

  function FrameFrom(a: Awaiter): Awaiting { Awaiting(a.kind, a.fd, a.dir, a.timer, a.hooked) }

  lemma FramesAre(w: World, awaiters: map<Handle, Awaiting>)
    requires FramesMatch(w, awaiters)
    ensures awaiters == map h | h in w.waits :: FrameFrom(w.waits[h])
  {
    forall h ensures h in awaiters <==> h in w.waits {
      assert FrameMatches(w, awaiters, h);
    }
    forall h | h in awaiters ensures awaiters[h] == FrameFrom(w.waits[h]) {
      assert FrameMatches(w, awaiters, h);
    }
  }

  lemma SuspendedTo(
    w: World, p: Parts, p': Parts, kind: Kind, fd: int, dir: Dir, id: TimerId, due: nat,
    hooked: bool, stopped: bool, ok: bool)
    requires w.phase == Resuming && w.running.Some? && (UsesTimer(kind) ==> id !in w.issued && w.clock <= due)
    requires Mirror(w, p) && ok == Park(w, w.running.value, kind, fd, dir, id, due, hooked, ok).Some?
    requires Mirror(AfterSuspend(w, w.running.value, kind, fd, dir, id, due, hooked, stopped, ok), p')
    ensures
      var h := w.running.value;
      && p'.mem == (if ok then p.mem[h := if hooked && stopped then Cancelled else Pending] else p.mem)
      && p'.awaiters == if ok then p.awaiters[h := NewAwaiter(kind, fd, dir, id, hooked)] else p.awaiters
  {
    var h, w' := w.running.value, AfterSuspend(w, w.running.value, kind, fd, dir, id, due, hooked, stopped, ok);
    var timer := if UsesTimer(kind) then Some(id) else None;
    var a := Awaiter(kind, fd, dir, timer, due, if hooked && stopped then Cancelled else Pending, hooked);
    assert w'.waits == if ok then w.waits[h := a] else w.waits;
    WaitsDetermine(w, p, w', p', h, a, ok);
  }

  /** The awaiters' fields and wait states are those of the protocol's waits. */
  lemma WaitsDetermine(w: World, p: Parts, w': World, p': Parts, h: Handle, a: Awaiter, ok: bool)
    requires StatesMatch(w, p.mem) && FramesMatch(w, p.awaiters)
    requires StatesMatch(w', p'.mem) && FramesMatch(w', p'.awaiters)
    requires w'.waits == if ok then w.waits[h := a] else w.waits
    ensures p'.mem == (if ok then p.mem[h := a.state] else p.mem)
    ensures p'.awaiters == if ok then p.awaiters[h := FrameFrom(a)] else p.awaiters
  {
    FramesAre(w, p.awaiters);
    FramesAre(w', p'.awaiters);
  }

  lemma StoppedTo(w: World, p: Parts, p': Parts, h: Handle)
    requires Mirror(w, p) && h in w.waits
    requires Mirror(if w.waits[h].state == Pending then CancelWait(w, h) else w, p')
    ensures h in p.mem && p'.mem == (if p.mem[h] == Pending then p.mem[h := Cancelled] else p.mem)
    ensures p'.awaiters == p.awaiters && p'.scratch == p.scratch && p'.reactorReady == p.reactorReady
    ensures p'.timerReady == p.timerReady + if p.mem[h] == Pending && w.waits[h].kind == Sleep then [h] else []
    ensures p'.readyQueue == p.readyQueue + if p.mem[h] == Pending && w.waits[h].kind != Sleep then [h] else []
  {
    var w' := if w.waits[h].state == Pending then CancelWait(w, h) else w;
    assert p.mem[h] == w.waits[h].state;
    FramesAre(w, p.awaiters);
    FramesAre(w', p'.awaiters);
  }

  lemma ResumedTo(w: World, p: Parts, p': Parts, h: Handle)
    requires Mirror(w, p) && h in w.waits && w.scratch != [] && w.scratch[0] == h
    requires Mirror(Awaken(w, h).(scratch := w.scratch[1..]), p')
    ensures p'.mem == p.mem - {h} && p'.awaiters == p.awaiters - {h}
    ensures p'.scratch == p.scratch[1..] && p'.readyQueue == p.readyQueue
  {
    var w' := Awaken(w, h).(scratch := w.scratch[1..]);
    FramesAre(w, p.awaiters);
    FramesAre(w', p'.awaiters);
  }

  /** Whoever is next on the list is suspended and decided. */
  lemma NextIsDecided(run: Run, h: Handle)
    requires IsRun(run) && LastOf(run).scratch != [] && LastOf(run).scratch[0] == h
    ensures h in LastOf(run).waits && LastOf(run).waits[h].state != Pending
  {
    var w := LastOf(run);
    RunInv(run, |run.worlds| - 1);
    assert w.scratch == [h] + w.scratch[1..];
    assert ListedOnce(w, h);
  }
}
