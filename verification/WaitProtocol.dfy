/**
 * The race for a suspended coroutine on one core: the reactor, the timer wheel and stop callbacks
 * all try to end its wait. The steps follow the phases of `EventLoop::run`: resume what is ready,
 * poll the reactor, advance the timers. A coroutine waits on one awaiter at a time, so awaiters
 * and their wait states are named by the coroutine's handle; a later wait of the same coroutine
 * reuses the name, as its awaiter may reuse the address.
 */
module WaitProtocol {
  import opened Prelude
  import opened Reactor
  import opened TimerSpec

  datatype Kind =
    | Io      // ReadReadyAwaiter, WriteReadyAwaiter, ConnectAwaiter, AcceptAwaiter
    | Timed   // TimedReadyAwaiter
    | Sleep   // SleepAwaiter

  /** `due`: the tick that expires the wait's timer; `hooked`: a stop callback is registered for the wait. */
  datatype Awaiter = Awaiter(
    kind: Kind, fd: int, dir: Dir, timer: Option<TimerId>, due: nat, state: WaitState, hooked: bool)

  datatype Phase = Resuming | Polling | Ticking

  /**
   * `slots` and `timers` say whose wait each registration and each live timer belongs to.
   * `scratch` is what the loop has still to resume in this round; `clock` is the wheel's time.
   */
  datatype World = World(
    phase: Phase, clock: nat, running: Option<Handle>,
    waits: map<Handle, Awaiter>, slots: map<(int, Dir), Handle>, timers: map<TimerId, Handle>, issued: set<TimerId>,
    reactorReady: seq<Handle>, timerReady: seq<Handle>, readyQueue: seq<Handle>, scratch: seq<Handle>)

  datatype Step =
    | Launch(h: Handle)
    | Suspend(kind: Kind, fd: int, dir: Dir, id: TimerId, due: nat, hooked: bool, stopped: bool, accepted: bool)
    | Stop(h: Handle)
    | Leave
    | Resume
    | EndResume
    | Event(fd: int, dir: Dir)
    | EndPoll
    | Advance(to: nat)
    | Expire(timer: TimerId)
    | EndTick

  predicate UsesIo(k: Kind) { k == Io || k == Timed }

  predicate UsesTimer(k: Kind) { k == Timed || k == Sleep }

  function Key(a: Awaiter): (int, Dir) { (a.fd, a.dir) }

  /** How often a handle is listed for resumption, over all four lists. */
  ghost function Listed(w: World, h: Handle): nat {
    Count(w.reactorReady, h) + Count(w.timerReady, h) + Count(w.readyQueue, h) + Count(w.scratch, h)
  }

  ghost predicate Decided(w: World, h: Handle) {
    h in w.waits && w.waits[h].state != Pending
  }

  // ----- the steps -----

  /** The ids issued once a wait of this kind has asked the wheel for a timer. */
  function Issue(w: World, kind: Kind, id: TimerId): set<TimerId> {
    if UsesTimer(kind) then w.issued + {id} else w.issued
  }

  /** `await_suspend` up to the registration of the stop callback; `None` if the registration failed. */
  function Park(
    w: World, h: Handle, kind: Kind, fd: int, dir: Dir, id: TimerId, due: nat, hooked: bool, accepted: bool)
    : Option<World>
  {
    var a := Awaiter(kind, fd, dir, if UsesTimer(kind) then Some(id) else None, due, Pending, hooked);
    if UsesIo(kind) && (fd < 0 || (fd, dir) in w.slots || !accepted) then None
    else
      Some(w.(
        running := None,
        waits := w.waits[h := a],
        slots := if UsesIo(kind) then w.slots[(fd, dir) := h] else w.slots,
        timers := if UsesTimer(kind) then w.timers[id := h] else w.timers,
        issued := Issue(w, kind, id)))
  }

  /** The stop callback of a wait that is still pending: cancel, withdraw both registrations, wake. */
  function CancelWait(w: World, h: Handle): World
    requires h in w.waits
  {
    var a := w.waits[h];
    w.(waits := w.waits[h := a.(state := Cancelled)],
       slots := if UsesIo(a.kind) then w.slots - {Key(a)} else w.slots,
       timers := if a.timer.Some? then w.timers - {a.timer.value} else w.timers,
       readyQueue := if a.kind == Sleep then w.readyQueue else w.readyQueue + [h],
       timerReady := if a.kind == Sleep then w.timerReady + [h] else w.timerReady)
  }

  /** `await_resume`: a timed wait withdraws the registration it did not win by. */
  function Awaken(w: World, h: Handle): World
    requires h in w.waits
  {
    var a := w.waits[h];
    w.(waits := w.waits - {h},
       running := Some(h),
       slots := if a.kind == Timed && a.state == TimedOut then w.slots - {Key(a)} else w.slots,
       timers := if a.kind == Timed && a.state != TimedOut && a.timer.Some? then w.timers - {a.timer.value}
                 else w.timers)
  }

  /** `fire` of the reactor: the registration goes, and a wait that is still pending becomes ready. */
  function FireIo(w: World, k: (int, Dir)): World
    requires k in w.slots && w.slots[k] in w.waits
  {
    var h := w.slots[k];
    var gone := w.(slots := w.slots - {k});
    if w.waits[h].state != Pending then gone
    else gone.(waits := w.waits[h := w.waits[h].(state := Ready)], reactorReady := w.reactorReady + [h])
  }

  /** Expiry of a timer: a wait that is still pending takes the timer's completion state. */
  function FireTimer(w: World, t: TimerId): World
    requires t in w.timers && w.timers[t] in w.waits
  {
    var h := w.timers[t];
    var a := w.waits[h];
    var gone := w.(timers := w.timers - {t});
    if a.state != Pending then gone
    else
      gone.(waits := w.waits[h := a.(state := if a.kind == Sleep then Ready else TimedOut)],
            timerReady := w.timerReady + [h])
  }

  /** A live timer whose tick has passed. */
  ghost predicate Overdue(w: World, t: TimerId) {
    t in w.timers && w.timers[t] in w.waits && w.waits[w.timers[t]].due < w.clock
  }

  ghost predicate Next(w: World, s: Step, w': World) {
    match s
    case Launch(h) =>
      w.phase == Resuming && w.running == None && h !in w.waits && w' == w.(running := Some(h))
    case Suspend(kind, fd, dir, id, due, hooked, stopped, accepted) =>
      && w.phase == Resuming && w.running.Some? && (UsesTimer(kind) ==> id !in w.issued && w.clock <= due)
      && var parked := Park(w, w.running.value, kind, fd, dir, id, due, hooked, accepted);
         w' == if parked.None? then w.(issued := Issue(w, kind, id))
               else if hooked && stopped then CancelWait(parked.value, w.running.value)
               else parked.value
    case Stop(h) =>
      && w.phase == Resuming && h in w.waits && w.waits[h].hooked
      && w' == if w.waits[h].state == Pending then CancelWait(w, h) else w
    case Leave => w.phase == Resuming && w.running.Some? && w' == w.(running := None)
    case Resume =>
      && w.phase == Resuming && w.running == None && w.scratch != [] && w.scratch[0] in w.waits
      && w' == Awaken(w, w.scratch[0]).(scratch := w.scratch[1..])
    case EndResume => w.phase == Resuming && w.running == None && w.scratch == [] && w' == w.(phase := Polling)
    case Event(fd, dir) =>
      w.phase == Polling && (fd, dir) in w.slots && w.slots[(fd, dir)] in w.waits && w' == FireIo(w, (fd, dir))
    case EndPoll =>
      w.phase == Polling && w' == w.(phase := Ticking, readyQueue := w.readyQueue + w.reactorReady, reactorReady := [])
    case Advance(to) => w.phase == Ticking && w.clock <= to && w' == w.(clock := to)
    case Expire(t) => w.phase == Ticking && Overdue(w, t) && w' == FireTimer(w, t)
    case EndTick =>
      && w.phase == Ticking && (forall t {:trigger Overdue(w, t)} :: !Overdue(w, t))
      && w' == w.(phase := Resuming, scratch := w.readyQueue + w.timerReady, readyQueue := [], timerReady := [])
  }

  ghost predicate Start(w: World) {
    w == World(Resuming, 0, None, map[], map[], map[], {}, [], [], [], [])
  }

  // ----- the invariant of every run -----

  /** A handle is listed for resumption exactly once if its wait is decided, and not at all otherwise. */
  ghost predicate ListedOnce(w: World, h: Handle) {
    Listed(w, h) == if Decided(w, h) then 1 else 0
  }

  /** A registration belongs to a wait that is pending, or that timed out and is about to be resumed. */
  ghost predicate SlotOk(w: World, k: (int, Dir)) {
    k in w.slots ==>
      var h := w.slots[k];
      && h in w.waits && UsesIo(w.waits[h].kind) && Key(w.waits[h]) == k
      && (w.waits[h].state == Pending || w.waits[h].state == TimedOut)
  }

  /** A live timer belongs to a wait that is pending, or that the reactor has won. */
  ghost predicate TimerOk(w: World, t: TimerId) {
    t in w.timers ==>
      var h := w.timers[t];
      && h in w.waits && w.waits[h].timer == Some(t)
      && (w.waits[h].state == Pending || (w.waits[h].kind == Timed && w.waits[h].state == Ready))
  }

  /** The timer has ended the wait. */
  predicate ByTimer(a: Awaiter) {
    a.state == TimedOut || (a.kind == Sleep && a.state == Ready)
  }

  ghost predicate WaitOk(w: World, h: Handle) {
    h in w.waits ==>
      var a := w.waits[h];
      && a.timer.Some? == UsesTimer(a.kind) && (a.timer.Some? ==> a.timer.value in w.issued)
      && w.running != Some(h)
      && (UsesIo(a.kind) && (a.state == Pending || a.state == TimedOut) ==> Key(a) in w.slots && w.slots[Key(a)] == h)
      && (a.timer.Some? && a.state == Pending ==> a.timer.value in w.timers && w.timers[a.timer.value] == h)
      && (a.state == TimedOut ==>
            a.kind == Timed && ((w.phase == Ticking && h in w.timerReady) || (w.phase == Resuming && h in w.scratch)))
      && (ByTimer(a) ==> a.due < w.clock)
      && (a.timer.Some? && a.state == Pending && w.phase != Ticking ==> w.clock <= a.due)
  }

  /** Timer ids are never issued twice, so no two waits share one. */
  ghost predicate Apart(w: World, x: Handle, y: Handle) {
    x in w.waits && y in w.waits && x != y && w.waits[x].timer.Some? ==> w.waits[x].timer != w.waits[y].timer
  }

  ghost predicate PhaseOk(w: World) {
    && (w.phase != Resuming ==> w.running == None && w.scratch == [])
    && (w.phase != Polling ==> w.reactorReady == [])
  }

  ghost predicate Inv(w: World) {
    && PhaseOk(w)
    && (forall h {:trigger ListedOnce(w, h)} :: ListedOnce(w, h))
    && (forall k {:trigger SlotOk(w, k)} :: SlotOk(w, k))
    && (forall t {:trigger TimerOk(w, t)} :: TimerOk(w, t))
    && (forall h {:trigger WaitOk(w, h)} :: WaitOk(w, h))
    && (forall x, y {:trigger Apart(w, x, y)} :: Apart(w, x, y))
  }

  lemma CancelKeeps(w: World, h: Handle)
    requires Inv(w) && h in w.waits && w.waits[h].state == Pending
    ensures Inv(CancelWait(w, h))
  {
    var w' := CancelWait(w, h);
    assert WaitOk(w, h) && ListedOnce(w, h);
    forall x ensures ListedOnce(w', x) { assert ListedOnce(w, x); }
    forall k ensures SlotOk(w', k) { assert SlotOk(w, k); }
    forall t ensures TimerOk(w', t) { assert TimerOk(w, t); }
    forall x ensures WaitOk(w', x) { assert WaitOk(w, x) && Apart(w, h, x); }
    forall x, y ensures Apart(w', x, y) { assert Apart(w, x, y); }
  }

  lemma ParkKeeps(w: World, h: Handle, kind: Kind, fd: int, dir: Dir, id: TimerId, due: nat, hooked: bool)
    requires Inv(w) && w.phase == Resuming && w.running == Some(h)
    requires UsesTimer(kind) ==> id !in w.issued && w.clock <= due
    requires Park(w, h, kind, fd, dir, id, due, hooked, true).Some?
    ensures Inv(Park(w, h, kind, fd, dir, id, due, hooked, true).value)
  {
    var w' := Park(w, h, kind, fd, dir, id, due, hooked, true).value;
    assert WaitOk(w, h) && ListedOnce(w, h);
    forall x ensures ListedOnce(w', x) { assert ListedOnce(w, x); }
    forall k ensures SlotOk(w', k) { assert SlotOk(w, k); }
    forall t ensures TimerOk(w', t) { assert TimerOk(w, t); }
    forall x ensures WaitOk(w', x) { assert WaitOk(w, x); }
    forall x, y ensures Apart(w', x, y) { assert Apart(w, x, y) && WaitOk(w, x) && WaitOk(w, y); }
  }

  lemma ResumeKeeps(w: World)
    requires Inv(w) && w.phase == Resuming && w.running == None && w.scratch != [] && w.scratch[0] in w.waits
    ensures Inv(Awaken(w, w.scratch[0]).(scratch := w.scratch[1..]))
  {
    var h := w.scratch[0];
    var w' := Awaken(w, h).(scratch := w.scratch[1..]);
    assert WaitOk(w, h) && ListedOnce(w, h) && SlotOk(w, Key(w.waits[h]));
    assert w.waits[h].timer.Some? ==> TimerOk(w, w.waits[h].timer.value);
    assert w.scratch == [h] + w.scratch[1..];
    forall x ensures ListedOnce(w', x) { assert ListedOnce(w, x); }
    forall k ensures SlotOk(w', k) { assert SlotOk(w, k); }
    forall t ensures TimerOk(w', t) { assert TimerOk(w, t); }
    forall x ensures WaitOk(w', x) { assert WaitOk(w, x) && Apart(w, h, x); }
    forall x, y ensures Apart(w', x, y) { assert Apart(w, x, y); }
  }

  lemma EventKeeps(w: World, k: (int, Dir))
    requires Inv(w) && w.phase == Polling && k in w.slots && w.slots[k] in w.waits
    ensures Inv(FireIo(w, k))
  {
    var h := w.slots[k];
    var w' := FireIo(w, k);
    assert WaitOk(w, h) && ListedOnce(w, h) && SlotOk(w, k);
    forall x ensures ListedOnce(w', x) { assert ListedOnce(w, x); }
    forall k ensures SlotOk(w', k) { assert SlotOk(w, k); }
    forall t ensures TimerOk(w', t) { assert TimerOk(w, t); }
    forall x ensures WaitOk(w', x) { assert WaitOk(w, x) && Apart(w, h, x); }
    forall x, y ensures Apart(w', x, y) { assert Apart(w, x, y); }
  }

  lemma ExpireKeeps(w: World, t: TimerId)
    requires Inv(w) && w.phase == Ticking && Overdue(w, t)
    ensures Inv(FireTimer(w, t))
  {
    var h := w.timers[t];
    var w' := FireTimer(w, t);
    assert WaitOk(w, h) && ListedOnce(w, h) && TimerOk(w, t);
    forall x ensures ListedOnce(w', x) { assert ListedOnce(w, x); }
    forall k ensures SlotOk(w', k) { assert SlotOk(w, k); }
    forall t ensures TimerOk(w', t) { assert TimerOk(w, t); }
    forall x ensures WaitOk(w', x) { assert WaitOk(w, x) && Apart(w, h, x); }
    forall x, y ensures Apart(w', x, y) { assert Apart(w, x, y); }
  }

  /** The steps between phases and those of the running coroutine that touch no wait. */
  lemma QuietKeeps(w: World, s: Step, w': World)
    requires Inv(w) && Next(w, s, w')
    requires s.Launch? || s.Leave? || s.EndResume? || s.EndPoll? || s.Advance? || s.EndTick?
    ensures Inv(w')
  {
    forall x ensures ListedOnce(w', x) { assert ListedOnce(w, x); }
    forall k ensures SlotOk(w', k) { assert SlotOk(w, k); }
    forall t ensures TimerOk(w', t) { assert TimerOk(w, t); }
    forall x ensures WaitOk(w', x) {
      assert WaitOk(w, x) && ListedOnce(w, x);
      assert s == EndTick && x in w.waits && w.waits[x].timer.Some? ==> !Overdue(w, w.waits[x].timer.value);
    }
    forall x, y ensures Apart(w', x, y) { assert Apart(w, x, y); }
  }

  /** Every step of every core-local interleaving keeps the invariant. */
  lemma NextKeeps(w: World, s: Step, w': World)
    requires Inv(w) && Next(w, s, w')
    ensures Inv(w')
  {
    match s
    case Suspend(kind, fd, dir, id, due, hooked, stopped, accepted) =>
      var h := w.running.value;
      var parked := Park(w, h, kind, fd, dir, id, due, hooked, accepted);
      if parked.None? {
        forall x ensures ListedOnce(w', x) { assert ListedOnce(w, x); }
        forall k ensures SlotOk(w', k) { assert SlotOk(w, k); }
        forall t ensures TimerOk(w', t) { assert TimerOk(w, t); }
        forall x ensures WaitOk(w', x) { assert WaitOk(w, x) && Apart(w, h, x); }
        forall x, y ensures Apart(w', x, y) { assert Apart(w, x, y); }
      } else {
        assert parked == Park(w, h, kind, fd, dir, id, due, hooked, true);
        ParkKeeps(w, h, kind, fd, dir, id, due, hooked);
        if hooked && stopped {
          CancelKeeps(parked.value, h);
        }
      }
    case Stop(h) => if w.waits[h].state == Pending { CancelKeeps(w, h); }
    case Resume => ResumeKeeps(w);
    case Event(fd, dir) => EventKeeps(w, (fd, dir));
    case Expire(t) => ExpireKeeps(w, t);
    case _ => QuietKeeps(w, s, w');
  }

  // ----- runs -----

  datatype Run = Run(worlds: seq<World>, steps: seq<Step>)

  /** Any number of steps of the protocol, from any state. */
  ghost predicate IsPath(path: Run) {
    && |path.worlds| == |path.steps| + 1
    && forall k {:trigger StepAt(path, k)} :: 0 <= k < |path.steps| ==> StepAt(path, k)
  }

  ghost predicate IsRun(run: Run) {
    IsPath(run) && Start(run.worlds[0])
  }

  ghost predicate StepAt(run: Run, k: nat)
    requires k < |run.steps| && k + 1 < |run.worlds|
  {
    Next(run.worlds[k], run.steps[k], run.worlds[k + 1])
  }

  /** In every state of every run: nobody is listed while pending, everybody decided is listed exactly once. */
  lemma {:induction false} RunInv(run: Run, k: nat)
    requires IsRun(run) && k < |run.worlds|
    ensures Inv(run.worlds[k])
  {
    if k > 0 {
      RunInv(run, k - 1);
      assert StepAt(run, k - 1);
      NextKeeps(run.worlds[k - 1], run.steps[k - 1], run.worlds[k]);
    }
  }

  ghost predicate Resumes(w: World, s: Step, h: Handle) {
    s == Resume && w.scratch != [] && w.scratch[0] == h
  }

  /** A decision is final: whoever loses the race changes nothing, until the coroutine is resumed. */
  lemma DecisionFinal(w: World, s: Step, w': World, h: Handle)
    requires Inv(w) && Next(w, s, w') && Decided(w, h) && !Resumes(w, s, h)
    ensures h in w'.waits && w'.waits[h] == w.waits[h]
  {
    assert WaitOk(w, h);
    assert s.Launch? || w.running != Some(h);
  }

  lemma {:induction false} DecidedUntilResumed(run: Run, i: nat, j: nat, h: Handle)
    requires IsRun(run) && i <= j < |run.worlds| && Decided(run.worlds[i], h)
    requires forall k :: i <= k < j ==> !Resumes(run.worlds[k], run.steps[k], h)
    ensures Decided(run.worlds[j], h) && run.worlds[j].waits[h] == run.worlds[i].waits[h]
    ensures Listed(run.worlds[j], h) == 1
  {
    if i < j {
      DecidedUntilResumed(run, i, j - 1, h);
      RunInv(run, j - 1);
      assert StepAt(run, j - 1);
      DecisionFinal(run.worlds[j - 1], run.steps[j - 1], run.worlds[j], h);
    }
    RunInv(run, j);
    assert ListedOnce(run.worlds[j], h);
  }

  /** Resuming leaves no registration and no live timer behind, and takes away nobody else's. */
  lemma NoDanglingRegistration(run: Run, k: nat, h: Handle)
    requires IsRun(run) && k < |run.steps| && Resumes(run.worlds[k], run.steps[k], h)
    ensures
      var w, w' := run.worlds[k], run.worlds[k + 1];
      && Decided(w, h)
      && (forall key :: key in w'.slots <==> key in w.slots && w.slots[key] != h)
      && (forall key <- w'.slots :: w'.slots[key] == w.slots[key])
      && (forall t :: t in w'.timers <==> t in w.timers && w.timers[t] != h)
      && (forall t <- w'.timers :: w'.timers[t] == w.timers[t])
  {
    var w, w' := run.worlds[k], run.worlds[k + 1];
    RunInv(run, k);
    assert StepAt(run, k);
    assert w.scratch == [h] + w.scratch[1..];
    assert ListedOnce(w, h) && WaitOk(w, h);
    var a := w.waits[h];
    if a.timer.Some? && a.timer.value in w.timers {
      assert TimerOk(w, a.timer.value) && Apart(w, h, w.timers[a.timer.value]);
    }
    forall key ensures key in w'.slots <==> key in w.slots && w.slots[key] != h { assert SlotOk(w, key); }
    forall t ensures t in w'.timers <==> t in w.timers && w.timers[t] != h { assert TimerOk(w, t); }
  }

  /** Each round resumes, once each, exactly the coroutines whose waits were decided before it. */
  lemma RoundResumesAll(run: Run, k: nat, h: Handle)
    requires IsRun(run) && k < |run.steps| && run.steps[k] == EndTick
    ensures Count(run.worlds[k + 1].scratch, h) == if Decided(run.worlds[k], h) then 1 else 0
  {
    RunInv(run, k + 1);
    assert StepAt(run, k);
    assert ListedOnce(run.worlds[k + 1], h);
  }

  // ----- who ends a wait -----

  /**
   * A stop request ends a pending wait: it is cancelled, neither reactor nor wheel knows it any
   * more, and its coroutine is listed once. A decided wait it leaves alone, and everybody else's.
   */
  lemma StopEnds(run: Run, k: nat, h: Handle)
    requires IsRun(run) && k < |run.steps| && run.steps[k] == Stop(h)
    ensures
      var w, w' := run.worlds[k], run.worlds[k + 1];
      && h in w.waits
      && (Decided(w, h) ==> w' == w)
      && (!Decided(w, h) ==>
            && w'.waits == w.waits[h := w.waits[h].(state := Cancelled)] && Listed(w', h) == 1
            && (forall key :: key in w'.slots <==> key in w.slots && w.slots[key] != h)
            && (forall key <- w'.slots :: w'.slots[key] == w.slots[key])
            && (forall t :: t in w'.timers <==> t in w.timers && w.timers[t] != h)
            && (forall t <- w'.timers :: w'.timers[t] == w.timers[t]))
  {
    var w, w' := run.worlds[k], run.worlds[k + 1];
    RunInv(run, k);
    RunInv(run, k + 1);
    assert StepAt(run, k);
    assert WaitOk(w, h) && ListedOnce(w', h);
    forall key ensures key in w.slots && w.slots[key] == h ==> key == Key(w.waits[h]) && UsesIo(w.waits[h].kind) {
      assert SlotOk(w, key);
    }
    forall t ensures t in w.timers && w.timers[t] == h ==> w.waits[h].timer == Some(t) {
      assert TimerOk(w, t);
    }
  }

  /**
   * An event ends the pending wait registered for it: it is ready, listed once, and the registration
   * is gone. A wait that has timed out before is left alone, and so is everybody else's.
   */
  lemma EventEnds(run: Run, k: nat, fd: int, dir: Dir)
    requires IsRun(run) && k < |run.steps| && run.steps[k] == Event(fd, dir)
    ensures
      var w, w' := run.worlds[k], run.worlds[k + 1];
      && (fd, dir) in w.slots && w.slots[(fd, dir)] in w.waits
      && var h := w.slots[(fd, dir)];
         && w'.waits == (if Decided(w, h) then w.waits else w.waits[h := w.waits[h].(state := Ready)])
         && Listed(w', h) == 1 && w'.slots == w.slots - {(fd, dir)} && w'.timers == w.timers
  {
    RunInv(run, k);
    RunInv(run, k + 1);
    assert StepAt(run, k);
    assert ListedOnce(run.worlds[k + 1], run.worlds[k].slots[(fd, dir)]);
  }

  /**
   * The expiry of a timer ends the pending wait it was set for: a timed wait has timed out, a sleep
   * is ready, and it is listed once. A wait that the reactor has won before is left alone.
   */
  lemma ExpiryEnds(run: Run, k: nat, t: TimerId)
    requires IsRun(run) && k < |run.steps| && run.steps[k] == Expire(t)
    ensures
      var w, w' := run.worlds[k], run.worlds[k + 1];
      && t in w.timers && w.timers[t] in w.waits
      && var h := w.timers[t];
         && (Decided(w, h) ==> w'.waits == w.waits)
         && (!Decided(w, h) ==>
               w'.waits == w.waits[h := w.waits[h].(state := if w.waits[h].kind == Sleep then Ready else TimedOut)])
         && Listed(w', h) == 1 && w'.timers == w.timers - {t} && w'.slots == w.slots
  {
    RunInv(run, k);
    RunInv(run, k + 1);
    assert StepAt(run, k);
    assert ListedOnce(run.worlds[k + 1], run.worlds[k].timers[t]);
  }

  /** Step `k` decides the wait of `h`. */
  ghost predicate EndsAt(run: Run, k: nat, h: Handle)
    requires k < |run.steps| && k + 1 < |run.worlds|
  {
    !Decided(run.worlds[k], h) && Decided(run.worlds[k + 1], h)
  }

  /** Every decided wait was decided by one step, and nothing has changed it since. */
  lemma {:induction false} EndedBefore(run: Run, i: nat, h: Handle) returns (k: nat)
    requires IsRun(run) && i < |run.worlds| && Decided(run.worlds[i], h)
    ensures k < i && EndsAt(run, k, h)
    ensures forall j :: k < j <= i ==> Decided(run.worlds[j], h) && run.worlds[j].waits[h] == run.worlds[i].waits[h]
  {
    if Decided(run.worlds[i - 1], h) {
      RunInv(run, i - 1);
      assert StepAt(run, i - 1);
      StillDecided(run.worlds[i - 1], run.steps[i - 1], run.worlds[i], h);
      k := EndedBefore(run, i - 1, h);
    } else {
      k := i - 1;
    }
  }

  lemma StillDecided(w: World, s: Step, w': World, h: Handle)
    requires Inv(w) && Next(w, s, w') && Decided(w, h) && h in w'.waits
    ensures w'.waits[h] == w.waits[h]
  {
    if !Resumes(w, s, h) {
      DecisionFinal(w, s, w', h);
    }
  }

  ghost predicate ByStop(w: World, s: Step, h: Handle) {
    s == Stop(h) || (s.Suspend? && w.running == Some(h) && s.hooked && s.stopped)
  }

  ghost predicate ByExpiry(w: World, s: Step, h: Handle) {
    s.Expire? && s.timer in w.timers && w.timers[s.timer] == h
  }

  ghost predicate ByEvent(w: World, s: Step, h: Handle) {
    s.Event? && (s.fd, s.dir) in w.slots && w.slots[(s.fd, s.dir)] == h
  }

  /**
   * The wait state tells who has ended the wait: it timed out exactly if the expiry of its timer
   * ended a timed wait, it was cancelled exactly if a stop request ended it, before or after it
   * began, and it is ready exactly if an event on its descriptor or the expiry of a sleep ended it.
   */
  lemma StateTellsWho(run: Run, k: nat, h: Handle)
    requires IsRun(run) && k < |run.steps| && EndsAt(run, k, h)
    ensures
      var w, s, a := run.worlds[k], run.steps[k], run.worlds[k + 1].waits[h];
      && (a.state == TimedOut <==> ByExpiry(w, s, h) && a.kind == Timed)
      && (a.state == Cancelled <==> ByStop(w, s, h))
      && (a.state == Ready <==> ByEvent(w, s, h) || (ByExpiry(w, s, h) && a.kind == Sleep))
  {
    var w, s := run.worlds[k], run.steps[k];
    RunInv(run, k);
    assert StepAt(run, k);
    if s.Expire? {
      assert TimerOk(w, s.timer);
    } else if s.Event? {
      assert SlotOk(w, (s.fd, s.dir));
    }
    assert WaitOk(w, h);
  }

  // ----- when a wait with a timer ends -----

  /** What a wait was begun with stays until the coroutine is resumed. */
  lemma AwaiterFixed(w: World, s: Step, w': World, h: Handle)
    requires Inv(w) && Next(w, s, w') && h in w.waits && !Resumes(w, s, h)
    ensures h in w'.waits && w'.waits[h] == w.waits[h].(state := w'.waits[h].state)
  {
    assert WaitOk(w, h);
    assert s.Launch? || w.running != Some(h);
  }

  lemma {:induction false} AwaiterFixedUntilResumed(run: Run, i: nat, j: nat, h: Handle)
    requires IsRun(run) && i <= j < |run.worlds| && h in run.worlds[i].waits
    requires forall k :: i <= k < j ==> !Resumes(run.worlds[k], run.steps[k], h)
    ensures h in run.worlds[j].waits
    ensures run.worlds[j].waits[h] == run.worlds[i].waits[h].(state := run.worlds[j].waits[h].state)
  {
    if i < j {
      AwaiterFixedUntilResumed(run, i, j - 1, h);
      RunInv(run, j - 1);
      assert StepAt(run, j - 1);
      AwaiterFixed(run.worlds[j - 1], run.steps[j - 1], run.worlds[j], h);
    }
  }

  /**
   * A wait begun with a timer for tick `due` is ended by it only once the wheel has left that tick,
   * and outside the tick phase it is not pending any more once the wheel has.
   */
  lemma EndsWhenDue(run: Run, i: nat, j: nat, h: Handle)
    requires IsRun(run) && i < j < |run.worlds| && run.worlds[i].running == Some(h)
    requires run.steps[i].Suspend? && UsesTimer(run.steps[i].kind) && run.worlds[i + 1].running == None
    requires forall k :: i <= k < j ==> !Resumes(run.worlds[k], run.steps[k], h)
    ensures h in run.worlds[j].waits
    ensures ByTimer(run.worlds[j].waits[h]) ==> run.steps[i].due < run.worlds[j].clock
    ensures run.worlds[j].waits[h].state == Pending && run.worlds[j].phase != Ticking ==>
              run.worlds[j].clock <= run.steps[i].due
  {
    assert StepAt(run, i);
    AwaiterFixedUntilResumed(run, i + 1, j, h);
    RunInv(run, j);
    assert WaitOk(run.worlds[j], h);
  }

  // ----- where the protocol's assumptions matter -----

  /** A timed wait with no time left does not park, yet its `await_resume` deregisters the direction. */
  function ZeroTimeout(w: World, fd: int, dir: Dir): World {
    w.(slots := w.slots - {(fd, dir)})
  }

  /** That is harmless exactly when nobody is parked there: otherwise it takes away another wait's registration. */
  lemma ZeroTimeoutIsSafeIff(w: World, fd: int, dir: Dir)
    requires Inv(w)
    ensures Inv(ZeroTimeout(w, fd, dir)) <==> (fd, dir) !in w.slots
  {
    var w' := ZeroTimeout(w, fd, dir);
    if (fd, dir) in w.slots {
      assert SlotOk(w, (fd, dir));
      assert !WaitOk(w', w.slots[(fd, dir)]);
    } else {
      assert w' == w;
    }
  }

  /** A stop callback that runs on another thread: only a sleep wakes itself here, through the wheel it holds. */
  function CancelOffCore(w: World, h: Handle): World
    requires h in w.waits
  {
    CancelWait(w, h).(readyQueue := w.readyQueue)
  }

  /**
   * What the same callback does to the loop of the thread it runs on, if that thread runs one: a
   * descriptor wait is notified there, as if it belonged there.
   */
  function CallerAfter(caller: Option<World>, w: World, h: Handle): Option<World>
    requires h in w.waits
  {
    if caller.Some? && w.waits[h].kind != Sleep then
      Some(caller.value.(readyQueue := caller.value.readyQueue + [h]))
    else caller
  }

  /** Cancelled, but neither listed for resumption nor known to the reactor or the wheel. */
  ghost predicate Stranded(w: World, h: Handle) {
    && h in w.waits && w.waits[h].state == Cancelled && w.running != Some(h)
    && Listed(w, h) == 0
    && (forall k <- w.slots :: w.slots[k] != h)
    && (forall t <- w.timers :: w.timers[t] != h)
  }

  /**
   * Cancelling a pending wait from another thread, at any point of both loops' rounds. A sleep is
   * listed once and both loops are in order. A descriptor wait is stranded on its own loop; nobody
   * lists it exactly if the calling thread runs no loop, and otherwise the loop there lists a
   * coroutine that does not wait with it, which breaks that loop's invariant.
   */
  lemma OffCoreStrandsIff(w: World, h: Handle, caller: Option<World>)
    requires Inv(w) && h in w.waits && w.waits[h].state == Pending
    requires caller.Some? ==> Inv(caller.value) && h !in caller.value.waits
    ensures
      var w', caller' := CancelOffCore(w, h), CallerAfter(caller, w, h);
      && (Stranded(w', h) <==> w.waits[h].kind != Sleep)
      && (Stranded(w', h) && (caller'.Some? ==> Listed(caller'.value, h) == 0) <==>
            w.waits[h].kind != Sleep && caller.None?)
      && (w.waits[h].kind == Sleep ==> Inv(w') && Listed(w', h) == 1)
      && (caller.Some? ==> (Inv(caller'.value) <==> w.waits[h].kind == Sleep))
      && (caller.Some? && w.waits[h].kind != Sleep ==> Listed(caller'.value, h) == 1)
  {
    var w', caller' := CancelOffCore(w, h), CallerAfter(caller, w, h);
    assert WaitOk(w, h) && ListedOnce(w, h);
    forall k | k in w'.slots ensures w'.slots[k] != h { assert SlotOk(w, k); }
    forall t | t in w'.timers ensures w'.timers[t] != h { assert TimerOk(w, t); }
    if w.waits[h].kind == Sleep {
      CancelKeeps(w, h);
      assert w' == CancelWait(w, h);
      assert ListedOnce(w', h);
    }
    if caller.Some? {
      assert ListedOnce(caller.value, h);
      assert w.waits[h].kind != Sleep ==> !ListedOnce(caller'.value, h);
    }
  }

  lemma StrandedCancel(w: World, x: Handle, h: Handle)
    requires Stranded(w, h) && x in w.waits && x != h
    ensures Stranded(CancelWait(w, x), h)
  {
  }

  lemma StrandedFire(w: World, h: Handle, k: (int, Dir), t: TimerId)
    requires Stranded(w, h)
    ensures k in w.slots && w.slots[k] in w.waits ==> Stranded(FireIo(w, k), h)
    ensures t in w.timers && w.timers[t] in w.waits ==> Stranded(FireTimer(w, t), h)
  {
  }

  lemma StrandedResume(w: World, h: Handle)
    requires Stranded(w, h) && w.scratch != [] && w.scratch[0] in w.waits
    ensures w.scratch[0] != h && Stranded(Awaken(w, w.scratch[0]).(scratch := w.scratch[1..]), h)
  {
    assert w.scratch == [w.scratch[0]] + w.scratch[1..];
  }

  lemma StrandedSuspend(w: World, s: Step, w': World, h: Handle)
    requires Stranded(w, h) && Next(w, s, w') && s.Suspend?
    ensures Stranded(w', h)
  {
    var x := w.running.value;
    var parked := Park(w, x, s.kind, s.fd, s.dir, s.id, s.due, s.hooked, s.accepted);
    if parked.Some? {
      assert Stranded(parked.value, h);
      StrandedCancel(parked.value, x, h);
    }
  }

  lemma StrandedStep(w: World, s: Step, w': World, h: Handle)
    requires Stranded(w, h) && Next(w, s, w')
    ensures Stranded(w', h) && !Resumes(w, s, h)
  {
    match s
    case Suspend(_, _, _, _, _, _, _, _) => StrandedSuspend(w, s, w', h);
    case Stop(x) => if x != h { StrandedCancel(w, x, h); }
    case Resume => StrandedResume(w, h);
    case Event(fd, dir) => StrandedFire(w, h, (fd, dir), TimerId(0, 0));
    case Expire(t) => StrandedFire(w, h, (0, Read), t);
    case _ =>
  }

  lemma {:induction false} StrandedAlong(path: Run, h: Handle, k: nat)
    requires IsPath(path) && Stranded(path.worlds[0], h) && k < |path.worlds|
    ensures Stranded(path.worlds[k], h)
  {
    if k > 0 {
      StrandedAlong(path, h, k - 1);
      assert StepAt(path, k - 1);
      StrandedStep(path.worlds[k - 1], path.steps[k - 1], path.worlds[k], h);
    }
  }

  /**
   * However its own loop goes on after a descriptor wait was cancelled from another thread, the
   * coroutine stays suspended and unlisted there, and no step of that loop resumes it. If the other
   * thread runs no loop, nobody does.
   */
  lemma StrandedForever(w: World, h: Handle, path: Run, k: nat)
    requires Inv(w) && h in w.waits && w.waits[h].state == Pending && w.waits[h].kind != Sleep
    requires IsPath(path) && path.worlds[0] == CancelOffCore(w, h) && k < |path.worlds|
    ensures h in path.worlds[k].waits && path.worlds[k].waits[h].state == Cancelled && Listed(path.worlds[k], h) == 0
    ensures k < |path.steps| ==> !Resumes(path.worlds[k], path.steps[k], h)
  {
    OffCoreStrandsIff(w, h, None);
    StrandedAlong(path, h, k);
    if k < |path.steps| {
      assert StepAt(path, k);
      StrandedStep(path.worlds[k], path.steps[k], path.worlds[k + 1], h);
    }
  }

  // ----- one parked wait, for both failures -----

  /** Coroutine 1 waits for descriptor 5 to become readable, at the end of its first round. */
  lemma OneParked() returns (run: Run, w: World)
    ensures IsRun(run) && |run.worlds| == 3 && w == run.worlds[2] && Inv(w)
    ensures run.steps == [Launch(1), Suspend(Io, 5, Read, TimerId(0, 0), 0, true, false, true)]
    ensures w.waits == map[1 := Awaiter(Io, 5, Read, None, 0, Pending, true)] && w.slots == map[(5, Read) := 1]
  {
    var a := World(Resuming, 0, None, map[], map[], map[], {}, [], [], [], []);
    var b := a.(running := Some(1));
    w := Park(b, 1, Io, 5, Read, TimerId(0, 0), 0, true, true).value;
    run := Run([a, b, w], [Launch(1), Suspend(Io, 5, Read, TimerId(0, 0), 0, true, false, true)]);
    forall k | 0 <= k < |run.steps| ensures StepAt(run, k) {
      assert k == 0 || k == 1;
    }
    RunInv(run, 2);
  }

  /** A timed wait without time left, on the same descriptor, leaves it pending and without its registration. */
  lemma ZeroTimeoutExample() returns (run: Run, w: World)
    ensures IsRun(run) && w == run.worlds[|run.worlds| - 1] && Inv(w) && !Inv(ZeroTimeout(w, 5, Read))
    ensures 1 in w.waits && w.waits[1].state == Pending && ZeroTimeout(w, 5, Read).slots == map[]
  {
    run, w := OneParked();
    ZeroTimeoutIsSafeIff(w, 5, Read);
  }

  /** Cancelled from a thread without a loop it is stranded; from one with an idle loop, it is listed there. */
  lemma OffCoreExample() returns (run: Run, w: World, other: World)
    ensures IsRun(run) && w == run.worlds[|run.worlds| - 1] && Start(other)
    ensures 1 in w.waits && Stranded(CancelOffCore(w, 1), 1)
    ensures CallerAfter(Some(other), w, 1).value.readyQueue == [1] && !Inv(CallerAfter(Some(other), w, 1).value)
  {
    run, w := OneParked();
    other := run.worlds[0];
    RunInv(run, 0);
    OffCoreStrandsIff(w, 1, Some(other));
  }
}
