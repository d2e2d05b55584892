/**
 * How the state of an event loop (a reactor, a timer wheel, the wait states of the awaiters and
 * the lists of handles to resume) mirrors a state of the wait protocol, and that each thing the
 * loop does to its parts is a step, or a run of steps, of the protocol.
 */
module LoopMirror {
  import opened Prelude
  import opened Firing
  import opened Reactor
  import opened TimerSpec
  import opened WaitProtocol

  /** How the awaiters register: they point to their own coroutine and their own wait state. */
  function IoWaiter(h: Handle): Waiter { Waiter(Some(h), Some(h), Ready) }

  function TimerWaiter(h: Handle, kind: Kind): Waiter {
    Waiter(Some(h), Some(h), if kind == Sleep then Ready else TimedOut)
  }

  /** The wait states of the suspended awaiters, and no others, are allocated. */
  ghost predicate StatesMatch(w: World, mem: Memory) {
    && mem.Keys == w.waits.Keys
    && forall h {:trigger mem[h]} {:trigger w.waits[h]} :: h in w.waits ==> mem[h] == w.waits[h].state
  }

  ghost predicate SlotMatches(w: World, slots: seq<FdEntry>, fd: int, d: Dir) {
    EntryAt(slots, fd, d) == if (fd, d) in w.slots then Some(IoWaiter(w.slots[(fd, d)])) else None
  }

  ghost predicate SlotsMatch(w: World, slots: seq<FdEntry>) {
    forall fd, d {:trigger SlotMatches(w, slots, fd, d)} :: SlotMatches(w, slots, fd, d)
  }

  ghost predicate TimerMatches(w: World, timers: map<TimerId, Timer>, id: TimerId) {
    && (id in timers <==> id in w.timers)
    && (id in timers ==>
          && w.timers[id] in w.waits && timers[id].due == w.waits[w.timers[id]].due
          && timers[id].entry.waiter == TimerWaiter(w.timers[id], w.waits[w.timers[id]].kind))
  }

  ghost predicate TimersMatch(w: World, timers: map<TimerId, Timer>) {
    forall id {:trigger TimerMatches(w, timers, id)} :: TimerMatches(w, timers, id)
  }

  // ----- a batch of reactor events is a run of protocol steps -----

  function LastOf(run: Run): World
    requires run.worlds != []
  {
    run.worlds[|run.worlds| - 1]
  }

  function Extend(run: Run, s: Step, w: World): Run {
    Run(run.worlds + [w], run.steps + [s])
  }

  /** `run'` is `run` continued by the steps `more`. */
  ghost predicate Continues(run: Run, more: seq<Step>, run': Run) {
    run'.steps == run.steps + more && run.worlds <= run'.worlds
  }

  lemma ContinuesTwice(run: Run, a: seq<Step>, middle: Run, b: seq<Step>, run': Run)
    requires Continues(run, a, middle) && Continues(middle, b, run')
    ensures Continues(run, a + b, run')
  {
    assert run.steps + a + b == run.steps + (a + b);
  }

  lemma ExtendRun(run: Run, s: Step, w: World)
    requires IsRun(run) && Next(LastOf(run), s, w)
    ensures IsRun(Extend(run, s, w)) && LastOf(Extend(run, s, w)) == w && Continues(run, [s], Extend(run, s, w))
  {
    var run' := Extend(run, s, w);
    forall k | 0 <= k < |run'.steps| ensures WaitProtocol.StepAt(run', k) {
      assert k < |run.steps| ==> WaitProtocol.StepAt(run, k);
    }
  }

  /** `w'` differs from `w` at most in decisions taken and in what the deciding side lists and holds. */
  ghost predicate SameWaits(w: World, w': World) {
    && w'.waits.Keys == w.waits.Keys
    && forall h {:trigger w'.waits[h]} :: h in w.waits ==> w'.waits[h] == w.waits[h].(state := w'.waits[h].state)
  }

  /** Everything but the waits, the reactor's registrations and the reactor's list is the same. */
  ghost predicate OnlyReactor(w: World, w': World) {
    SameWaits(w, w') && w' == w.(waits := w'.waits, slots := w'.slots, reactorReady := w'.reactorReady)
  }

  /** Everything but the waits, the live timers and the wheel's list is the same. */
  ghost predicate OnlyWheel(w: World, w': World) {
    SameWaits(w, w') && w' == w.(waits := w'.waits, timers := w'.timers, timerReady := w'.timerReady)
  }

  ghost predicate OwnedBy(w: World, hits: seq<(int, Dir)>, waiters: seq<Waiter>) {
    && NoDuplicates(hits) && |waiters| == |hits|
    && forall i {:trigger hits[i]} :: 0 <= i < |hits| ==> hits[i] in w.slots && waiters[i] == IoWaiter(w.slots[hits[i]])
  }

  /** What taking out and firing `hits` makes of `w`. */
  ghost predicate PollEffect(w: World, hits: seq<(int, Dir)>, w': World, mem': Memory, woken: seq<Handle>) {
    && OnlyReactor(w, w')
    && StatesMatch(w', mem')
    && w'.reactorReady == w.reactorReady + woken
    && (forall k {:trigger SlotAfter(w, hits, w', k)} :: SlotAfter(w, hits, w', k))
  }

  ghost predicate SlotAfter(w: World, hits: seq<(int, Dir)>, w': World, k: (int, Dir)) {
    (k in w'.slots <==> k in w.slots && k !in hits) && (k in w'.slots ==> w'.slots[k] == w.slots[k])
  }

  /** One more event. */
  lemma EventEffect(w: World, hits: seq<(int, Dir)>, b: World, m: Memory, woken: seq<Handle>, k: (int, Dir))
    requires PollEffect(w, hits, b, m, woken) && k in b.slots && b.slots[k] in b.waits
    ensures Allocated(IoWaiter(b.slots[k]), m)
    ensures
      var r := FireOne(IoWaiter(b.slots[k]), m, {});
      PollEffect(w, hits + [k], FireIo(b, k), r.0, woken + r.1)
  {
    var h := b.slots[k];
    var b', r := FireIo(b, k), FireOne(IoWaiter(h), m, {});
    assert m[h] == b.waits[h].state;
    assert b'.reactorReady == w.reactorReady + (woken + r.1);
    forall x ensures SlotAfter(w, hits + [k], b', x) {
      assert SlotAfter(w, hits, b, x);
      assert x in hits + [k] <==> x in hits || x == k;
    }
    assert SameWaits(w, b') by {
      forall x | x in w.waits ensures b'.waits[x] == w.waits[x].(state := b'.waits[x].state) {
        assert b.waits[x] == w.waits[x].(state := b.waits[x].state);
      }
    }
  }

  lemma EventStep(run: Run, k: (int, Dir)) returns (run': Run)
    requires IsRun(run) && LastOf(run).phase == Polling && k in LastOf(run).slots
    ensures LastOf(run).slots[k] in LastOf(run).waits
    ensures IsRun(run') && LastOf(run') == FireIo(LastOf(run), k) && Continues(run, [Event(k.0, k.1)], run')
  {
    var w := LastOf(run);
    RunInv(run, |run.worlds| - 1);
    assert SlotOk(w, k);
    assert Next(w, Event(k.0, k.1), FireIo(w, k));
    ExtendRun(run, Event(k.0, k.1), FireIo(w, k));
    run' := Extend(run, Event(k.0, k.1), FireIo(w, k));
  }

  /** The Event steps for a list of hits, in order. */
  function EventsOf(hits: seq<(int, Dir)>): seq<Step> {
    seq(|hits|, i requires 0 <= i < |hits| => Event(hits[i].0, hits[i].1))
  }

  /** From `run` on, taking out `hits` has led to `run'`, with the effects of firing their waiters. */
  ghost predicate EventsServed(run: Run, mem: Memory, hits: seq<(int, Dir)>, waiters: seq<Waiter>, run': Run) {
    && run.worlds != [] && run'.worlds != []
    && AllAllocated(waiters, mem)
    && Continues(run, EventsOf(hits), run')
    && PollEffect(LastOf(run), hits, LastOf(run'), FireAll(waiters, mem, {}).0, FireAll(waiters, mem, {}).1)
  }

  /** One more event, as a step of the protocol. */
  lemma PollOne(run: Run, mem: Memory, hits: seq<(int, Dir)>, waiters: seq<Waiter>, before: Run, k: (int, Dir))
    returns (run': Run)
    requires IsRun(before) && EventsServed(run, mem, hits, waiters, before) && LastOf(run).phase == Polling
    requires k in LastOf(run).slots && k !in hits && StatesMatch(LastOf(run), mem)
    ensures IsRun(run')
    ensures EventsServed(run, mem, hits + [k], waiters + [IoWaiter(LastOf(run).slots[k])], run')
  {
    var w, b, r := LastOf(run), LastOf(before), FireAll(waiters, mem, {});
    assert SlotAfter(w, hits, b, k);
    run' := EventStep(before, k);
    EventEffect(w, hits, b, r.0, r.1, k);
    FireSnoc(waiters, IoWaiter(w.slots[k]), mem, {});
    ContinuesTwice(run, EventsOf(hits), before, [Event(k.0, k.1)], run');
    assert EventsOf(hits + [k]) == EventsOf(hits) + [Event(k.0, k.1)];
  }

  /**
   * Firing the waiters a poll has taken out is a run of Event steps, in the same order, with the
   * same effect on the wait states and on the reactor's list.
   */
  lemma {:induction false} PollMirrors(run: Run, mem: Memory, hits: seq<(int, Dir)>, waiters: seq<Waiter>)
    returns (run': Run)
    requires IsRun(run) && LastOf(run).phase == Polling && StatesMatch(LastOf(run), mem)
    requires OwnedBy(LastOf(run), hits, waiters)
    ensures IsRun(run') && EventsServed(run, mem, hits, waiters, run')
  {
    if hits == [] {
      run' := run;
      assert run.steps + EventsOf(hits) == run.steps;
    } else {
      var n := |hits| - 1;
      FirstHits(LastOf(run), hits, waiters);
      var before := PollMirrors(run, mem, hits[..n], waiters[..n]);
      run' := PollOne(run, mem, hits[..n], waiters[..n], before, hits[n]);
      assert waiters == waiters[..n] + [waiters[n]] && hits == hits[..n] + [hits[n]];
    }
  }

  lemma FirstHits(w: World, hits: seq<(int, Dir)>, waiters: seq<Waiter>)
    requires OwnedBy(w, hits, waiters) && hits != []
    ensures
      var n := |hits| - 1;
      OwnedBy(w, hits[..n], waiters[..n]) && hits[n] !in hits[..n] && hits[n] in w.slots
      && waiters[n] == IoWaiter(w.slots[hits[n]])
  {
    var n := |hits| - 1;
    assert hits == hits[..n] + [hits[n]];
    forall x ensures Count(hits[..n], x) <= 1 {
      assert Count(hits, x) <= 1;
    }
    assert Count(hits, hits[n]) <= 1;
  }

  // ----- a run of ticks is a run of protocol steps -----

  ghost predicate TimersOf(w: World, ids: seq<TimerId>, waiters: seq<Waiter>) {
    && NoDuplicates(ids) && |waiters| == |ids|
    && forall i {:trigger ids[i]} :: 0 <= i < |ids| ==>
        && Overdue(w, ids[i])
        && waiters[i] == TimerWaiter(w.timers[ids[i]], w.waits[w.timers[ids[i]]].kind)
  }

  /** What expiring `ids` makes of `w`. */
  ghost predicate TickEffect(w: World, ids: seq<TimerId>, w': World, mem': Memory, woken: seq<Handle>) {
    && OnlyWheel(w, w')
    && StatesMatch(w', mem')
    && w'.timerReady == w.timerReady + woken
    && (forall t {:trigger TimerAfter(w, ids, w', t)} :: TimerAfter(w, ids, w', t))
  }

  ghost predicate TimerAfter(w: World, ids: seq<TimerId>, w': World, t: TimerId) {
    (t in w'.timers <==> t in w.timers && t !in ids) && (t in w'.timers ==> w'.timers[t] == w.timers[t])
  }

  lemma ExpireEffect(w: World, ids: seq<TimerId>, b: World, m: Memory, woken: seq<Handle>, t: TimerId)
    requires TickEffect(w, ids, b, m, woken) && t in b.timers && b.timers[t] in b.waits
    ensures Allocated(TimerWaiter(b.timers[t], b.waits[b.timers[t]].kind), m)
    ensures
      var r := FireOne(TimerWaiter(b.timers[t], b.waits[b.timers[t]].kind), m, {});
      TickEffect(w, ids + [t], FireTimer(b, t), r.0, woken + r.1)
  {
    var h := b.timers[t];
    var b', r := FireTimer(b, t), FireOne(TimerWaiter(h, b.waits[h].kind), m, {});
    assert m[h] == b.waits[h].state;
    assert b'.timerReady == w.timerReady + (woken + r.1);
    forall x ensures TimerAfter(w, ids + [t], b', x) {
      assert TimerAfter(w, ids, b, x);
      assert x in ids + [t] <==> x in ids || x == t;
    }
    assert SameWaits(w, b') by {
      forall x | x in w.waits ensures b'.waits[x] == w.waits[x].(state := b'.waits[x].state) {
        assert b.waits[x] == w.waits[x].(state := b.waits[x].state);
      }
    }
  }

  lemma ExpireStep(run: Run, t: TimerId) returns (run': Run)
    requires IsRun(run) && LastOf(run).phase == Ticking && Overdue(LastOf(run), t)
    ensures IsRun(run') && LastOf(run') == FireTimer(LastOf(run), t) && Continues(run, [Expire(t)], run')
  {
    var w := LastOf(run);
    assert Next(w, Expire(t), FireTimer(w, t));
    ExtendRun(run, Expire(t), FireTimer(w, t));
    run' := Extend(run, Expire(t), FireTimer(w, t));
  }

  /** The Expire steps for a list of timers, in order. */
  function ExpiriesOf(ids: seq<TimerId>): seq<Step> {
    seq(|ids|, i requires 0 <= i < |ids| => Expire(ids[i]))
  }

  /** From `run` on, expiring `ids` has led to `run'`, with the effects of firing their waiters. */
  ghost predicate Ticked(run: Run, mem: Memory, ids: seq<TimerId>, waiters: seq<Waiter>, run': Run) {
    && run.worlds != [] && run'.worlds != []
    && AllAllocated(waiters, mem)
    && Continues(run, ExpiriesOf(ids), run')
    && TickEffect(LastOf(run), ids, LastOf(run'), FireAll(waiters, mem, {}).0, FireAll(waiters, mem, {}).1)
  }

  /** One more expiry, as a step of the protocol. */
  lemma TickOne(run: Run, mem: Memory, ids: seq<TimerId>, waiters: seq<Waiter>, before: Run, t: TimerId)
    returns (run': Run)
    requires IsRun(before) && Ticked(run, mem, ids, waiters, before) && LastOf(run).phase == Ticking
    requires Overdue(LastOf(run), t) && t !in ids && StatesMatch(LastOf(run), mem)
    ensures IsRun(run')
    ensures
      var w := LastOf(run);
      Ticked(run, mem, ids + [t], waiters + [TimerWaiter(w.timers[t], w.waits[w.timers[t]].kind)], run')
  {
    var w, b, r := LastOf(run), LastOf(before), FireAll(waiters, mem, {});
    var wt := TimerWaiter(w.timers[t], w.waits[w.timers[t]].kind);
    assert TimerAfter(w, ids, b, t);
    assert b.waits[w.timers[t]].(state := Pending) == w.waits[w.timers[t]].(state := Pending);
    run' := ExpireStep(before, t);
    ExpireEffect(w, ids, b, r.0, r.1, t);
    FireSnoc(waiters, wt, mem, {});
    ContinuesTwice(run, ExpiriesOf(ids), before, [Expire(t)], run');
    assert ExpiriesOf(ids + [t]) == ExpiriesOf(ids) + [Expire(t)];
  }

  /** Firing the waiters of expired timers is a run of Expire steps, in the same order and with the same effect. */
  lemma {:induction false} TickMirrors(run: Run, mem: Memory, ids: seq<TimerId>, waiters: seq<Waiter>)
    returns (run': Run)
    requires IsRun(run) && LastOf(run).phase == Ticking && StatesMatch(LastOf(run), mem)
    requires TimersOf(LastOf(run), ids, waiters)
    ensures IsRun(run') && Ticked(run, mem, ids, waiters, run')
  {
    if ids == [] {
      run' := run;
      assert run.steps + ExpiriesOf(ids) == run.steps;
    } else {
      var n := |ids| - 1;
      FirstIds(LastOf(run), ids, waiters);
      var before := TickMirrors(run, mem, ids[..n], waiters[..n]);
      run' := TickOne(run, mem, ids[..n], waiters[..n], before, ids[n]);
      assert waiters == waiters[..n] + [waiters[n]] && ids == ids[..n] + [ids[n]];
    }
  }

  lemma FirstIds(w: World, ids: seq<TimerId>, waiters: seq<Waiter>)
    requires TimersOf(w, ids, waiters) && ids != []
    ensures
      var n := |ids| - 1;
      TimersOf(w, ids[..n], waiters[..n]) && ids[n] !in ids[..n] && Overdue(w, ids[n])
      && waiters[n] == TimerWaiter(w.timers[ids[n]], w.waits[w.timers[ids[n]]].kind)
  {
    var n := |ids| - 1;
    assert ids == ids[..n] + [ids[n]];
    forall x ensures Count(ids[..n], x) <= 1 {
      assert Count(ids, x) <= 1;
    }
    assert Count(ids, ids[n]) <= 1;
  }

  // ----- the whole mirror -----

  /** The fields of an awaiter besides its wait state. */
  datatype Awaiting = Awaiting(kind: Kind, fd: int, dir: Dir, timer: Option<TimerId>, hooked: bool)

  /** What an event loop consists of, as far as waiting goes. */
  datatype Parts = Parts(
    running: Option<Handle>, readyQueue: seq<Handle>, scratch: seq<Handle>,
    mem: Memory, awaiters: map<Handle, Awaiting>,
    slots: seq<FdEntry>, reactorReady: seq<Handle>,
    timers: map<TimerId, Timer>, issued: set<TimerId>, timerReady: seq<Handle>, now: nat)

  ghost predicate FrameMatches(w: World, awaiters: map<Handle, Awaiting>, h: Handle) {
    && (h in awaiters <==> h in w.waits)
    && (h in awaiters ==>
          var f := awaiters[h];
          w.waits[h] == Awaiter(f.kind, f.fd, f.dir, f.timer, w.waits[h].due, w.waits[h].state, f.hooked))
  }

  ghost predicate FramesMatch(w: World, awaiters: map<Handle, Awaiting>) {
    forall h {:trigger FrameMatches(w, awaiters, h)} :: FrameMatches(w, awaiters, h)
  }

  ghost predicate Mirror(w: World, p: Parts) {
    && w.running == p.running && w.readyQueue == p.readyQueue && w.scratch == p.scratch
    && w.reactorReady == p.reactorReady && w.timerReady == p.timerReady && w.issued == p.issued && w.clock == p.now
    && StatesMatch(w, p.mem)
    && FramesMatch(w, p.awaiters)
    && SlotsMatch(w, p.slots)
    && TimersMatch(w, p.timers)
  }

  /** The table of registrations with the one at `(fd, d)` replaced. */
  ghost predicate Reslotted(slots: seq<FdEntry>, slots': seq<FdEntry>, fd: int, d: Dir, entry: Option<Waiter>) {
    OnlyAt(slots, slots', fd, d) && EntryAt(slots', fd, d) == entry
  }

  lemma SlotsReslotted(
    w: World, w': World, slots: seq<FdEntry>, slots': seq<FdEntry>, fd: int, d: Dir, h: Option<Handle>)
    requires SlotsMatch(w, slots)
    requires Reslotted(slots, slots', fd, d, if h.Some? then Some(IoWaiter(h.value)) else None)
    requires w'.slots == if h.Some? then w.slots[(fd, d) := h.value] else w.slots - {(fd, d)}
    ensures SlotsMatch(w', slots')
  {
    forall x, y ensures SlotMatches(w', slots', x, y) {
      assert SlotMatches(w, slots, x, y);
      assert (x, y) != (fd, d) ==> EntryAt(slots', x, y) == EntryAt(slots, x, y);
    }
  }

  lemma SlotsSame(w: World, w': World, slots: seq<FdEntry>, slots': seq<FdEntry>)
    requires SlotsMatch(w, slots) && w'.slots == w.slots
    requires forall x, y {:trigger EntryAt(slots', x, y)} :: EntryAt(slots', x, y) == EntryAt(slots, x, y)
    ensures SlotsMatch(w', slots')
  {
    forall x, y ensures SlotMatches(w', slots', x, y) {
      assert SlotMatches(w, slots, x, y);
      assert EntryAt(slots', x, y) == EntryAt(slots, x, y);
    }
  }

  ghost predicate SameWait(w: World, w': World, h: Handle)
    requires h in w.waits
  {
    h in w'.waits && w'.waits[h].kind == w.waits[h].kind && w'.waits[h].due == w.waits[h].due
  }

  /** Decisions and registrations do not change whose timers are whose. */
  lemma TimersLess(w: World, w': World, timers: map<TimerId, Timer>, timers': map<TimerId, Timer>, gone: set<TimerId>)
    requires TimersMatch(w, timers) && timers' == timers - gone && w'.timers == w.timers - gone
    requires forall t <- w'.timers :: w'.timers[t] in w.waits ==> SameWait(w, w', w'.timers[t])
    ensures TimersMatch(w', timers')
  {
    forall t ensures TimerMatches(w', timers', t) {
      assert TimerMatches(w, timers, t);
    }
  }

  /** The stop callback. */
  lemma MirrorCancel(w: World, p: Parts, h: Handle, slots': seq<FdEntry>)
    requires Mirror(w, p) && Inv(w) && h in p.awaiters && h in w.waits && w.waits[h].state == Pending
    requires
      var f := p.awaiters[h];
      if UsesIo(f.kind) then Reslotted(p.slots, slots', f.fd, f.dir, None) else slots' == p.slots
    ensures
      var f := p.awaiters[h];
      Mirror(CancelWait(w, h), p.(
        mem := p.mem[h := Cancelled], slots := slots',
        timers := if f.timer.Some? then p.timers - {f.timer.value} else p.timers,
        readyQueue := if f.kind == Sleep then p.readyQueue else p.readyQueue + [h],
        timerReady := if f.kind == Sleep then p.timerReady + [h] else p.timerReady))
  {
    var f, w' := p.awaiters[h], CancelWait(w, h);
    assert FrameMatches(w, p.awaiters, h);
    if UsesIo(f.kind) {
      SlotsReslotted(w, w', p.slots, slots', f.fd, f.dir, None);
    } else {
      SlotsSame(w, w', p.slots, slots');
    }
    var gone: set<TimerId> := if f.timer.Some? then {f.timer.value} else {};
    assert p.timers - {} == p.timers && w.timers - {} == w.timers;
    TimersLess(w, w', p.timers, p.timers - gone, gone);
    forall x ensures FrameMatches(w', p.awaiters, x) {
      assert FrameMatches(w, p.awaiters, x);
    }
  }

  /** `await_resume`. */
  lemma MirrorAwaken(w: World, p: Parts, h: Handle, slots': seq<FdEntry>)
    requires Mirror(w, p) && Inv(w) && h in p.awaiters && h in p.mem && p.scratch != [] && p.scratch[0] == h
    requires p.mem[h] != Pending
    requires
      var f := p.awaiters[h];
      if f.kind == Timed && p.mem[h] == TimedOut then Reslotted(p.slots, slots', f.fd, f.dir, None)
      else slots' == p.slots
    ensures h in w.waits && w.waits[h].state == p.mem[h]
    ensures
      var f := p.awaiters[h];
      Mirror(Awaken(w, h).(scratch := w.scratch[1..]), p.(
        running := Some(h), scratch := p.scratch[1..], mem := p.mem - {h}, awaiters := p.awaiters - {h},
        slots := slots',
        timers := if f.kind == Timed && p.mem[h] != TimedOut && f.timer.Some? then p.timers - {f.timer.value}
                  else p.timers))
  {
    assert FrameMatches(w, p.awaiters, h);
    assert p.mem[h] == w.waits[h].state;
    var f, w' := p.awaiters[h], Awaken(w, h).(scratch := w.scratch[1..]);
    if f.kind == Timed && p.mem[h] == TimedOut {
      SlotsReslotted(w, w', p.slots, slots', f.fd, f.dir, None);
    } else {
      SlotsSame(w, w', p.slots, slots');
    }
    var gone: set<TimerId> := if f.kind == Timed && p.mem[h] != TimedOut && f.timer.Some? then {f.timer.value} else {};
    assert p.timers - {} == p.timers && w.timers - {} == w.timers;
    forall t | t in w'.timers ensures w'.timers[t] != h {
      assert TimerOk(w, t) && WaitOk(w, h);
    }
    TimersLess(w, w', p.timers, p.timers - gone, gone);
    forall x ensures FrameMatches(w', p.awaiters - {h}, x) {
      assert FrameMatches(w, p.awaiters, x);
    }
  }

  /** `await_suspend` when the registration succeeds. */
  lemma MirrorPark(
    w: World, p: Parts, h: Handle, kind: Kind, fd: int, dir: Dir, id: TimerId, due: nat, hooked: bool,
    slots': seq<FdEntry>, timer: Timer)
    requires Mirror(w, p) && Inv(w) && w.running == Some(h) && Park(w, h, kind, fd, dir, id, due, hooked, true).Some?
    requires UsesTimer(kind) ==> id !in w.issued && timer.entry.waiter == TimerWaiter(h, kind) && timer.due == due
    requires if UsesIo(kind) then Reslotted(p.slots, slots', fd, dir, Some(IoWaiter(h))) else slots' == p.slots
    ensures
      Mirror(Park(w, h, kind, fd, dir, id, due, hooked, true).value, p.(
        running := None, mem := p.mem[h := Pending],
        awaiters := p.awaiters[h := Awaiting(kind, fd, dir, if UsesTimer(kind) then Some(id) else None, hooked)],
        slots := slots',
        timers := if UsesTimer(kind) then p.timers[id := timer] else p.timers,
        issued := Issue(w, kind, id)))
  {
    var w' := Park(w, h, kind, fd, dir, id, due, hooked, true).value;
    assert WaitOk(w, h);
    if UsesIo(kind) {
      SlotsReslotted(w, w', p.slots, slots', fd, dir, Some(h));
    } else {
      SlotsSame(w, w', p.slots, slots');
    }
    var timers' := if UsesTimer(kind) then p.timers[id := timer] else p.timers;
    forall t ensures TimerMatches(w', timers', t) {
      assert TimerMatches(w, p.timers, t) && TimerOk(w, t);
    }
    var awaiters' := p.awaiters[h := Awaiting(kind, fd, dir, if UsesTimer(kind) then Some(id) else None, hooked)];
    forall x ensures FrameMatches(w', awaiters', x) {
      assert FrameMatches(w, p.awaiters, x);
    }
  }

  /** Whoever the reactor or the wheel points to is suspended, so its wait state is allocated. */
  lemma MirrorAllocated(w: World, p: Parts)
    requires Mirror(w, p) && Inv(w)
    ensures AllStates(p.slots, p.mem) && StatesIn(p.timers, p.mem)
  {
    forall fd, d | EntryAt(p.slots, fd, d).Some? ensures Allocated(EntryAt(p.slots, fd, d).value, p.mem) {
      assert SlotMatches(w, p.slots, fd, d) && SlotOk(w, (fd, d));
    }
    forall t | t in p.timers ensures Allocated(p.timers[t].entry.waiter, p.mem) {
      assert TimerMatches(w, p.timers, t);
    }
  }

  lemma FramesSame(w: World, w': World, awaiters: map<Handle, Awaiting>, timers: map<TimerId, Timer>)
    requires FramesMatch(w, awaiters) && SameWaits(w, w')
    ensures FramesMatch(w', awaiters)
    ensures TimersMatch(w, timers) && w'.timers == w.timers ==> TimersMatch(w', timers)
  {
    forall x ensures FrameMatches(w', awaiters, x) {
      assert FrameMatches(w, awaiters, x);
    }
    if TimersMatch(w, timers) && w'.timers == w.timers {
      forall t ensures TimerMatches(w', timers, t) {
        assert TimerMatches(w, timers, t);
      }
    }
  }

  /** The reactor's poll is a run of Event steps. */
  lemma MirrorPoll(run: Run, p: Parts, g: PollRun, slots': seq<FdEntry>, mem': Memory, ready': seq<Handle>)
    returns (run': Run)
    requires IsRun(run) && LastOf(run).phase == Polling && Mirror(LastOf(run), p)
    requires Polled(g, slots', mem', ready') && Reactor.SameRun(Reactor.Begin(p.slots, p.mem, p.reactorReady), g)
    ensures IsRun(run') && Continues(run, EventsOf(g.hits), run') && LastOf(run').phase == Polling
    ensures Mirror(LastOf(run'), p.(slots := slots', mem := mem', reactorReady := ready'))
  {
    var w := LastOf(run);
    HitsOwned(w, p, g);
    run' := PollMirrors(run, p.mem, g.hits, g.waiters);
    var w' := LastOf(run');
    FramesSame(w, w', p.awaiters, p.timers);
    forall x, y ensures SlotMatches(w', slots', x, y) {
      assert SlotMatches(w, p.slots, x, y) && TakenAt(g, slots', x, y) && SlotAfter(w, g.hits, w', (x, y));
    }
  }

  lemma HitsOwned(w: World, p: Parts, g: PollRun)
    requires SlotsMatch(w, p.slots) && TakenOut(g) && g.slots0 == p.slots
    ensures OwnedBy(w, g.hits, g.waiters)
  {
    forall i | 0 <= i < |g.hits| ensures g.hits[i] in w.slots && g.waiters[i] == IoWaiter(w.slots[g.hits[i]]) {
      var k := g.hits[i];
      assert SlotMatches(w, p.slots, k.0, k.1);
      assert k == (k.0, k.1);
    }
  }

  /** The wheel's run of ticks is a run of Expire steps, once the clock stands where the ticks end. */
  lemma MirrorTick(run: Run, p: Parts, g: Progress, b: nat, o: TimerSpec.Outcome) returns (run': Run)
    requires IsRun(run) && LastOf(run).phase == Ticking && Mirror(LastOf(run), p) && p.now <= b
    requires SweptTo(g, b, {}, o)
    requires TimerSpec.SameRun(TimerSpec.Begin(TimerSpec.Outcome(p.timers, p.mem, p.timerReady)), g)
    ensures IsRun(run') && Continues(run, [Advance(b)] + ExpiriesOf(g.expired), run') && LastOf(run').phase == Ticking
    ensures Mirror(LastOf(run'), p.(timers := o.timers, mem := o.mem, timerReady := o.ready, now := b))
  {
    var w := LastOf(run).(clock := b);
    ExtendRun(run, Advance(b), w);
    var at := Extend(run, Advance(b), w);
    FramesSame(LastOf(run), w, p.awaiters, p.timers);
    ExpiredOwned(w, p, g, b, o);
    run' := TickMirrors(at, p.mem, g.expired, g.waiters);
    ContinuesTwice(run, [Advance(b)], at, ExpiriesOf(g.expired), run');
    MirrorTicked(LastOf(run), w, p, g, b, o, LastOf(run'));
  }

  lemma MirrorTicked(v: World, w: World, p: Parts, g: Progress, b: nat, o: TimerSpec.Outcome, w': World)
    requires Mirror(v, p) && w == v.(clock := b) && TimersMatch(w, p.timers) && FramesMatch(w, p.awaiters)
    requires SweptTo(g, b, {}, o)
    requires TimerSpec.SameRun(TimerSpec.Begin(TimerSpec.Outcome(p.timers, p.mem, p.timerReady)), g)
    requires TickEffect(w, g.expired, w', o.mem, g.woken)
    ensures Mirror(w', p.(timers := o.timers, mem := o.mem, timerReady := o.ready, now := b))
  {
    FramesSame(w, w', p.awaiters, p.timers);
    SlotsSame(v, w', p.slots, p.slots);
    forall t ensures TimerMatches(w', o.timers, t) {
      assert TimerMatches(w, p.timers, t) && SweptOne(g.t0, o.timers, g.expired, b, t);
      assert TimerAfter(w, g.expired, w', t);
    }
  }

  lemma ExpiredOwned(w: World, p: Parts, g: Progress, b: nat, o: TimerSpec.Outcome)
    requires TimersMatch(w, p.timers) && w.clock == b && SweptTo(g, b, {}, o) && g.t0 == p.timers
    ensures TimersOf(w, g.expired, g.waiters)
  {
    forall i | 0 <= i < |g.expired|
      ensures Overdue(w, g.expired[i])
      ensures g.waiters[i] == TimerWaiter(w.timers[g.expired[i]], w.waits[w.timers[g.expired[i]]].kind)
    {
      assert TimerMatches(w, p.timers, g.expired[i]) && SweptOne(g.t0, o.timers, g.expired, b, g.expired[i]);
    }
  }

  /** A wheel with nothing overdue is mirrored by a state with nothing overdue. */
  lemma NoneOverdue(w: World, p: Parts)
    requires Mirror(w, p) && forall t <- p.timers :: p.timers[t].due >= p.now
    ensures forall t {:trigger Overdue(w, t)} :: !Overdue(w, t)
  {
    forall t ensures !Overdue(w, t) {
      assert TimerMatches(w, p.timers, t);
    }
  }

  // ----- which waits a poll and a run of ticks decide -----

  /** A wait in state `s` is in state `s'` after a poll that reported `events`. */
  ghost predicate AfterPoll(f: Awaiting, s: WaitState, s': WaitState, events: seq<IoReady>) {
    var concerned := exists i :: 0 <= i < |events| && events[i].fd == f.fd &&
                                 (events[i].err || if f.dir == Read then events[i].readable else events[i].writable);
    s' == if s == Pending && UsesIo(f.kind) && concerned then Ready else s
  }

  /** A wait in state `s`, with a timer due at `due` if it has one, is in state `s'` once the wheel is at `now`. */
  ghost predicate AfterTicks(f: Awaiting, due: nat, now: nat, s: WaitState, s': WaitState) {
    s' == if s == Pending && UsesTimer(f.kind) && due < now then (if f.kind == Sleep then Ready else TimedOut) else s
  }

  /** The waiters taken out belong to different waits. */
  lemma HitsApart(w: World, hits: seq<(int, Dir)>, waiters: seq<Waiter>)
    requires Inv(w) && OwnedBy(w, hits, waiters)
    ensures OwnStates(waiters)
  {
    forall i, j | 0 <= i < j < |waiters| && waiters[i].state.Some? ensures waiters[i].state != waiters[j].state {
      assert hits[i] in w.slots && hits[j] in w.slots && SlotOk(w, hits[i]) && SlotOk(w, hits[j]);
      NotTwice(hits, i, j);
    }
  }

  lemma NotTwice<T(!new)>(s: seq<T>, i: nat, j: nat)
    requires NoDuplicates(s) && i < j < |s|
    ensures s[i] != s[j]
  {
    assert s == s[..j] + [s[j]] + s[j + 1..];
    assert s[i] in s[..j];
    assert Count(s, s[j]) <= 1;
  }

  /** Exactly the pending waits whose registration was taken out become ready. */
  lemma HitsDecide(w: World, hits: seq<(int, Dir)>, waiters: seq<Waiter>, mem: Memory, h: Handle)
    requires Inv(w) && OwnedBy(w, hits, waiters) && StatesMatch(w, mem) && AllAllocated(waiters, mem) && h in w.waits
    ensures
      var a := w.waits[h];
      FireAll(waiters, mem, {}).0[h] ==
        if a.state == Pending && UsesIo(a.kind) && Key(a) in hits then Ready else a.state
  {
    var a := w.waits[h];
    assert mem[h] == a.state && WaitOk(w, h);
    FireAllStates(waiters, mem, {}, h);
    if a.state == Pending && UsesIo(a.kind) && Key(a) in hits {
      var i :| 0 <= i < |hits| && hits[i] == Key(a);
      HitsApart(w, hits, waiters);
      Independent(waiters, mem, {}, i);
    } else {
      forall i | 0 <= i < |waiters| ensures a.state == Pending ==> waiters[i].state != Some(h) {
        assert hits[i] in hits && SlotOk(w, hits[i]);
      }
    }
  }

  /** What a poll decides, in terms of the loop's parts and of the events. */
  lemma PollDecides(w: World, p: Parts, g: PollRun, slots': seq<FdEntry>, mem': Memory, ready': seq<Handle>,
                    events: seq<IoReady>)
    requires Mirror(w, p) && Inv(w) && Served(p.slots, slots', events)
    requires Polled(g, slots', mem', ready') && Reactor.SameRun(Reactor.Begin(p.slots, p.mem, p.reactorReady), g)
    ensures forall h <- p.awaiters :: h in p.mem && h in mem' && AfterPoll(p.awaiters[h], p.mem[h], mem'[h], events)
  {
    HitsOwned(w, p, g);
    forall h | h in p.awaiters
      ensures h in p.mem && h in mem' && AfterPoll(p.awaiters[h], p.mem[h], mem'[h], events)
    {
      assert FrameMatches(w, p.awaiters, h) && p.mem[h] == w.waits[h].state && WaitOk(w, h);
      HitsDecide(w, g.hits, g.waiters, p.mem, h);
      var f := p.awaiters[h];
      if p.mem[h] == Pending && UsesIo(f.kind) {
        TakenIffConcerned(w, p, g, slots', events, f.fd, f.dir);
      }
    }
  }

  lemma TakenIffConcerned(
    w: World, p: Parts, g: PollRun, slots': seq<FdEntry>, events: seq<IoReady>, fd: int, d: Dir)
    requires SlotsMatch(w, p.slots) && (fd, d) in w.slots && g.slots0 == p.slots
    requires AllTaken(g, slots') && Served(p.slots, slots', events)
    ensures (fd, d) in g.hits <==>
              exists i :: 0 <= i < |events| && events[i].fd == fd &&
                          (events[i].err || if d == Read then events[i].readable else events[i].writable)
  {
    assert SlotMatches(w, p.slots, fd, d) && TakenAt(g, slots', fd, d);
    ServedByField(p.slots, slots', events);
    assert EntryAt(slots', fd, d).None? <==> (fd, d) in g.hits;
  }

  lemma TimersApart(w: World, ids: seq<TimerId>, waiters: seq<Waiter>)
    requires Inv(w) && TimersOf(w, ids, waiters)
    ensures OwnStates(waiters)
  {
    forall i, j | 0 <= i < j < |waiters| && waiters[i].state.Some? ensures waiters[i].state != waiters[j].state {
      assert Overdue(w, ids[i]) && Overdue(w, ids[j]) && TimerOk(w, ids[i]) && TimerOk(w, ids[j]);
      NotTwice(ids, i, j);
    }
  }

  /** Exactly the pending waits whose timer is among `ids` are ended by it. */
  lemma ExpiriesDecide(w: World, ids: seq<TimerId>, waiters: seq<Waiter>, mem: Memory, h: Handle)
    requires Inv(w) && TimersOf(w, ids, waiters) && StatesMatch(w, mem) && AllAllocated(waiters, mem) && h in w.waits
    ensures
      var a := w.waits[h];
      FireAll(waiters, mem, {}).0[h] ==
        if a.state == Pending && a.timer.Some? && a.timer.value in ids then
          if a.kind == Sleep then Ready else TimedOut
        else a.state
  {
    var a := w.waits[h];
    assert mem[h] == a.state && WaitOk(w, h);
    FireAllStates(waiters, mem, {}, h);
    if a.state == Pending && a.timer.Some? && a.timer.value in ids {
      var i :| 0 <= i < |ids| && ids[i] == a.timer.value;
      TimersApart(w, ids, waiters);
      Independent(waiters, mem, {}, i);
    } else {
      forall i | 0 <= i < |waiters| ensures a.state == Pending ==> waiters[i].state != Some(h) {
        assert ids[i] in ids && Overdue(w, ids[i]) && TimerOk(w, ids[i]);
      }
    }
  }

  /** What a run of ticks to tick `b` decides, in terms of the loop's parts. */
  lemma TicksDecide(w: World, p: Parts, g: Progress, b: nat, o: TimerSpec.Outcome)
    requires Mirror(w, p) && Inv(w) && w.phase == Ticking && p.now <= b && SweptTo(g, b, {}, o)
    requires TimerSpec.SameRun(TimerSpec.Begin(TimerSpec.Outcome(p.timers, p.mem, p.timerReady)), g)
    ensures forall h <- p.awaiters :: h in p.mem && h in o.mem && TimeDecides(p, b, o.mem, h)
  {
    var w' := w.(clock := b);
    NextKeeps(w, Advance(b), w');
    FramesSame(w, w', p.awaiters, p.timers);
    ExpiredOwned(w', p, g, b, o);
    forall h | h in p.awaiters ensures h in p.mem && h in o.mem && TimeDecides(p, b, o.mem, h) {
      assert FrameMatches(w, p.awaiters, h) && p.mem[h] == w.waits[h].state && WaitOk(w, h);
      ExpiriesDecide(w', g.expired, g.waiters, p.mem, h);
      var f := p.awaiters[h];
      if f.timer.Some? {
        assert SweptOne(g.t0, o.timers, g.expired, b, f.timer.value) && TimerMatches(w, p.timers, f.timer.value);
      }
    }
  }

  ghost predicate TimeDecides(p: Parts, b: nat, mem': Memory, h: Handle)
    requires h in p.awaiters && h in p.mem && h in mem'
  {
    var f := p.awaiters[h];
    && (p.mem[h] == Pending && UsesTimer(f.kind) ==> f.timer.Some? && f.timer.value in p.timers)
    && (f.timer.Some? && f.timer.value in p.timers ==>
          AfterTicks(f, p.timers[f.timer.value].due, b, p.mem[h], mem'[h]))
    && (p.mem[h] != Pending || !UsesTimer(f.kind) ==> mem'[h] == p.mem[h])
  }

  /** A step that only moves handles between lists, or hands over the core, leaves the rest of the mirror alone. */
  lemma MirrorLists(w: World, p: Parts, w': World)
    requires Mirror(w, p)
    requires w'.waits == w.waits && w'.slots == w.slots && w'.timers == w.timers
    ensures Mirror(w', p.(running := w'.running, readyQueue := w'.readyQueue, scratch := w'.scratch,
                          reactorReady := w'.reactorReady, timerReady := w'.timerReady, issued := w'.issued,
                          now := w'.clock))
  {
    SlotsSame(w, w', p.slots, p.slots);
    FramesSame(w, w', p.awaiters, p.timers);
  }
}
