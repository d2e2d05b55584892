/**
 * The epoll reactor's slot table (src/async/io_reactor.hpp) over a small model of the kernel side:
 * for every registered descriptor, the directions it is armed for. Registrations are one-shot, so
 * an event disarms its descriptor until the reactor arms it again.
 */
module Reactor {
  import opened Prelude
  import opened Firing

  datatype Dir = Read | Write

  /** One read waiter and one write waiter may be parked on a descriptor. */
  datatype FdEntry = FdEntry(read: Option<Waiter>, write: Option<Waiter>) {
    function At(d: Dir): Option<Waiter> {
      if d == Read then read else write
    }

    function With(d: Dir, w: Option<Waiter>): FdEntry {
      if d == Read then this.(read := w) else this.(write := w)
    }

    /** The directions someone is parked on. */
    function Parked(): set<Dir> {
      (if read.Some? then {Read} else {}) + if write.Some? then {Write} else {}
    }
  }

  const IDLE: FdEntry := FdEntry(None, None)

  /** Registered descriptors and the directions they are armed for; empty once a one-shot event was reported. */
  type Kernel = map<int, set<Dir>>

  /** Whether `epoll_ctl` succeeds for reasons other than the descriptor not being registered. */
  datatype Ctl = Ctl(mod: bool, add: bool)

  datatype Reply = Ok | ErrBadFd | ErrBusy | ErrCtl

  /** One entry of `epoll_wait`; an error or a hang-up concerns both directions. */
  datatype IoReady = IoReady(fd: int, readable: bool, writable: bool, err: bool)

  predicate Covers(e: IoReady, d: Dir) {
    e.err || if d == Read then e.readable else e.writable
  }

  /** Someone's event in this list ends a wait on `fd` in direction `d`. */
  ghost predicate Hit(events: seq<IoReady>, fd: int, d: Dir) {
    exists i :: 0 <= i < |events| && events[i].fd == fd && Covers(events[i], d)
  }

  /** Who is parked on `fd` in direction `d`, for any descriptor. */
  function EntryAt(slots: seq<FdEntry>, fd: int, d: Dir): Option<Waiter> {
    if 0 <= fd < |slots| then slots[fd].At(d) else None
  }

  /** Interest is armed: the kernel watches for reading exactly if a reader is parked, and so for writing. */
  ghost predicate Armed(e: FdEntry, fd: int, kernel: Kernel) {
    e.At(Read).Some? || e.At(Write).Some? ==>
      fd in kernel && (Read in kernel[fd] <==> e.At(Read).Some?) && (Write in kernel[fd] <==> e.At(Write).Some?)
  }

  /** One-shot registrations: `epoll_wait` disarms exactly the descriptors it reports. */
  ghost predicate OneShot(kernel: Kernel, kernel': Kernel, events: seq<IoReady>) {
    && kernel'.Keys == kernel.Keys
    && forall fd <- kernel ::
        kernel'[fd] == if exists i :: 0 <= i < |events| && events[i].fd == fd then {} else kernel[fd]
  }

  ghost predicate AllArmed(slots: seq<FdEntry>, kernel: Kernel, except: set<int>) {
    forall fd {:trigger Armed(slots[fd], fd, kernel)} ::
      0 <= fd < |slots| && fd !in except ==> Armed(slots[fd], fd, kernel)
  }

  ghost predicate AllStates(slots: seq<FdEntry>, mem: Memory) {
    forall fd, d {:trigger EntryAt(slots, fd, d)} ::
      EntryAt(slots, fd, d).Some? ==> Allocated(EntryAt(slots, fd, d).value, mem)
  }

  /** Nothing but the parked waiter at `(fd, d)` differs. */
  ghost predicate OnlyAt(slots: seq<FdEntry>, slots': seq<FdEntry>, fd: int, d: Dir) {
    forall x, y {:trigger EntryAt(slots', x, y)} :: (x, y) != (fd, d) ==> EntryAt(slots', x, y) == EntryAt(slots, x, y)
  }

  class EpollReactor {
    var slots: seq<FdEntry>
    var ready: seq<Handle>
    /** The kernel's side of the epoll instance. */
    var kernel: Kernel

    ghost predicate Valid()
      reads this
    {
      AllArmed(slots, kernel, {})
    }

    constructor ()
      ensures Valid() && ready == [] && forall fd, d :: EntryAt(slots, fd, d) == None
    {
      slots, ready, kernel := [], [], map[];
    }

    /** Modify the registration, or add it if the descriptor is unknown to the kernel. */
    method Ensure(fd: int, interest: set<Dir>, ctl: Ctl) returns (ok: bool)
      modifies this`kernel
      ensures ok == if fd in old(kernel) then ctl.mod else ctl.add
      ensures kernel == if ok then old(kernel)[fd := interest] else old(kernel)
    {
      if fd in kernel {
        ok := ctl.mod;
      } else {
        ok := ctl.add;
      }
      if ok {
        kernel := kernel[fd := interest];
      }
    }

    /** `register_read` and `register_write`. */
    method Register(fd: int, d: Dir, w: Waiter, ctl: Ctl) returns (r: Reply)
      requires Valid()
      modifies this
      ensures Valid() && ready == old(ready) && OnlyAt(old(slots), slots, fd, d)
      ensures r == if fd < 0 then ErrBadFd
                   else if old(EntryAt(slots, fd, d)).Some? then ErrBusy
                   else if (if fd in old(kernel) then ctl.mod else ctl.add) then Ok
                   else ErrCtl
      ensures EntryAt(slots, fd, d) == if r == Ok then Some(w) else old(EntryAt(slots, fd, d))
    {
      if fd < 0 {
        return ErrBadFd;
      }
      if fd >= |slots| {
        slots := slots + seq(fd + 1 - |slots|, _ => IDLE);
        assert forall x, y :: EntryAt(slots, x, y) == EntryAt(old(slots), x, y);
        assert AllArmed(slots, kernel, {}) by { Grown(old(slots), slots, kernel); }
      }
      if slots[fd].At(d).Some? {
        return ErrBusy;
      }
      ghost var before := slots;
      slots := slots[fd := slots[fd].With(d, Some(w))];
      var ok := Ensure(fd, slots[fd].Parked(), ctl);
      if !ok {
        slots := slots[fd := slots[fd].With(d, None)];
        assert slots == before;
        return ErrCtl;
      }
      Rearmed(before, slots, old(kernel), kernel, fd, {});
      return Ok;
    }

    /** Arms the descriptor for the directions still parked; re-arming a registered descriptor succeeds. */
    method RearmOrErase(fd: int, ghost except: set<int>)
      requires AllArmed(slots, kernel, except)
      modifies this`kernel
      ensures AllArmed(slots, kernel, except - {fd}) && old(kernel.Keys) <= kernel.Keys
    {
      if fd < 0 || fd >= |slots| {
        OutOfTable(slots, kernel, except, fd);
        return;
      }
      if slots[fd].read.None? && slots[fd].write.None? {
        Unparked(slots, kernel, fd, except);
        return;
      }
      var ok := Ensure(fd, slots[fd].Parked(), Ctl(true, true));
      Rearmed(slots, slots, old(kernel), kernel, fd, except);
    }

    /** `deregister(fd, dir)`: only the given direction is dropped, the other stays parked and armed. */
    method Deregister(fd: int, d: Dir)
      requires Valid()
      modifies this
      ensures Valid() && ready == old(ready) && OnlyAt(old(slots), slots, fd, d) && EntryAt(slots, fd, d) == None
    {
      if fd < 0 || fd >= |slots| || (slots[fd].read.None? && slots[fd].write.None?) {
        return;
      }
      assert Armed(slots[fd], fd, kernel);
      slots := slots[fd := slots[fd].With(d, None)];
      DispatchedArmed(old(slots), slots, kernel, fd, {});
      assert {} + {fd} == {fd};
      RearmOrErase(fd, {fd});
    }

    /** `deregister(fd)`: both directions are dropped. */
    method DeregisterAll(fd: int)
      requires Valid()
      modifies this
      ensures Valid() && ready == old(ready)
      ensures forall x, y {:trigger EntryAt(slots, x, y)} ::
                EntryAt(slots, x, y) == if x == fd then None else old(EntryAt(slots, x, y))
    {
      if 0 <= fd < |slots| {
        slots := slots[fd := IDLE];
        DispatchedArmed(old(slots), slots, kernel, fd, {});
        assert {} + {fd} == {fd};
        Unparked(slots, kernel, fd, {fd});
      }
    }

    /** `fire` and reset of one direction, if its waiter is parked and the event concerns it. */
    method Dispatch(e: IoReady, d: Dir, mem: Memory, ghost g: PollRun, ghost cause: nat)
      returns (completed: nat, mem': Memory, ghost g': PollRun)
      requires 0 <= e.fd < |slots| && Polled(g, slots, mem, ready) && Ordered(g) && UpTo(g, cause, d)
      modifies this`slots, this`ready
      ensures Polled(g', slots, mem', ready) && SameRun(g, g') && |g'.woken| == |g.woken| + completed
      ensures Ordered(g') && ContinuedBy(g, g', e, cause) && (d == Read ==> UpTo(g', cause, Write))
      ensures slots == if Covers(e, d) then old(slots)[e.fd := old(slots[e.fd]).With(d, None)] else old(slots)
    {
      completed, mem', g' := 0, mem, g;
      var parked := slots[e.fd].At(d);
      if parked.Some? && Covers(e, d) {
        PolledNext(g, slots, mem, ready, e.fd, d, cause);
        ghost var woken;
        completed, mem', woken := Fire(parked.value, mem);
        slots := slots[e.fd := slots[e.fd].With(d, None)];
        g' := Extend(g, e.fd, d, parked.value, woken, cause);
        OrderedMore(g, e, d, parked.value, woken, cause);
      } else {
        assert slots[e.fd := slots[e.fd].With(d, slots[e.fd].At(d))] == slots;
      }
    }

    method Fire(w: Waiter, mem: Memory) returns (completed: nat, mem': Memory, ghost woken: seq<Handle>)
      requires Allocated(w, mem)
      modifies this`ready
      ensures FireOne(w, mem, {}) == (mem', woken) && ready == old(ready) + woken && completed == |woken|
    {
      completed, mem', woken := 0, mem, [];
      if w.state.Some? {
        if mem[w.state.value] != Pending {
          return;
        }
        mem' := mem[w.state.value := w.completion];
      }
      if w.handle.Some? {
        ready := ready + [w.handle.value];
        completed, woken := 1, [w.handle.value];
      }
    }

    /** One event of the list: both directions, then re-arming for whoever is still parked. */
    method Serve(e: IoReady, mem: Memory, ghost g: PollRun, ghost except: set<int>, ghost cause: nat)
      returns (completed: nat, mem': Memory, ghost g': PollRun)
      requires Polled(g, slots, mem, ready) && AllArmed(slots, kernel, except)
      requires Ordered(g) && UpTo(g, cause, Read)
      modifies this
      ensures Polled(g', slots, mem', ready) && SameRun(g, g') && |g'.woken| == |g.woken| + completed
      ensures Ordered(g') && ContinuedBy(g, g', e, cause)
      ensures AllArmed(slots, kernel, except - {e.fd})
      ensures ServedBy(old(slots), slots, e)
    {
      completed, mem', g' := 0, mem, g;
      if e.fd < 0 || e.fd >= |slots| {
        OutOfTable(slots, kernel, except, e.fd);
        return;
      }
      if slots[e.fd].read.None? && slots[e.fd].write.None? {
        Unparked(slots, kernel, e.fd, except);
        return;
      }
      var n;
      completed, mem', g' := Dispatch(e, Read, mem, g, cause);
      ghost var middle := g';
      n, mem', g' := Dispatch(e, Write, mem', g', cause);
      ContinuedTwice(g, middle, g', e, cause);
      completed := completed + n;
      ServedAll(old(slots), slots, e);
      DispatchedArmed(old(slots), slots, kernel, e.fd, except);
      RearmOrErase(e.fd, except + {e.fd});
      assert except + {e.fd} - {e.fd} == except - {e.fd};
    }

    /**
     * `poll`: exactly the parked waiters that an event concerns are taken out, in order, and fired;
     * everybody else stays parked, and whoever is parked is armed although the events were one-shot.
     */
    method Poll(events: seq<IoReady>, mem: Memory) returns (completed: nat, mem': Memory, ghost g: PollRun)
      requires Valid() && AllStates(slots, mem)
      modifies this
      ensures Valid()
      ensures Polled(g, slots, mem', ready) && SameRun(old(Begin(slots, mem, ready)), g) && completed == |g.woken|
      ensures Served(old(slots), slots, events) && Ordered(g) && AllCaused(g, events)
      ensures OneShot(old(kernel), g.waited, events)
      ensures forall fd {:trigger EntryAt(slots, fd, Read)} ::
                EntryAt(slots, fd, Read) ==
                if exists i :: 0 <= i < |events| && events[i].fd == fd && (events[i].readable || events[i].err)
                then None
                else EntryAt(old(slots), fd, Read)
      ensures forall fd {:trigger EntryAt(slots, fd, Write)} ::
                EntryAt(slots, fd, Write) ==
                if exists i :: 0 <= i < |events| && events[i].fd == fd && (events[i].writable || events[i].err)
                then None
                else EntryAt(old(slots), fd, Write)
    {
      EpollWait(events);
      completed, mem', g := 0, mem, Begin(slots, mem, ready).(waited := kernel);
      PolledFirst(slots, mem, ready, kernel);
      ServedNone(slots, events[..0]);
      for i := 0 to |events|
        invariant Polled(g, slots, mem', ready) && SameRun(old(Begin(slots, mem, ready)), g) && completed == |g.woken|
        invariant AllArmed(slots, kernel, FdsFrom(events, i))
        invariant OneShot(old(kernel), g.waited, events)
        invariant Served(old(slots), slots, events[..i]) && Ordered(g) && UpTo(g, i, Read) && AllCaused(g, events)
      {
        var n;
        ghost var before, g0 := slots, g;
        n, mem', g := Serve(events[i], mem', g, FdsFrom(events, i), i);
        completed := completed + n;
        CausedMore(g0, before, g, events, i);
        FewerFds(slots, kernel, events, i);
        ServedMore(old(slots), before, slots, events[..i], events[i]);
        assert events[..i] + [events[i]] == events[..i + 1];
      }
      assert events[..|events|] == events;
      ServedByField(old(slots), slots, events);
    }

    /** `drain_ready_into`. */
    method DrainReadyInto(out: seq<Handle>) returns (all: seq<Handle>)
      requires Valid()
      modifies this`ready
      ensures Valid() && all == out + old(ready) && ready == []
    {
      all := out + ready;
      ready := [];
    }

    /** The kernel reports events and, the registrations being one-shot, disarms their descriptors. */
    method EpollWait(events: seq<IoReady>)
      requires Valid()
      modifies this`kernel
      ensures OneShot(old(kernel), kernel, events) && AllArmed(slots, kernel, FdsFrom(events, 0))
    {
      kernel := map fd | fd in kernel :: if exists i :: 0 <= i < |events| && events[i].fd == fd then {} else kernel[fd];
      Disarmed(slots, old(kernel), kernel, FdsFrom(events, 0));
    }
  }

  /** The descriptors of the events from the `i`-th on. */
  ghost function FdsFrom(events: seq<IoReady>, i: nat): set<int> {
    set j | i <= j < |events| :: events[j].fd
  }

  lemma FewerFds(slots: seq<FdEntry>, kernel: Kernel, events: seq<IoReady>, i: nat)
    requires i < |events| && AllArmed(slots, kernel, FdsFrom(events, i) - {events[i].fd})
    ensures AllArmed(slots, kernel, FdsFrom(events, i + 1))
  {
    forall fd | 0 <= fd < |slots| && fd !in FdsFrom(events, i + 1) ensures Armed(slots[fd], fd, kernel) {
      assert fd !in FdsFrom(events, i) - {events[i].fd};
    }
  }

  // ----- which waiters a list of events takes out -----

  ghost predicate ServedAt(slots: seq<FdEntry>, slots': seq<FdEntry>, events: seq<IoReady>, fd: int, d: Dir) {
    EntryAt(slots', fd, d) == if Hit(events, fd, d) then None else EntryAt(slots, fd, d)
  }

  /** A waiter is taken out exactly when an event of the list concerns it. */
  ghost predicate Served(slots: seq<FdEntry>, slots': seq<FdEntry>, events: seq<IoReady>) {
    forall fd, d {:trigger ServedAt(slots, slots', events, fd, d)} :: ServedAt(slots, slots', events, fd, d)
  }

  ghost predicate ServedBy(slots: seq<FdEntry>, slots': seq<FdEntry>, e: IoReady) {
    forall fd, d {:trigger EntryAt(slots', fd, d)} ::
      EntryAt(slots', fd, d) == if fd == e.fd && Covers(e, d) then None else EntryAt(slots, fd, d)
  }

  lemma ServedAll(slots: seq<FdEntry>, slots': seq<FdEntry>, e: IoReady)
    requires 0 <= e.fd < |slots|
    requires
      var middle := if Covers(e, Read) then slots[e.fd := slots[e.fd].With(Read, None)] else slots;
      slots' == if Covers(e, Write) then middle[e.fd := middle[e.fd].With(Write, None)] else middle
    ensures ServedBy(slots, slots', e)
    ensures |slots'| == |slots| && (forall x :: 0 <= x < |slots| && x != e.fd ==> slots'[x] == slots[x])
  {
  }

  lemma ServedNone(slots: seq<FdEntry>, events: seq<IoReady>)
    requires events == []
    ensures Served(slots, slots, events)
  {
  }

  lemma ServedMore(slots: seq<FdEntry>, middle: seq<FdEntry>, slots': seq<FdEntry>, events: seq<IoReady>, e: IoReady)
    requires Served(slots, middle, events) && ServedBy(middle, slots', e)
    ensures Served(slots, slots', events + [e])
  {
    forall fd, d ensures ServedAt(slots, slots', events + [e], fd, d) {
      assert ServedAt(slots, middle, events, fd, d);
      var all := events + [e];
      if Hit(events, fd, d) {
        var i :| 0 <= i < |events| && events[i].fd == fd && Covers(events[i], d);
        assert all[i] == events[i];
      }
      if fd == e.fd && Covers(e, d) {
        assert all[|events|] == e;
      }
      assert Hit(all, fd, d) <==> Hit(events, fd, d) || (fd == e.fd && Covers(e, d));
    }
  }

  /** The same on the fields of the events: who is concerned by what. */
  lemma ServedByField(slots: seq<FdEntry>, slots': seq<FdEntry>, events: seq<IoReady>)
    requires Served(slots, slots', events)
    ensures forall fd {:trigger EntryAt(slots', fd, Read)} ::
              EntryAt(slots', fd, Read) ==
              if exists i :: 0 <= i < |events| && events[i].fd == fd && (events[i].readable || events[i].err) then None
              else EntryAt(slots, fd, Read)
    ensures forall fd {:trigger EntryAt(slots', fd, Write)} ::
              EntryAt(slots', fd, Write) ==
              if exists i :: 0 <= i < |events| && events[i].fd == fd && (events[i].writable || events[i].err) then None
              else EntryAt(slots, fd, Write)
  {
    forall fd
      ensures
        EntryAt(slots', fd, Read) ==
        if exists i :: 0 <= i < |events| && events[i].fd == fd && (events[i].readable || events[i].err) then None
        else EntryAt(slots, fd, Read)
    {
      assert ServedAt(slots, slots', events, fd, Read);
      if i :| 0 <= i < |events| && events[i].fd == fd && (events[i].readable || events[i].err) {
        assert Covers(events[i], Read);
      }
    }
    forall fd
      ensures
        EntryAt(slots', fd, Write) ==
        if exists i :: 0 <= i < |events| && events[i].fd == fd && (events[i].writable || events[i].err) then None
        else EntryAt(slots, fd, Write)
    {
      assert ServedAt(slots, slots', events, fd, Write);
      if i :| 0 <= i < |events| && events[i].fd == fd && (events[i].writable || events[i].err) {
        assert Covers(events[i], Write);
      }
    }
  }

  // ----- what a poll has done so far -----

  /**
   * What the poll began with; whom it has taken out, in order, and for which event; whom it has
   * woken; and what was armed when `epoll_wait` returned.
   */
  datatype PollRun = PollRun(
    slots0: seq<FdEntry>, mem0: Memory, ready0: seq<Handle>,
    hits: seq<(int, Dir)>, waiters: seq<Waiter>, woken: seq<Handle>, causes: seq<nat>, waited: Kernel)

  function Begin(slots: seq<FdEntry>, mem: Memory, ready: seq<Handle>): PollRun {
    PollRun(slots, mem, ready, [], [], [], [], map[])
  }

  predicate SameRun(g: PollRun, g': PollRun) {
    g'.slots0 == g.slots0 && g'.mem0 == g.mem0 && g'.ready0 == g.ready0
  }

  function Extend(g: PollRun, fd: int, d: Dir, w: Waiter, woken: seq<Handle>, cause: nat): PollRun {
    g.(hits := g.hits + [(fd, d)], waiters := g.waiters + [w], woken := g.woken + woken, causes := g.causes + [cause])
  }

  // ----- in which order -----

  ghost predicate CausedInOrder(g: PollRun, i: nat, j: nat)
    requires i < j < |g.hits| == |g.causes|
  {
    || g.causes[i] < g.causes[j]
    || (g.causes[i] == g.causes[j] && g.hits[i].1 == Read && g.hits[j].1 == Write)
  }

  /** Waiters are taken out in the order of their events, a reader before the writer of the same event. */
  ghost predicate Ordered(g: PollRun) {
    && |g.causes| == |g.hits|
    && forall i, j {:trigger CausedInOrder(g, i, j)} :: 0 <= i < j < |g.hits| ==> CausedInOrder(g, i, j)
  }

  /** Whoever direction `d` of event `cause` takes out next comes last. */
  ghost predicate UpTo(g: PollRun, cause: nat, d: Dir)
    requires |g.causes| == |g.hits|
  {
    forall i {:trigger g.causes[i]} :: 0 <= i < |g.hits| ==>
      g.causes[i] < cause || (g.causes[i] == cause && g.hits[i].1 == Read && d == Write)
  }

  /** `g'` is `g` and those taken out since, all for event `e`, which has number `cause`. */
  ghost predicate ContinuedBy(g: PollRun, g': PollRun, e: IoReady, cause: nat) {
    && g'.waited == g.waited
    && |g.causes| == |g.hits| <= |g'.hits| == |g'.causes|
    && g.hits == g'.hits[..|g.hits|] && g.causes == g'.causes[..|g.hits|]
    && forall i {:trigger g'.causes[i]} :: |g.hits| <= i < |g'.hits| ==>
        g'.causes[i] == cause && g'.hits[i].0 == e.fd && Covers(e, g'.hits[i].1)
  }

  lemma ContinuedTwice(g: PollRun, middle: PollRun, g': PollRun, e: IoReady, cause: nat)
    requires ContinuedBy(g, middle, e, cause) && ContinuedBy(middle, g', e, cause)
    ensures ContinuedBy(g, g', e, cause)
  {
    forall i | |g.hits| <= i < |g'.hits|
      ensures g'.causes[i] == cause && g'.hits[i].0 == e.fd && Covers(e, g'.hits[i].1)
    {
      assert i < |middle.hits| ==> g'.causes[i] == middle.causes[i] && g'.hits[i] == middle.hits[i];
    }
  }

  lemma OrderedMore(g: PollRun, e: IoReady, d: Dir, w: Waiter, woken: seq<Handle>, cause: nat)
    requires Ordered(g) && UpTo(g, cause, d) && Covers(e, d)
    ensures
      var g' := Extend(g, e.fd, d, w, woken, cause);
      Ordered(g') && ContinuedBy(g, g', e, cause) && (d == Read ==> UpTo(g', cause, Write))
  {
    var g' := Extend(g, e.fd, d, w, woken, cause);
    forall i, j | 0 <= i < j < |g'.hits| ensures CausedInOrder(g', i, j) {
      assert g'.causes[i] == g.causes[i];
      assert j < |g.hits| ==> CausedInOrder(g, i, j);
    }
  }

  /** The event for which a waiter was taken out is the first in the list that concerns it. */
  ghost predicate CausedAt(g: PollRun, events: seq<IoReady>, i: nat)
    requires i < |g.hits| == |g.causes|
  {
    var (fd, d), c := g.hits[i], g.causes[i];
    && c < |events| && events[c].fd == fd && Covers(events[c], d)
    && forall m :: 0 <= m < c ==> !(events[m].fd == fd && Covers(events[m], d))
  }

  ghost predicate AllCaused(g: PollRun, events: seq<IoReady>) {
    && |g.causes| == |g.hits|
    && forall i {:trigger CausedAt(g, events, i)} :: 0 <= i < |g.hits| ==> CausedAt(g, events, i)
  }

  lemma CausedMore(g: PollRun, slots: seq<FdEntry>, g': PollRun, events: seq<IoReady>, cause: nat)
    requires cause < |events| && AllCaused(g, events) && ContinuedBy(g, g', events[cause], cause)
    requires Served(g.slots0, slots, events[..cause]) && AllTaken(g, slots) && TakenOut(g') && SameRun(g, g')
    ensures AllCaused(g', events)
    ensures UpTo(g, cause, Read) ==> UpTo(g', cause + 1, Read)
  {
    forall i | 0 <= i < |g'.hits| ensures CausedAt(g', events, i) {
      if i < |g.hits| {
        assert CausedAt(g, events, i);
        assert g'.hits[i] == g.hits[i] && g'.causes[i] == g.causes[i];
      } else {
        var (fd, d) := g'.hits[i];
        NewHit(g, g', i);
        assert TakenAt(g, slots, fd, d) && ServedAt(g.slots0, slots, events[..cause], fd, d);
        assert g'.causes[i] == cause;
        forall m | 0 <= m < cause ensures !(events[m].fd == fd && Covers(events[m], d)) {
          assert events[..cause][m] == events[m];
        }
      }
    }
    forall i | 0 <= i < |g'.hits| && UpTo(g, cause, Read) ensures g'.causes[i] < cause + 1 {
      assert i < |g.hits| ==> g'.causes[i] == g.causes[i];
    }
  }

  lemma NewHit(g: PollRun, g': PollRun, i: nat)
    requires TakenOut(g') && |g.hits| <= i < |g'.hits| && g.hits == g'.hits[..|g.hits|]
    ensures g'.hits[i] !in g.hits
  {
    var n := |g.hits|;
    assert g'.hits == g.hits + g'.hits[n..];
    assert g'.hits[n..][i - n] == g'.hits[i];
    assert Count(g'.hits, g'.hits[i]) <= 1 && Count(g'.hits[n..], g'.hits[i]) > 0;
  }

  ghost predicate TakenAt(g: PollRun, slots: seq<FdEntry>, x: int, y: Dir) {
    EntryAt(slots, x, y) == if (x, y) in g.hits then None else EntryAt(g.slots0, x, y)
  }

  ghost predicate AllTaken(g: PollRun, slots: seq<FdEntry>) {
    forall x, y {:trigger TakenAt(g, slots, x, y)} :: TakenAt(g, slots, x, y)
  }

  /** The waiters on the list of those taken out, in order. */
  ghost predicate TakenOut(g: PollRun) {
    && NoDuplicates(g.hits)
    && |g.waiters| == |g.hits|
    && (forall i {:trigger g.hits[i]} {:trigger g.waiters[i]} ::
          0 <= i < |g.hits| ==> EntryAt(g.slots0, g.hits[i].0, g.hits[i].1) == Some(g.waiters[i]))
  }

  /** The table, the wait states and the ready list are what firing the waiters taken out so far makes of them. */
  ghost predicate Polled(g: PollRun, slots: seq<FdEntry>, mem: Memory, ready: seq<Handle>) {
    && AllStates(g.slots0, g.mem0)
    && TakenOut(g)
    && AllTaken(g, slots)
    && AllAllocated(g.waiters, g.mem0) && FireAll(g.waiters, g.mem0, {}) == (mem, g.woken)
    && ready == g.ready0 + g.woken
  }

  lemma PolledFirst(slots: seq<FdEntry>, mem: Memory, ready: seq<Handle>, waited: Kernel)
    requires AllStates(slots, mem)
    ensures Polled(Begin(slots, mem, ready).(waited := waited), slots, mem, ready)
  {
  }

  lemma PolledNext(g: PollRun, slots: seq<FdEntry>, mem: Memory, ready: seq<Handle>, fd: int, d: Dir, cause: nat)
    requires Polled(g, slots, mem, ready) && 0 <= fd < |slots| && slots[fd].At(d).Some?
    ensures Allocated(slots[fd].At(d).value, mem)
    ensures
      var w := slots[fd].At(d).value;
      var r := FireOne(w, mem, {});
      Polled(Extend(g, fd, d, w, r.1, cause), slots[fd := slots[fd].With(d, None)], r.0, ready + r.1)
  {
    var w := slots[fd].At(d).value;
    assert TakenAt(g, slots, fd, d);
    assert EntryAt(g.slots0, fd, d) == Some(w);
    var r := FireOne(w, mem, {});
    TakeNext(g, slots, fd, d, w, r.1, cause);
    FireSnoc(g.waiters, w, g.mem0, {});
    assert g.ready0 + g.woken + r.1 == g.ready0 + (g.woken + r.1);
  }

  lemma TakeNext(g: PollRun, slots: seq<FdEntry>, fd: int, d: Dir, w: Waiter, woken: seq<Handle>, cause: nat)
    requires TakenOut(g) && AllTaken(g, slots)
    requires 0 <= fd < |slots| && slots[fd].At(d) == Some(w) && EntryAt(g.slots0, fd, d) == Some(w)
    ensures TakenOut(Extend(g, fd, d, w, woken, cause))
    ensures AllTaken(Extend(g, fd, d, w, woken, cause), slots[fd := slots[fd].With(d, None)])
  {
    var g', slots' := Extend(g, fd, d, w, woken, cause), slots[fd := slots[fd].With(d, None)];
    assert TakenAt(g, slots, fd, d);
    forall h ensures Count(g'.hits, h) <= 1 {
      assert Count(g.hits, h) <= 1;
    }
    forall x, y ensures TakenAt(g', slots', x, y) {
      assert TakenAt(g, slots, x, y);
      assert (x, y) in g'.hits <==> (x, y) in g.hits || (x, y) == (fd, d);
    }
  }

  // ----- arming -----

  /** `epoll_wait` has disarmed the descriptors it reported. */
  lemma Disarmed(slots: seq<FdEntry>, kernel: Kernel, kernel': Kernel, reported: set<int>)
    requires AllArmed(slots, kernel, {}) && kernel'.Keys == kernel.Keys
    requires forall fd <- kernel :: fd !in reported ==> kernel'[fd] == kernel[fd]
    ensures AllArmed(slots, kernel', reported)
  {
    forall fd | 0 <= fd < |slots| && fd !in reported ensures Armed(slots[fd], fd, kernel') {
      assert Armed(slots[fd], fd, kernel);
    }
  }

  lemma OutOfTable(slots: seq<FdEntry>, kernel: Kernel, except: set<int>, fd: int)
    requires AllArmed(slots, kernel, except) && !(0 <= fd < |slots|)
    ensures AllArmed(slots, kernel, except - {fd})
  {
    forall x | 0 <= x < |slots| && x !in except - {fd} ensures Armed(slots[x], x, kernel) {
      assert x !in except;
    }
  }

  lemma DispatchedArmed(slots: seq<FdEntry>, slots': seq<FdEntry>, kernel: Kernel, fd: int, except: set<int>)
    requires AllArmed(slots, kernel, except) && 0 <= fd < |slots| == |slots'|
    requires forall x :: 0 <= x < |slots| && x != fd ==> slots'[x] == slots[x]
    ensures AllArmed(slots', kernel, except + {fd})
  {
    forall x | 0 <= x < |slots'| && x !in except + {fd} ensures Armed(slots'[x], x, kernel) {
      assert Armed(slots[x], x, kernel);
    }
  }

  lemma Grown(slots: seq<FdEntry>, slots': seq<FdEntry>, kernel: Kernel)
    requires AllArmed(slots, kernel, {}) && |slots| <= |slots'| && slots == slots'[..|slots|]
    requires forall fd :: |slots| <= fd < |slots'| ==> slots'[fd] == IDLE
    ensures AllArmed(slots', kernel, {})
  {
    forall fd | 0 <= fd < |slots'| ensures Armed(slots'[fd], fd, kernel) {
      assert fd < |slots| ==> Armed(slots[fd], fd, kernel);
    }
  }

  /** Arming `fd` for what is parked on it leaves the other descriptors alone. */
  lemma Rearmed(slots: seq<FdEntry>, slots': seq<FdEntry>, kernel: Kernel, kernel': Kernel, fd: int, except: set<int>)
    requires AllArmed(slots, kernel, except) && 0 <= fd < |slots| == |slots'|
    requires forall x :: 0 <= x < |slots| && x != fd ==> slots'[x] == slots[x]
    requires kernel' == kernel[fd := slots'[fd].Parked()]
    ensures AllArmed(slots', kernel', except - {fd})
  {
    forall x | 0 <= x < |slots'| && x !in except - {fd} ensures Armed(slots'[x], x, kernel') {
      assert x !in except ==> Armed(slots[x], x, kernel);
    }
  }

  lemma Unparked(slots: seq<FdEntry>, kernel: Kernel, fd: int, except: set<int>)
    requires AllArmed(slots, kernel, except) && 0 <= fd < |slots| && slots[fd].Parked() == {}
    ensures AllArmed(slots, kernel, except - {fd})
  {
    forall x | 0 <= x < |slots| && x !in except - {fd} ensures Armed(slots[x], x, kernel) {
      assert x !in except ==> Armed(slots[x], x, kernel);
    }
  }
}
