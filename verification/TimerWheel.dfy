/** The hierarchical timer wheel of src/async/timer.hpp, updated in place. */
module TimerWheel {
  import opened Prelude
  import opened WheelMath
  import opened Firing
  import opened TimerSpec
  import opened WheelLevels
  import opened TimerSlotMap

  class Wheel {
    /** How many ticks past the visited tick a cascade measures distances from: 1 in the source. */
    const lead: nat
    const startTime: int

    var levels: seq<Level>
    var currentTime: int
    var slotmap: seq<Slot>
    var freeIndices: seq<nat>
    var activeCount: nat
    var ready: seq<Handle>

    /** Whole ticks since the start. */
    ghost var now: nat
    ghost var timers: map<TimerId, Timer>
    ghost var issued: set<TimerId>
    ghost var home: map<TimerId, Pos>
    /** Everything that was ever scheduled, cancelled and ticked. */
    ghost var history: History

    ghost function View(): Table
      reads this
    {
      Table(lead, startTime, now, timers, issued)
    }

    ghost function Reach(mem: Memory): Outcome
      reads this
    {
      Outcome(timers, mem, ready)
    }

    ghost function ChartWith(flight: seq<TimerId>): Chart
      reads this
    {
      Chart(lead, startTime, levels, flight, home, timers, issued)
    }

    /** The parts of the invariant that also hold in the middle of a tick. */
    ghost predicate Steady()
      reads this
    {
      && currentTime == startTime + Ns(now)
      && Represents(slotmap, freeIndices, activeCount, timers, issued)
    }

    /** `lookup` finds exactly the live timers. */
    ghost predicate FindsLive()
      reads this
    {
      forall id :: Lookup(id) == if id in timers then Some(timers[id].entry) else None
    }

    /** In the middle of tick `b`: levels from `l` up have been visited, `flight` is being redistributed. */
    ghost predicate Midway(flight: seq<TimerId>, b: nat, l: nat)
      reads this
    {
      now == b + 1 && Consistent(ChartWith(flight), b, l, b + 1) && Orderly(ChartWith(flight), b + lead)
    }

    /** Between ticks, at wheel time `b`. */
    ghost predicate Settled(b: nat)
      reads this
    {
      && Steady() && now == b
      && Consistent(ChartWith([]), b, NUM_LEVELS, b)
      && Cursors(levels, b, NUM_LEVELS)
      && Orderly(ChartWith([]), b) && JustSet(ChartWith([]), b)
    }

    ghost predicate Valid()
      reads this
    {
      Settled(now) && IsHistory(history) && LastState(history) == View()
    }

    constructor (clock: int, cascadeLead: nat)
      requires cascadeLead <= 1
      ensures Valid() && Initial(View()) && ready == []
      ensures lead == cascadeLead && startTime == clock && currentTime == clock
    {
      lead := cascadeLead;
      startTime, currentTime := clock, clock;
      levels := EmptyLevels();
      slotmap, freeIndices, activeCount, ready := [], [], 0, [];
      now, timers, issued, home := 0, map[], {}, map[];
      history := History([Table(cascadeLead, clock, 0, map[], {})], []);
      EmptyConsistent(cascadeLead, clock);
    }

    function Lookup(id: TimerId): Option<TimerEntry>
      reads this
    {
      if Holds(slotmap, id) then Some(slotmap[id.index].entry) else None
    }

    lemma SteadyFinds()
      requires Steady()
      ensures FindsLive()
    {
      forall id ensures Lookup(id) == if id in timers then Some(timers[id].entry) else None {
        HoldsIffLive(slotmap, timers, issued, id);
      }
    }

    /** Appends `id` to the slot of its deadline, at the level its distance from `from` calls for. */
    method Place(id: TimerId, deadline: int, from: int, ghost at: nat)
      requires Shaped(levels) && from == startTime + Ns(at)
      modifies this`levels, this`home
      ensures levels == Append(old(levels), PosFor(startTime, deadline, at), id)
      ensures home == old(home)[id := PosFor(startTime, deadline, at)]
    {
      DistanceInTicks(startTime, at, deadline);
      var diff := WholeTicks(deadline - from);
      var dticks := WholeTicks(deadline - startTime);
      var l, s;
      if diff < 256 {
        l, s := 0, dticks % 256;
      } else if diff < 16_384 {
        l, s := 1, dticks / 256 % 64;
      } else if diff < 1_048_576 {
        l, s := 2, dticks / 16_384 % 64;
      } else {
        l, s := 3, dticks / 1_048_576 % 64;
      }
      levels := SetSlot(levels, l, s, levels[l].slots[s] + [id]);
      home := home[id := At(l, s)];
    }

    /** Takes an index from the free stack, or appends one. */
    method TakeIndex() returns (index: nat)
      requires Steady() && HasRoom(slotmap, freeIndices)
      modifies this`slotmap, this`freeIndices
      ensures Represents(slotmap, freeIndices + [index], activeCount, timers, issued)
      ensures index < |slotmap| && slotmap[index].generation + 1 < GENERATION_LIMIT
    {
      if freeIndices != [] {
        index := freeIndices[|freeIndices| - 1];
        freeIndices := freeIndices[..|freeIndices| - 1];
        assert freeIndices + [index] == old(freeIndices);
      } else {
        index := |slotmap|;
        slotmap := slotmap + [EMPTY_SLOT];
        Grow(old(slotmap), timers, issued);
        assert freeIndices + [index] == [index];
      }
    }

    /** Starts a new generation at a free index and fills in its entry. */
    method ClaimSlot(deadline: int, waiter: Waiter, ghost due: nat, ghost at: nat)
      returns (id: TimerId)
      requires Steady() && HasRoom(slotmap, freeIndices)
      modifies this`slotmap, this`freeIndices, this`activeCount, this`timers, this`issued
      ensures Steady()
      ensures id !in old(issued) && id.generation > 0 && issued == old(issued) + {id}
      ensures timers == old(timers)[id := Timer(TimerEntry(id, deadline, waiter), due, at, |old(issued)|)]
    {
      var index := TakeIndex();
      var generation := slotmap[index].generation + 1;
      id := TimerId(index, generation);
      var entry := TimerEntry(id, deadline, waiter);
      ghost var t := Timer(entry, due, at, |issued|);
      Claim(slotmap, freeIndices, index, activeCount, timers, issued, entry, t);
      slotmap := slotmap[index := Slot(entry, generation, true)];
      activeCount := activeCount + 1;
      timers, issued := timers[id := t], issued + {id};
    }

    method ScheduleAt(deadline: int, waiter: Waiter)
      returns (id: TimerId)
      requires Valid() && HasRoom(slotmap, freeIndices)
      modifies this
      ensures Valid() && ready == old(ready) && currentTime == old(currentTime)
      ensures Step(old(View()), Schedule(TimerEntry(id, deadline, waiter)), View())
      ensures history == Recorded(old(history), Schedule(TimerEntry(id, deadline, waiter)), View())
      ensures home == old(home)[id := PosFor(startTime, deadline, now)]
    {
      ghost var c := ChartWith([]);
      ghost var due := DueOf(View(), deadline);
      id := ClaimSlot(deadline, waiter, due, now);
      Place(id, deadline, currentTime, now);
      AddConsistent(c, timers[id], id, now);
      OrderlyAdd(c, timers[id], id, now);
      JustSetAdd(c, timers[id], id, now);
      assert ChartWith([]) == Added(c, timers[id], id, PosFor(startTime, deadline, now));
      Record(Schedule(TimerEntry(id, deadline, waiter)));
    }

    /** Appends what has just happened to the table. */
    ghost method Record(e: Event)
      requires IsHistory(history) && Step(LastState(history), e, View())
      modifies this`history
      ensures IsHistory(history) && LastState(history) == View() && history == Recorded(old(history), e, View())
    {
      RecordedIsHistory(history, e, View());
      history := Recorded(history, e, View());
    }

    /** Cancelling succeeds exactly on live timers; the slot keeps a stale id. */
    method Cancel(id: TimerId) returns (found: bool)
      requires Valid()
      modifies this
      ensures Valid() && ready == old(ready) && currentTime == old(currentTime)
      ensures Step(old(View()), Event.Cancel(id, found), View())
      ensures history == Recorded(old(history), Event.Cancel(id, found), View())
      ensures home == old(home) - {id}
    {
      HoldsIffLive(slotmap, timers, issued, id);
      ForgetConsistent(ChartWith([]), id, now, NUM_LEVELS, now);
      OrderlyForget(ChartWith([]), id, now);
      JustSetForget(ChartWith([]), id, now);
      if id.index >= |slotmap| {
        found := false;
      } else if !slotmap[id.index].active || slotmap[id.index].generation != id.generation {
        found := false;
      } else {
        FreeSlot(id);
        found := true;
      }
      assert !found ==> timers - {id} == timers;
      timers, home := timers - {id}, home - {id};
      Record(Event.Cancel(id, found));
    }

    /** Marks the index of a live id free and pushes it on the free stack. */
    method FreeSlot(id: TimerId)
      requires Steady() && id in timers
      modifies this`slotmap, this`freeIndices, this`activeCount
      ensures Represents(slotmap, freeIndices, activeCount, timers - {id}, issued)
    {
      TimerSlotMap.Release(slotmap, freeIndices, activeCount, timers, issued, id);
      slotmap := slotmap[id.index := slotmap[id.index].(active := false)];
      freeIndices := freeIndices + [id.index];
      activeCount := activeCount - 1;
    }

    /** `release`: frees the index of a live id and does nothing for any other. */
    method Release(id: TimerId)
      requires Steady()
      modifies this`slotmap, this`freeIndices, this`activeCount, this`timers
      ensures Steady() && timers == old(timers) - {id}
    {
      HoldsIffLive(slotmap, timers, issued, id);
      if id.index < |slotmap| && slotmap[id.index].active && slotmap[id.index].generation == id.generation {
        FreeSlot(id);
      } else {
        assert timers - {id} == timers;
      }
      timers := timers - {id};
    }

    // ----- cascading -----

    /** Tick `b` visits this slot above the bottom level. */
    static ghost predicate Visited(p: Pos, b: nat) {
      p.At? && 1 <= p.level < NUM_LEVELS && Boundary(p.level, b) && p.slot == SlotOf(p.level, b)
    }

    static ghost predicate MayMove(p: Pos, p': Pos, b: nat) {
      p' == p || Visited(p, b)
    }

    /** Of the timers that remain, only those in a slot that tick `b` visits change place. */
    static ghost predicate MovedByVisit(h: map<TimerId, Pos>, h': map<TimerId, Pos>, b: nat) {
      && h'.Keys <= h.Keys
      && forall id {:trigger MayMove(h[id], h'[id], b)} :: id in h' ==> MayMove(h[id], h'[id], b)
    }

    static lemma MovedTwice(h: map<TimerId, Pos>, h1: map<TimerId, Pos>, h2: map<TimerId, Pos>, b: nat)
      requires MovedByVisit(h, h1, b) && MovedByVisit(h1, h2, b)
      ensures MovedByVisit(h, h2, b)
    {
      forall id | id in h2 ensures MayMove(h[id], h2[id], b) {
        assert MayMove(h[id], h1[id], b) && MayMove(h1[id], h2[id], b);
      }
    }

    /** One step of a cascade: the head of the list in flight goes back to the wheel, or is stale. */
    method Redeal(id: TimerId, ghost flight: seq<TimerId>, ghost b: nat, ghost l: nat)
      requires 1 <= l < NUM_LEVELS && Boundary(l, b)
      requires FindsLive() && currentTime == startTime + Ns(now)
      requires Midway(flight, b, l) && InFlightFrom(ChartWith(flight), b, l)
      requires flight != [] && flight[0] == id
      modifies this`levels, this`home
      ensures Midway(flight[1..], b, l) && InFlightFrom(ChartWith(flight[1..]), b, l)
      ensures forall k :: 0 <= k < NUM_LEVELS ==> levels[k].current == old(levels[k].current)
      ensures home.Keys == old(home.Keys) && forall x <- home :: home[x] == old(home[x]) || old(home[x]) == Flight
    {
      ghost var c := ChartWith(flight);
      var entry := Lookup(id);
      if entry.Some? {
        RedealConsistent(c, b, l);
        OrderlyPut(c, b + lead);
        InFlightHead(c);
        var deadline := entry.value.deadline;
        assert deadline == c.timers[c.flight[0]].entry.deadline;
        Place(id, deadline, currentTime - Ns(1 - lead), b + lead);
        assert ChartWith(flight[1..]) == Put(c, PosFor(startTime, deadline, b + lead));
      } else {
        SkipConsistent(c, b, l, b + 1);
        OrderlySkip(c, b + lead);
      }
    }

    /** Empties the visited slot of level `l` and deals its timers out to where they belong now. */
    method DealSlot(l: nat, ghost b: nat)
      requires 1 <= l < NUM_LEVELS && Boundary(l, b)
      requires FindsLive() && currentTime == startTime + Ns(now)
      requires Midway([], b, l + 1) && levels[l].current == SlotOf(l, b)
      modifies this`levels, this`home
      ensures Midway([], b, l)
      ensures forall k :: 0 <= k < NUM_LEVELS ==> levels[k].current == old(levels[k].current)
      ensures MovedByVisit(old(home), home, b)
    {
      var s := levels[l].current;
      var ids := levels[l].slots[s];
      ghost var c := ChartWith([]);
      NothingInFlight(c);
      TakeConsistent(c, b, l);
      OrderlyTake(c, l, s, b + lead);
      levels := SetSlot(levels, l, s, []);
      home := Lift(home, At(l, s));
      assert ids == ids[0..];
      assert ChartWith(ids[0..]) == Take(c, l, s);
      for k := 0 to |ids|
        invariant Midway(ids[k..], b, l) && InFlightFrom(ChartWith(ids[k..]), b, l)
        invariant forall i :: 0 <= i < NUM_LEVELS ==> levels[i].current == old(levels[i].current)
        invariant home.Keys == c.home.Keys
        invariant forall x <- home :: home[x] == c.home[x] || c.home[x] == At(l, s)
      {
        assert ids[k..][1..] == ids[k + 1..];
        Redeal(ids[k], ids[k..], b, l);
      }
      assert ids[|ids|..] == [];
    }

    method MoveCursor(l: nat, ghost b: nat)
      requires l < NUM_LEVELS && Boundary(l, b) && Midway([], b, l) && Cursors(levels, b, l + 1)
      modifies this`levels
      ensures Midway([], b, l) && Cursors(levels, b, l)
    {
      ghost var c := ChartWith([]);
      CursorVisits(l, b);
      VisitDone(c, b, l);
      OrderlyCursor(c, l, (SlotOf(l, b) + 1) % Size(l), b + lead);
      levels := SetCursor(levels, l, (levels[l].current + 1) % |levels[l].slots|);
      assert ChartWith([]) == c.(levels := levels);
    }

    /** Visits the current slot of level `l`, after the level above if that one has come round too. */
    method Cascade(l: nat, ghost b: nat)
      requires 1 <= l <= NUM_LEVELS && (l < NUM_LEVELS ==> Boundary(l, b))
      requires FindsLive() && currentTime == startTime + Ns(now)
      requires Midway([], b, NUM_LEVELS) && Cursors(levels, b, NUM_LEVELS)
      modifies this`levels, this`home
      ensures Midway([], b, l) && Cursors(levels, b, l)
      ensures MovedByVisit(old(home), home, b)
      decreases NUM_LEVELS - l
    {
      if l >= NUM_LEVELS {
        return;
      }
      CursorVisits(l, b);
      if l + 1 < NUM_LEVELS {
        CursorWraps(l, b);
      }
      if levels[l].current == 0 && l + 1 < NUM_LEVELS {
        Cascade(l + 1, b);
      } else {
        QuietAbove(ChartWith([]), b, l + 1);
      }
      ghost var h := home;
      VisitSlot(l, b);
      MovedTwice(old(home), h, home, b);
    }

    /** The visit of level `l` itself, the levels above having done theirs. */
    method VisitSlot(l: nat, ghost b: nat)
      requires 1 <= l < NUM_LEVELS && Boundary(l, b)
      requires FindsLive() && currentTime == startTime + Ns(now)
      requires Midway([], b, l + 1) && Cursors(levels, b, l + 1)
      modifies this`levels, this`home
      ensures Midway([], b, l) && Cursors(levels, b, l)
      ensures MovedByVisit(old(home), home, b)
    {
      CursorVisits(l, b);
      DealSlot(l, b);
      MoveCursor(l, b);
    }

    // ----- expiry -----

    /** A timer's effect: complete a wait that is still pending and wake its coroutine. */
    method Fire(waiter: Waiter, mem: Memory, done: set<Handle>)
      returns (fired: nat, mem': Memory, ghost woken: seq<Handle>)
      requires Allocated(waiter, mem)
      modifies this`ready
      ensures FireOne(waiter, mem, done) == (mem', woken) && ready == old(ready) + woken && fired == |woken|
    {
      fired, mem', woken := 0, mem, [];
      if waiter.state.Some? {
        if mem[waiter.state.value] != Pending {
          return;
        }
        mem' := mem[waiter.state.value := waiter.completion];
      }
      if waiter.handle.Some? && waiter.handle.value !in done {
        ready := ready + [waiter.handle.value];
        fired, woken := 1, [waiter.handle.value];
      }
    }

    /** The timer behind an id, if it is still live, fires and is released; a stale id does nothing. */
    method FireAndRelease(id: TimerId, mem: Memory, done: set<Handle>)
      returns (fired: nat, mem': Memory, ghost woken: seq<Handle>)
      requires Steady() && (id in timers ==> Allocated(timers[id].entry.waiter, mem))
      modifies this`slotmap, this`freeIndices, this`activeCount, this`timers, this`ready
      ensures Steady() && timers == old(timers) - {id}
      ensures ready == old(ready) + woken && fired == |woken|
      ensures (mem', woken) == if id in old(timers) then FireOne(old(timers[id]).entry.waiter, mem, done) else (mem, [])
    {
      HoldsIffLive(slotmap, timers, issued, id);
      fired, mem', woken := 0, mem, [];
      var entry := Lookup(id);
      if entry.Some? {
        fired, mem', woken := Fire(entry.value.waiter, mem, done);
        Release(id);
      } else {
        assert timers == timers - {id};
      }
    }

    /** One id of the visited bottom slot. */
    method Expire(
      id: TimerId, mem: Memory, done: set<Handle>, ghost flight: seq<TimerId>, ghost b: nat, ghost g: Progress)
      returns (fired: nat, mem': Memory, ghost g': Progress)
      requires Steady() && Midway(flight, b, 0) && InFlightFrom(ChartWith(flight), b, 0)
      requires flight != [] && flight[0] == id && Reached(g, b, done, Reach(mem))
      requires NoneBypassed(ChartWith(flight), g.t0, g.expired)
      modifies this`slotmap, this`freeIndices, this`activeCount, this`timers, this`home, this`ready
      ensures Steady() && Midway(flight[1..], b, 0) && InFlightFrom(ChartWith(flight[1..]), b, 0)
      ensures home == old(home) - {id}
      ensures Reached(g', b, done, Reach(mem')) && SameRun(g, g') && |g'.woken| == |g.woken| + fired
      ensures NoneBypassed(ChartWith(flight[1..]), g'.t0, g'.expired)
    {
      ghost var c, o := ChartWith(flight), Reach(mem);
      DropHeadConsistent(c, b);
      OrderlyDrop(c, b + lead);
      LeftAsTheyWere(g.t0, timers, g.expired, b);
      NextInTurn(c, b + lead, g.t0, g.expired);
      g' := g;
      if id in timers {
        ReachedNext(g, b, done, o, id);
        g' := Advance(g, id, timers[id].entry.waiter, FireOne(timers[id].entry.waiter, mem, done).1);
      } else {
        ReachedSkip(g, b, done, o, id);
      }
      ghost var woken;
      fired, mem', woken := FireAndRelease(id, mem, done);
      assert Reach(mem') == Outcome(o.timers - {id}, mem', o.ready + woken);
      home := home - {id};
      assert ChartWith(flight[1..]) == DropHead(c);
    }

    /** The bottom slot of tick `b` is taken out; everything in it that is live is due now. */
    method TakeBottomSlot(ghost b: nat) returns (ids: seq<TimerId>)
      requires Midway([], b, 1) && levels[0].current == SlotOf(0, b)
      modifies this`levels, this`home
      ensures Midway(ids, b, 0) && InFlightFrom(ChartWith(ids), b, 0)
      ensures forall k :: 0 <= k < NUM_LEVELS ==> levels[k].current == old(levels[k].current)
      ensures home == Lift(old(home), At(0, SlotOf(0, b)))
    {
      ghost var c := ChartWith([]);
      var s := levels[0].current;
      TakeConsistent(c, b, 0);
      OrderlyTake(c, 0, s, b + lead);
      ids := levels[0].slots[s];
      levels := SetSlot(levels, 0, s, []);
      home := Lift(home, At(0, s));
      assert ChartWith(ids) == Take(c, 0, s);
    }

    /** Expires the timers in `ids`, in order. */
    method ExpireSlot(ids: seq<TimerId>, mem: Memory, done: set<Handle>, ghost b: nat)
      returns (fired: nat, mem': Memory, ghost g: Progress)
      requires Steady() && Midway(ids, b, 0) && InFlightFrom(ChartWith(ids), b, 0) && StatesIn(timers, mem)
      modifies this`slotmap, this`freeIndices, this`activeCount, this`timers, this`home, this`ready
      ensures Steady() && Midway([], b, 0)
      ensures home.Keys <= old(home.Keys) && forall x <- home :: home[x] == old(home[x])
      ensures Reached(g, b, done, Reach(mem')) && SameRun(old(Begin(Reach(mem))), g) && fired == |g.woken|
      ensures Fifo(startTime, g.t0, g.expired)
    {
      fired, mem', g := 0, mem, Begin(Reach(mem));
      ReachedFirst(b, done, Reach(mem));
      assert ids[0..] == ids;
      for k := 0 to |ids|
        invariant Steady() && Midway(ids[k..], b, 0) && InFlightFrom(ChartWith(ids[k..]), b, 0)
        invariant home.Keys <= old(home.Keys) && forall x <- home :: home[x] == old(home[x])
        invariant Reached(g, b, done, Reach(mem')) && SameRun(old(Begin(Reach(mem))), g) && fired == |g.woken|
        invariant NoneBypassed(ChartWith(ids[k..]), g.t0, g.expired)
      {
        assert ids[k..][1..] == ids[k + 1..];
        var n;
        n, mem', g := Expire(ids[k], mem', done, ids[k..], b, g);
        fired := fired + n;
      }
      assert ids[|ids|..] == [];
    }

    /** The upper levels' visits of tick `b`. */
    method BringDown(ghost b: nat)
      requires Steady() && Midway([], b, NUM_LEVELS) && Cursors(levels, b, NUM_LEVELS)
      modifies this`levels, this`home
      ensures Midway([], b, 1) && Cursors(levels, b, 1) && levels[0].current == SlotOf(0, b)
      ensures MovedByVisit(old(home), home, b)
    {
      SteadyFinds();
      CursorVisits(0, b);
      CursorWraps(0, b);
      if levels[0].current == 0 {
        Cascade(1, b);
      } else {
        QuietAbove(ChartWith([]), b, 1);
      }
    }

    method ProcessCurrentSlot(mem: Memory, done: set<Handle>, ghost b: nat)
      returns (fired: nat, mem': Memory, ghost g: Progress)
      requires Steady() && Midway([], b, NUM_LEVELS) && Cursors(levels, b, NUM_LEVELS) && StatesIn(timers, mem)
      modifies this`levels, this`home, this`slotmap, this`freeIndices, this`activeCount, this`timers, this`ready
      ensures Steady() && Midway([], b, 0) && Cursors(levels, b, 0)
      ensures MovedByVisit(old(home), home, b)
      ensures Reached(g, b, done, Reach(mem')) && SameRun(old(Begin(Reach(mem))), g) && fired == |g.woken|
      ensures Fifo(startTime, g.t0, g.expired)
    {
      BringDown(b);
      ghost var h := home;
      var ids := TakeBottomSlot(b);
      fired, mem', g := ExpireSlot(ids, mem, done, b);
      NothingInFlight(ChartWith([]));
      MovedTwice(old(home), h, home, b);
      MoveCursor(0, b);
    }

    /** One tick: exactly the timers due now leave the table and fire. */
    method Tick(mem: Memory, done: set<Handle>) returns (fired: nat, mem': Memory, ghost g: Progress)
      requires Valid() && StatesIn(timers, mem)
      modifies this
      ensures Valid() && currentTime == old(currentTime) + Ns(1)
      ensures Step(old(View()), Event.Tick(g.expired), View())
      ensures history == Recorded(old(history), Event.Tick(g.expired), View())
      ensures MovedByVisit(old(home), home, old(now))
      ensures FiredTo(g, done, Reach(mem')) && SameRun(old(Begin(Reach(mem))), g) && fired == |g.woken|
    {
      fired, mem', g := PassTick(mem, done, now);
      AllLeft(old(View()), timers, g.expired);
      Record(Event.Tick(g.expired));
    }

    /** Tick `b` itself, which the history does not know of yet. */
    method PassTick(mem: Memory, done: set<Handle>, ghost b: nat)
      returns (fired: nat, mem': Memory, ghost g: Progress)
      requires Settled(b) && StatesIn(timers, mem)
      modifies this`levels, this`home, this`slotmap, this`freeIndices, this`activeCount, this`timers, this`ready
      modifies this`currentTime, this`now
      ensures Settled(b + 1) && currentTime == old(currentTime) + Ns(1) && MovedByVisit(old(home), home, b)
      ensures Reached(g, b, done, Reach(mem')) && SameRun(old(Begin(Reach(mem))), g) && fired == |g.woken|
      ensures Fifo(startTime, g.t0, g.expired) && forall id <- timers :: timers[id].due > b
    {
      ghost var c := ChartWith([]);
      LaterIsFine(c, b);
      OrderlySettled(c, b, b + lead);
      currentTime := currentTime + Ns(1);
      now := now + 1;
      fired, mem', g := ProcessCurrentSlot(mem, done, b);
      TickOver(c, ChartWith([]), b, g.expired);
    }

    // ----- what the object's own past says -----

    /**
     * A timer scheduled at any point of the wheel's life is live now if and only if it was not
     * cancelled since and its due tick, fixed when it was scheduled, has not passed.
     */
    lemma LiveUntilDueHere(i: nat, entry: TimerEntry)
      requires Valid() && i < |history.events| && history.events[i] == Schedule(entry)
      ensures entry.id in timers <==>
                && !CancelledBetween(history, entry.id, i, |history.events|)
                && now <= DueOf(history.states[i], entry.deadline)
      ensures entry.id in timers ==> timers[entry.id] == NewTimer(history.states[i], entry)
    {
      LiveUntilDue(history, i, |history.events|, entry);
    }

    /** Which tick of the wheel's life expired it: the one that left its due tick, unless it was cancelled before. */
    lemma ExactFiringHere(i: nat, k: nat, entry: TimerEntry, expired: seq<TimerId>)
      requires Valid() && i < |history.events| && k < |history.events|
      requires history.events[i] == Schedule(entry) && history.events[k] == Event.Tick(expired)
      ensures entry.id in expired <==>
                && i < k && history.states[k].now == DueOf(history.states[i], entry.deadline)
                && !CancelledBetween(history, entry.id, i, k)
    {
      ExactFiring(history, i, k, entry, expired);
    }

    /** First set, first fired, in the wheel's own life. */
    lemma FifoFiringHere(
      i: nat, j: nat, k: nat, a: TimerEntry, b: TimerEntry, expired: seq<TimerId>, m: nat, n: nat)
      requires Valid() && i < j < |history.events| && k < |history.events|
      requires history.events[i] == Schedule(a) && history.events[j] == Schedule(b)
      requires history.states[i].now == history.states[j].now && history.events[k] == Event.Tick(expired)
      requires WholeTicks(a.deadline - startTime) == WholeTicks(b.deadline - startTime)
      requires m < |expired| && n < |expired| && expired[m] == a.id && expired[n] == b.id
      ensures m < n
    {
      HistorySound(history, |history.events|);
      FifoFiring(history, i, j, k, a, b, expired, m, n);
    }

    /** Every timer left is where it was, unless its slot was visited by one of the ticks `from` to `to`. */
    static ghost predicate Stayed(h: map<TimerId, Pos>, h': map<TimerId, Pos>, from: nat, to: nat) {
      forall x {:trigger StayedOne(h, h', from, to, x)} :: x in h' ==> StayedOne(h, h', from, to, x)
    }

    static ghost predicate StayedOne(h: map<TimerId, Pos>, h': map<TimerId, Pos>, from: nat, to: nat, x: TimerId)
      requires x in h'
    {
      x in h && (h'[x] == h[x] || exists b :: from <= b < to && Visited(h[x], b))
    }

    /** A run of ticks that began at tick `from`, with the places `h0`, has come to `now`. */
    ghost predicate Underway(g: Progress, mem: Memory, done: set<Handle>, h0: map<TimerId, Pos>, from: nat)
      reads this
    {
      && SweptTo(g, now, done, Reach(mem)) && Fifo(startTime, g.t0, g.expired)
      && from <= now && Stayed(h0, home, from, now)
    }

    /** One more tick of a run of ticks. */
    method TickOn(mem: Memory, done: set<Handle>, ghost g: Progress, ghost h0: map<TimerId, Pos>, ghost from: nat)
      returns (fired: nat, mem': Memory, ghost g': Progress)
      requires Valid() && Underway(g, mem, done, h0, from)
      modifies this
      ensures Valid() && issued == old(issued) && currentTime == old(currentTime) + Ns(1)
      ensures Underway(g', mem', done, h0, from) && SameRun(g, g') && |g'.woken| == |g.woken| + fired
      ensures OnlyTicksSince(old(history), history)
    {
      SweptStates(g, now, done, Reach(mem));
      ghost var more;
      fired, mem', more := Tick(mem, done);
      SweptNext(g, done, old(View()), old(Reach(mem)), View(), Reach(mem'), more);
      FifoAppend(g.t0, old(View()), g.expired, View(), more.expired);
      g' := Extend(g, more);
      StayedOn(h0, old(home), home, from, old(now));
    }

    /** Ticks until `target`: everything due on the way fires, in order of due tick. */
    method AdvanceTo(target: int, mem: Memory, done: set<Handle>) returns (total: nat, mem': Memory, ghost g: Progress)
      requires Valid() && StatesIn(timers, mem)
      modifies this
      ensures Valid() && issued == old(issued) && now >= old(now)
      ensures if old(currentTime) < target then target <= currentTime < target + Ns(1)
              else currentTime == old(currentTime)
      ensures SweptTo(g, now, done, Reach(mem')) && SameRun(old(Begin(Reach(mem))), g) && total == |g.woken|
      ensures Fifo(startTime, old(timers), g.expired)
      ensures Stayed(old(home), home, old(now), now) && OnlyTicksSince(old(history), history)
    {
      total, mem', g := 0, mem, Begin(Reach(mem));
      NothingOverdue(ChartWith([]), now);
      SweptFirst(now, done, Reach(mem));
      ghost var start, h0, from := g, home, now;
      while currentTime < target
        invariant Valid() && issued == old(issued) && Underway(g, mem', done, h0, from)
        invariant currentTime == old(currentTime) || currentTime < target + Ns(1)
        invariant SameRun(start, g) && total == |g.woken| && OnlyTicksSince(old(history), history)
        decreases target - currentTime
      {
        var fired;
        fired, mem', g := TickOn(mem', done, g, h0, from);
        total := total + fired;
      }
    }

    static lemma StayedOn(h0: map<TimerId, Pos>, h: map<TimerId, Pos>, h': map<TimerId, Pos>, from: nat, b: nat)
      requires from <= b && Stayed(h0, h, from, b)
      requires MovedByVisit(h, h', b)
      ensures Stayed(h0, h', from, b + 1)
    {
      forall x | x in h' ensures StayedOne(h0, h', from, b + 1, x) {
        assert StayedOne(h0, h, from, b, x) && MayMove(h[x], h'[x], b);
        if h'[x] != h[x] && h[x] == h0[x] {
          assert from <= b < b + 1 && Visited(h0[x], b);
        }
      }
    }

    /** `drain_ready_into`. */
    method DrainReadyInto(out: seq<Handle>) returns (all: seq<Handle>)
      requires Valid()
      modifies this`ready
      ensures Valid() && all == out + old(ready) && ready == []
    {
      all := out + ready;
      ready := [];
    }

    /** `wake`: a cancelled sleep puts its coroutine on the ready list itself. */
    method Wake(h: Handle)
      requires Valid()
      modifies this`ready
      ensures Valid() && ready == old(ready) + [h]
    {
      ready := ready + [h];
    }

    // ----- the next deadline -----

    /** The first live timer of a slot's list. */
    method FirstLive(ids: seq<TimerId>) returns (r: Option<int>, ghost who: TimerId)
      requires FindsLive()
      ensures r.None? ==> forall x <- ids :: x !in timers
      ensures r.Some? ==> who in ids && who in timers && r.value == timers[who].entry.deadline
      ensures r.Some? ==> forall x <- ids :: x in timers ==> x == who || Ahead(ids, who, x)
    {
      r, who := None, TimerId(0, 0);
      for k := 0 to |ids|
        invariant r.None? && forall x <- ids[..k] :: x !in timers
      {
        var entry := Lookup(ids[k]);
        if entry.Some? {
          forall x | x in ids && x in timers && x != ids[k] ensures Ahead(ids, ids[k], x) {
            FirstListed(ids, k, x);
          }
          return Some(entry.value.deadline), ids[k];
        }
      }
    }

    /** The earliest deadline among the live timers of a slot's list; of several, the first listed. */
    method EarliestLive(ids: seq<TimerId>) returns (r: Option<int>, ghost who: TimerId)
      requires FindsLive()
      ensures r.None? ==> forall x <- ids :: x !in timers
      ensures r.Some? ==> who in ids && who in timers && r.value == timers[who].entry.deadline
      ensures r.Some? ==> forall x <- ids :: x in timers ==>
                var e := timers[x].entry.deadline;
                x == who || r.value < e || (r.value == e && Ahead(ids, who, x))
    {
      r, who := None, TimerId(0, 0);
      ghost var at: nat := 0;
      for k := 0 to |ids|
        invariant r.None? ==> forall x <- ids[..k] :: x !in timers
        invariant r.Some? ==> at < k && ids[at] == who && who in timers && r.value == timers[who].entry.deadline
        invariant r.Some? ==> forall m :: 0 <= m < k && ids[m] in timers ==>
                    r.value <= timers[ids[m]].entry.deadline && (m < at ==> r.value < timers[ids[m]].entry.deadline)
      {
        var entry := Lookup(ids[k]);
        if entry.Some? {
          assert r.None? ==> forall m :: 0 <= m < k ==> ids[m] in ids[..k];
          if r.None? || entry.value.deadline < r.value {
            r, who, at := Some(entry.value.deadline), ids[k], k;
          }
        }
      }
    }

    /** The live timers of the slot `i` steps from the cursor: the first listed, or above the bottom the earliest. */
    method ScanStep(l: nat, i: nat, ghost c: Chart) returns (r: Option<int>, ghost who: TimerId)
      requires Valid() && FindsLive() && l < NUM_LEVELS && i < Size(l) && c == ChartWith([])
      ensures r.None? ==> NoneAt(c, now, l, i)
      ensures r.Some? ==> FirstInSlot(c, now, l, i, who) && r.value == timers[who].entry.deadline
    {
      SteppedIsRemainder(l, levels[l].current, i);
      var slot := (levels[l].current + i) % |levels[l].slots|;
      if l == 0 {
        r, who := FirstLive(levels[l].slots[slot]);
      } else {
        r, who := EarliestLive(levels[l].slots[slot]);
      }
      forall x | x in c.timers
        ensures x in c.levels[l].slots[slot] <==> InLevel(c, x, l) && StepsTo(c, l, now, x) == i
      {
        ListedWhereMet(c, now, l, i, x);
      }
    }

    /** Scans level `l` from its cursor: the first slot with a live timer decides. */
    method ScanLevel(l: nat) returns (r: Option<int>, ghost who: TimerId)
      requires Valid() && l < NUM_LEVELS
      ensures r.None? ==> forall x <- timers :: !InLevel(ChartWith([]), x, l)
      ensures r.Some? ==> FirstMet(ChartWith([]), now, l, who) && r.value == timers[who].entry.deadline
    {
      SteadyFinds();
      ghost var c := ChartWith([]);
      r, who := None, TimerId(0, 0);
      for i := 0 to |levels[l].slots|
        invariant r.None? && NoneBefore(c, now, l, i)
      {
        r, who := ScanStep(l, i, c);
        if r.Some? {
          FirstInSlotIsFirst(c, now, l, i, who);
          return;
        }
        NoneSoFar(c, now, l, i);
      }
      LevelEmpty(c, now, l);
    }

    lemma FirstSetReportedHere(l: nat, who: TimerId)
      requires Valid() && Reported(ChartWith([]), now, l, who)
      ensures forall x <- timers :: TwinBefore(startTime, timers[x], timers[who]) ==>
                l > 0 && timers[who].entry.deadline < timers[x].entry.deadline
    {
      forall x | x in timers && TwinBefore(startTime, timers[x], timers[who])
        ensures l > 0 && timers[who].entry.deadline < timers[x].entry.deadline
      {
        FirstSetIsReported(ChartWith([]), now, l, who, x);
      }
    }

    /**
     * Some live timer's deadline if there is one, none otherwise. It is the first met in a scan of
     * the lowest occupied level, which need not be the earliest deadline of all.
     */
    method NextDeadline() returns (r: Option<int>, ghost who: TimerId)
      requires Valid()
      ensures r.Some? <==> timers != map[]
      ensures r.Some? ==> who in timers && home[who].At? && r.value == timers[who].entry.deadline
      ensures r.Some? ==> Reported(ChartWith([]), now, home[who].level, who)
      ensures r.Some? ==> forall x <- timers :: TwinBefore(startTime, timers[x], timers[who]) ==>
                home[who].level > 0 && r.value < timers[x].entry.deadline
    {
      NoneActive(slotmap, timers, issued);
      NothingInFlight(ChartWith([]));
      r, who := None, TimerId(0, 0);
      if activeCount == 0 {
        return;
      }
      for l := 0 to NUM_LEVELS
        invariant r.None? && forall x <- timers :: l <= home[x].level
      {
        r, who := ScanLevel(l);
        if r.Some? {
          FirstSetReportedHere(l, who);
          return;
        }
      }
    }
  }
}
