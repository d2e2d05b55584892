/** Runs of the wheel: when a timer fires, for all phases and delays, and where the promises end. */
module TimerExamples {
  import opened Prelude
  import opened WheelMath
  import opened Firing
  import opened TimerSpec
  import opened WheelLevels
  import opened TimerSlotMap
  import opened TimerWheel

  /** One more tick on a wheel whose only timer completes the wait state at address 0. */
  method TickAlone(w: Wheel, mem: Memory, ghost id: TimerId) returns (mem': Memory)
    requires w.Valid() && w.timers.Keys == {id} && mem.Keys == {0} && mem[0] == Pending
    requires w.timers[id].entry.waiter == Waiter(None, Some(0), TimedOut)
    modifies w
    ensures w.Valid() && w.now == old(w.now) + 1 && mem'.Keys == {0}
    ensures if old(w.timers[id]).due == old(w.now) then mem'[0] == TimedOut
            else mem'[0] == Pending && w.timers == old(w.timers)
  {
    ghost var t := w.timers;
    assert Allocated(t[id].entry.waiter, mem);
    ghost var g;
    var fired;
    fired, mem', g := w.Tick(mem, {});
    if t[id].due == w.now - 1 {
      assert id in g.expired;
      forall x | x in g.expired ensures x == id {}
      Singleton(g.expired, id);
      assert g.waiters == [Waiter(None, Some(0), TimedOut)];
      Independent(g.waiters, mem, {}, 0);
    } else {
      assert g.expired == [] by { assert forall x :: x !in g.expired; }
      assert g.waiters == [];
      assert w.timers == t;
    }
  }

  /** An empty wheel `phase` ticks old: as written with `lead` 1, repaired with `lead` 0. */
  method AtPhase(lead: nat, phase: nat) returns (w: Wheel)
    requires lead <= 1
    ensures fresh(w) && w.Valid() && w.lead == lead && w.startTime == 0 && w.now == phase
    ensures w.timers == map[] && w.issued == {} && w.home == map[]
  {
    w := new Wheel(0, lead);
    var total, mem;
    ghost var g;
    total, mem, g := w.AdvanceTo(Ns(phase), map[], {});
    forall x ensures x !in w.timers {
      assert SweptOne(map[], w.timers, g.expired, w.now, x);
    }
    assert w.timers == map[] && w.home.Keys == {};
  }

  /** Ticks until the only timer has fired. */
  method TicksToFire(w: Wheel, ghost id: TimerId) returns (ticks: nat)
    requires w.Valid() && w.timers.Keys == {id} && w.timers[id].entry.waiter == Waiter(None, Some(0), TimedOut)
    modifies w
    ensures ticks == old(w.timers[id]).due + 1 - old(w.now)
  {
    var mem: Memory := map[0 := Pending];
    ghost var t := w.timers;
    ticks := 0;
    while mem[0] == Pending
      invariant w.Valid() && mem.Keys == {0} && w.now == old(w.now) + ticks
      invariant if mem[0] == Pending then w.timers == t else w.now == t[id].due + 1
      decreases t[id].due + 1 - w.now
    {
      NothingOverdue(w.ChartWith([]), w.now);
      mem := TickAlone(w, mem, id);
      ticks := ticks + 1;
    }
  }

  /** The tick that serves a delay of `delay` ticks given at wheel time `phase`. */
  function Served(lead: nat, phase: nat, delay: nat): nat {
    if lead == 1 && delay >= 16_384 && (phase + delay) % 16_384 == 256 then phase + delay - 256 else phase + delay
  }

  lemma ServedIsDue(lead: nat, phase: nat, delay: nat, deadline: int)
    requires deadline == Ns(phase) + Ns(delay)
    ensures DueTick(lead, phase, WholeTicks(deadline)) == Served(lead, phase, delay)
  {
    assert WholeTicks(deadline) == phase + delay;
  }

  /** A wheel `phase` ticks old with one timer, for `delay` ticks later. */
  method ScheduleAfter(lead: nat, phase: nat, delay: nat) returns (w: Wheel, id: TimerId, deadline: int)
    requires lead <= 1
    ensures fresh(w) && w.Valid() && w.lead == lead && w.startTime == 0 && w.now == phase && |w.issued| == 1
    ensures deadline == Ns(phase) + Ns(delay) && w.home == map[id := PosFor(0, deadline, phase)]
    ensures
      var entry := TimerEntry(id, deadline, Waiter(None, Some(0), TimedOut));
      w.timers == map[id := Timer(entry, DueTick(lead, phase, WholeTicks(deadline)), phase, 0)]
  {
    w := AtPhase(lead, phase);
    RoomEnough(w.slotmap, w.freeIndices, w.activeCount, w.timers, w.issued);
    deadline := w.currentTime + Ns(delay);
    id := w.ScheduleAt(deadline, Waiter(None, Some(0), TimedOut));
  }

  /**
   * For every phase of the wheel and every delay, the number of ticks until the timer fires: one
   * more than the delay, except in the early family; without exception in the repaired wheel.
   */
  method FireOffset(lead: nat, phase: nat, delay: nat) returns (offset: nat)
    requires lead <= 1
    ensures offset == if lead == 1 && delay >= 16_384 && (phase + delay) % 16_384 == 256 then delay - 255 else delay + 1
  {
    var w, id, deadline := ScheduleAfter(lead, phase, delay);
    ServedIsDue(lead, phase, delay, deadline);
    offset := TicksToFire(w, id);
  }

  /** The smallest early delay from the start, on the wheel as written and on the repaired one. */
  method EarlyExample() returns (written: nat, repaired: nat)
    ensures written == 16_640 - 255 && repaired == 16_640 + 1
  {
    written := FireOffset(1, 0, 16_640);
    repaired := FireOffset(0, 0, 16_640);
  }

  // ----- how far what is reported as the next deadline can be trusted -----

  /** A wheel `t` ticks old with one timer, on level `l`, for the next visit of that level. */
  method WaitingAbove(l: nat, t: nat) returns (w: Wheel, id: TimerId)
    requires 1 <= l < NUM_LEVELS && t > 0
    ensures fresh(w) && w.Valid() && w.lead == 1 && w.startTime == 0 && w.now == t && |w.issued| == 1
    ensures id in w.timers && w.timers.Keys == {id} && w.timers[id].entry.deadline == Ns(NextVisit(l, t))
    ensures w.home[id] == At(l, SlotOf(l, NextVisit(l, t))) && w.timers[id].due == NextVisit(l, t)
  {
    VisitBounds(l, t);
    var v := NextVisit(l, t);
    VisitAhead(1, l, v);
    var deadline;
    w, id, deadline := ScheduleAfter(1, v - Span(l), Span(l));
    assert deadline == Ns(v) && WholeTicks(deadline) == v;
    ghost var h, t0 := w.home, w.timers;
    assert h[id] == At(l, SlotOf(l, v)) && t0[id].due == v;
    var fired, mem;
    ghost var g;
    assert Allocated(t0[id].entry.waiter, map[0 := Pending]);
    fired, mem, g := w.AdvanceTo(Ns(t), map[0 := Pending], {});
    forall x ensures x in w.timers <==> x == id {
      assert SweptOne(t0, w.timers, g.expired, w.now, x);
    }
    assert SweptOne(t0, w.timers, g.expired, w.now, id);
    StaysAbove(h, w.home, id, l, v, t);
  }

  lemma StaysAbove(h: map<TimerId, Pos>, h': map<TimerId, Pos>, id: TimerId, l: nat, v: nat, t: nat)
    requires 1 <= l < NUM_LEVELS && Span(l) <= v && t <= v && Boundary(l, v)
    requires Wheel.Stayed(h, h', v - Span(l), t) && id in h' && id in h && h[id] == At(l, SlotOf(l, v))
    ensures h'[id] == h[id]
  {
    assert Wheel.StayedOne(h, h', v - Span(l), t, id);
    if h'[id] != h[id] {
      var b :| v - Span(l) <= b < t && Wheel.Visited(h[id], b);
      NotVisitedBefore(l, v, b);
    }
  }

  /** What orders a timer for tick `d`, set at wheel time `t`, among the others of level `l`. */
  function KeyOf(l: nat, t: nat, d: nat): nat {
    if l == 0 then DueTick(1, t, d) else d
  }

  /**
   * The bound of `WheelLevels.EarliestOfAll` is exact: for every wheel time `t` after the start and
   * every tick `d`, past ones included, whose key lies after the next visit of the level above,
   * there is a wheel that reports `d`, from level `l`, while a timer for that visit is live.
   */
  method Overtaken(l: nat, t: nat, d: nat) returns (w: Wheel, next: Option<int>, missed: TimerId, reported: TimerId)
    requires l + 1 < NUM_LEVELS && t > 0 && LevelFor(Distance(t, d)) == l && NextVisit(l + 1, t) < KeyOf(l, t, d)
    ensures fresh(w) && w.Valid() && w.startTime == 0 && w.now == t && next == Some(Ns(d))
    ensures reported in w.timers && w.timers[reported].entry.deadline == Ns(d)
    ensures missed in w.timers && w.timers[missed].entry.deadline == Ns(NextVisit(l + 1, t))
    ensures w.timers[missed].due == NextVisit(l + 1, t) && (l == 0 ==> w.timers[missed].due < w.timers[reported].due)
    ensures t <= d ==> w.timers[missed].entry.deadline < w.timers[reported].entry.deadline
  {
    w, missed, reported := OnTwoLevels(l, t, d);
    ghost var who;
    next, who := w.NextDeadline();
    LowerOfTwo(w.ChartWith([]), t, who, reported, missed, l);
  }

  /** A wheel `t` ticks old with a timer on level `l` and one above it, for the next visit there. */
  method OnTwoLevels(l: nat, t: nat, d: nat) returns (w: Wheel, above: TimerId, id: TimerId)
    requires l + 1 < NUM_LEVELS && t > 0 && LevelFor(Distance(t, d)) == l
    ensures fresh(w) && w.Valid() && w.startTime == 0 && w.now == t && w.timers.Keys == {above, id} && above != id
    ensures w.timers[above].entry.deadline == Ns(NextVisit(l + 1, t)) && w.timers[above].due == NextVisit(l + 1, t)
    ensures w.timers[id].entry.deadline == Ns(d) && w.timers[id].due == DueTick(1, t, d)
    ensures w.home[above] == At(l + 1, SlotOf(l + 1, NextVisit(l + 1, t))) && w.home[id].At? && w.home[id].level == l
  {
    w, above := WaitingAbove(l + 1, t);
    RoomEnough(w.slotmap, w.freeIndices, w.activeCount, w.timers, w.issued);
    id := w.ScheduleAt(Ns(d), Waiter(None, None, TimedOut));
    assert WholeTicks(Ns(d) - w.startTime) == d;
  }

  /** Of two timers on different levels, the one on the lower level is reported. */
  lemma LowerOfTwo(c: Chart, t: nat, who: TimerId, b: TimerId, other: TimerId, l: nat)
    requires c.timers.Keys == {other, b} && who in c.timers && who in c.home && c.home[who].At? && l + 1 < NUM_LEVELS
    requires Reported(c, t, c.home[who].level, who) && InLevel(c, b, l) && InLevel(c, other, l + 1)
    ensures who == b
  {
  }

  /** How many slots after the top level's cursor a scan at wheel time `t` meets the tick `d`. */
  function TopSteps(t: nat, d: nat): (i: nat)
    ensures i < 64 && Stepped(3, Cursor(3, t), i) == SlotOf(3, d)
  {
    var s, cur := SlotOf(3, d), Cursor(3, t);
    if s >= cur then s - cur else s + 64 - cur
  }

  /** A tick within one turn of the cursor, in the slot after that of `d`. */
  function EarlierTick(t: nat, d: nat): nat {
    (FirstRank(3, t) + TopSteps(t, d) + 1) * 1_048_576
  }

  lemma EarlierOnTop(t: nat, d: nat)
    requires t <= d && LevelFor(d - t) == 3 && !TrustedOnTop(t, d)
    ensures
      var v := EarlierTick(t, d);
      && t <= v < d && LevelFor(v - t) == 3
      && TopSteps(t, d) + 1 < 64 && TopSteps(t, v) == TopSteps(t, d) + 1
  {
    var f, i, v := FirstRank(3, t), TopSteps(t, d), EarlierTick(t, d);
    assert t <= NextVisit(3, t) == f * 1_048_576;
    assert Block(3, v) == f + i + 1;
    Wrap64(f, i + 1);
  }

  /**
   * The bound on the top level is exact too: for every wheel time and every tick `d` beyond one turn
   * of the top level's cursor, unless in the last slot of the scan, there is a wheel that reports
   * `d` while an earlier timer of the same level is live.
   */
  method OvertakenOnTop(t: nat, d: nat) returns (w: Wheel, next: Option<int>, missed: TimerId)
    requires t <= d && LevelFor(d - t) == 3 && !TrustedOnTop(t, d)
    ensures fresh(w) && w.Valid() && w.startTime == 0 && w.now == t && next == Some(Ns(d))
    ensures missed in w.timers && w.timers[missed].entry.deadline == Ns(EarlierTick(t, d)) < Ns(d)
  {
    EarlierOnTop(t, d);
    ghost var b;
    w, missed, b := TwoOnTop(t, EarlierTick(t, d), d);
    ghost var who;
    next, who := w.NextDeadline();
    FirstOfTwo(w.ChartWith([]), t, who, b, missed);
  }

  /** A wheel `t` ticks old with two timers, both on the top level. */
  method TwoOnTop(t: nat, v: nat, d: nat) returns (w: Wheel, a: TimerId, ghost b: TimerId)
    requires t <= v && LevelFor(v - t) == 3 && t <= d && LevelFor(d - t) == 3
    ensures fresh(w) && w.Valid() && w.startTime == 0 && w.now == t && w.timers.Keys == {a, b} && a != b
    ensures w.timers[a].entry.deadline == Ns(v) && w.home[a] == At(3, SlotOf(3, v))
    ensures w.timers[b].entry.deadline == Ns(d) && w.home[b] == At(3, SlotOf(3, d))
  {
    w := AtPhase(1, t);
    a := AddOnTop(w, v);
    b := AddOnTop(w, d);
  }

  method AddOnTop(w: Wheel, d: nat) returns (id: TimerId)
    requires w.Valid() && w.startTime == 0 && w.now <= d && LevelFor(d - w.now) == 3 && |w.issued| < 100
    modifies w
    ensures w.Valid() && w.now == old(w.now) && id !in old(w.issued) && w.issued == old(w.issued) + {id}
    ensures id in w.timers && w.timers == old(w.timers)[id := w.timers[id]] && w.timers[id].entry.deadline == Ns(d)
    ensures w.home == old(w.home)[id := At(3, SlotOf(3, d))]
  {
    RoomEnough(w.slotmap, w.freeIndices, w.activeCount, w.timers, w.issued);
    PlaceOnTop(w.now, d);
    id := w.ScheduleAt(Ns(d), Waiter(None, None, TimedOut));
  }

  lemma PlaceOnTop(t: nat, d: nat)
    requires t <= d && LevelFor(d - t) == 3
    ensures PosFor(0, Ns(d), t) == At(3, SlotOf(3, d))
  {
    assert WholeTicks(Ns(d) - 0) == d;
  }

  /** Of two timers on one level, the one met first is reported. */
  lemma FirstOfTwo(c: Chart, t: nat, who: TimerId, b: TimerId, other: TimerId)
    requires c.timers.Keys == {other, b} && who in c.timers && who in c.home && c.home[who].At?
    requires Reported(c, t, c.home[who].level, who) && InLevel(c, b, 3) && InLevel(c, other, 3)
    requires StepsTo(c, 3, t, b) < StepsTo(c, 3, t, other)
    ensures who == b
  {
    assert InLevel(c, who, 3) && MetBefore(c, t, 3, who, b);
  }

  /** Of two timers for the same tick on the bottom level, the one set first is reported, be it for later within it. */
  method FirstSetReported() returns (w: Wheel, next: Option<int>)
    ensures w.Valid() && next == Some(10_900_000)
    ensures exists x <- w.timers :: w.timers[x].entry.deadline == 10_100_000
  {
    w := new Wheel(0, 1);
    RoomEnough(w.slotmap, w.freeIndices, w.activeCount, w.timers, w.issued);
    var a := w.ScheduleAt(10_900_000, Waiter(None, None, TimedOut));
    RoomEnough(w.slotmap, w.freeIndices, w.activeCount, w.timers, w.issued);
    var b := w.ScheduleAt(10_100_000, Waiter(None, None, TimedOut));
    assert w.timers.Keys == {a, b} && w.home[a].level == 0 && w.home[b].level == 0;
    ghost var who;
    next, who := w.NextDeadline();
    assert TwinBefore(0, w.timers[a], w.timers[b]);
  }

  /** For instance, after 100 ticks 350 ms is reported while 256 ms is live. */
  method LaterDeadlineReported() returns (w: Wheel, next: Option<int>, missed: TimerId)
    ensures w.Valid() && w.now == 100 && next == Some(Ns(350))
    ensures missed in w.timers && w.timers[missed].entry.deadline == Ns(256)
  {
    assert NextVisit(1, 100) == 256 && LevelFor(Distance(100, 350)) == 0 && KeyOf(0, 100, 350) == 350;
    var reported;
    w, next, missed, reported := Overtaken(0, 100, 350);
  }

  /** For instance, from the start 68157440 ms is reported while 2097152 ms is live. */
  method LaterOnTop() returns (w: Wheel, next: Option<int>, missed: TimerId)
    ensures w.Valid() && w.now == 0 && next == Some(Ns(68_157_440))
    ensures missed in w.timers && w.timers[missed].entry.deadline == Ns(2_097_152)
  {
    assert TopSteps(0, 68_157_440) == 1 && EarlierTick(0, 68_157_440) == 2_097_152;
    assert LevelFor(68_157_440) == 3 && !TrustedOnTop(0, 68_157_440);
    w, next, missed := OvertakenOnTop(0, 68_157_440);
  }
}
