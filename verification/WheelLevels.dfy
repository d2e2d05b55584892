/**
 * The wheel's levels as values: who sits in which slot. Slots may keep ids of timers that are gone,
 * so occupancy is stated for live ids only: each occurs once, in its home slot, or in the list that
 * a running visit has taken out of a slot.
 */
module WheelLevels {
  import opened WheelMath
  import opened TimerSpec

  datatype Level = Level(slots: seq<seq<TimerId>>, current: nat)

  /** A slot of a level, or the list in the hands of the running visit. */
  datatype Pos = At(level: nat, slot: nat) | Flight

  predicate InWheel(p: Pos) {
    p.Flight? || (p.level < NUM_LEVELS && p.slot < Size(p.level))
  }

  predicate Shaped(levels: seq<Level>) {
    |levels| == NUM_LEVELS && forall l :: 0 <= l < NUM_LEVELS ==> |levels[l].slots| == Size(l)
  }

  function Bucket(levels: seq<Level>, flight: seq<TimerId>, p: Pos): seq<TimerId>
    requires Shaped(levels) && InWheel(p)
  {
    if p.Flight? then flight else levels[p.level].slots[p.slot]
  }

  function SetSlot(levels: seq<Level>, l: nat, s: nat, ids: seq<TimerId>): (r: seq<Level>)
    requires Shaped(levels) && l < NUM_LEVELS && s < Size(l)
    ensures Shaped(r)
    ensures forall k :: 0 <= k < NUM_LEVELS ==> r[k].current == levels[k].current
    ensures forall p, flight {:trigger Bucket(r, flight, p)} :: InWheel(p) ==>
              Bucket(r, flight, p) == if p == At(l, s) then ids else Bucket(levels, flight, p)
  {
    levels[l := levels[l].(slots := levels[l].slots[s := ids])]
  }

  function Append(levels: seq<Level>, p: Pos, id: TimerId): seq<Level>
    requires Shaped(levels) && InWheel(p) && p.At?
  {
    SetSlot(levels, p.level, p.slot, levels[p.level].slots[p.slot] + [id])
  }

  /** Where `place` puts a timer when distances are measured from tick `at`. */
  function PosFor(start: int, deadline: int, at: nat): (p: Pos)
    ensures p.At? && InWheel(p)
  {
    var d := WholeTicks(deadline - start);
    var l := LevelFor(Distance(at, d));
    At(l, SlotOf(l, d))
  }

  function SetCursor(levels: seq<Level>, l: nat, s: nat): (r: seq<Level>)
    requires Shaped(levels) && l < NUM_LEVELS
    ensures Shaped(r)
    ensures forall k :: 0 <= k < NUM_LEVELS ==> r[k].current == if k == l then s else levels[k].current
    ensures forall p, flight {:trigger Bucket(r, flight, p)} :: InWheel(p) ==>
              Bucket(r, flight, p) == Bucket(levels, flight, p)
  {
    levels[l := levels[l].(current := s)]
  }

  /** Every live id occurs exactly once, in its home. */
  ghost predicate Counted(levels: seq<Level>, flight: seq<TimerId>, home: map<TimerId, Pos>)
    requires Shaped(levels)
  {
    && (forall id <- home :: InWheel(home[id]))
    && forall p, id {:trigger multiset(Bucket(levels, flight, p))[id]} :: InWheel(p) && id in home ==>
        multiset(Bucket(levels, flight, p))[id] == if home[id] == p then 1 else 0
  }

  /** Only ids that were handed out occur in slots. */
  ghost predicate Known(levels: seq<Level>, flight: seq<TimerId>, issued: set<TimerId>)
    requires Shaped(levels)
  {
    forall p, id :: InWheel(p) && id in Bucket(levels, flight, p) ==> id in issued
  }

  /** During tick `b`, levels from `l` up have done the visits of tick `b`, the others have not. */
  function Clock(b: nat, l: nat, k: nat): nat {
    if k < l then b else b + 1
  }

  function DeadlineTick(t: Timer, start: int): nat {
    WholeTicks(t.entry.deadline - start)
  }

  ghost predicate FitsAt(lead: nat, start: int, l: nat, s: nat, t: Timer, c: nat, now: nat)
    requires l < NUM_LEVELS
  {
    PlacedAt(lead, l, s, DeadlineTick(t, start), t.due, c, now)
  }

  /** Every timer in a slot will be met by a visit in time. */
  ghost predicate Aligned(
    lead: nat, start: int, home: map<TimerId, Pos>, timers: map<TimerId, Timer>, b: nat, l: nat, now: nat)
    requires home.Keys == timers.Keys
  {
    forall id {:trigger InTime(lead, start, home[id], timers[id], b, l, now)} :: id in home ==>
      InTime(lead, start, home[id], timers[id], b, l, now)
  }

  ghost predicate InTime(lead: nat, start: int, p: Pos, t: Timer, b: nat, l: nat, now: nat) {
    p.At? ==> p.level < NUM_LEVELS && FitsAt(lead, start, p.level, p.slot, t, Clock(b, l, p.level), now)
  }

  /** Every `current_slot` is ceil(T / span) mod size. */
  ghost predicate Cursors(levels: seq<Level>, b: nat, l: nat)
    requires Shaped(levels)
  {
    forall k :: 0 <= k < NUM_LEVELS ==> levels[k].current == Cursor(k, Clock(b, l, k))
  }

  /** What a visit of slot `p` lifts out. */
  function Lift(home: map<TimerId, Pos>, p: Pos): (r: map<TimerId, Pos>)
    ensures r.Keys == home.Keys
  {
    map id | id in home :: if home[id] == p then Flight else home[id]
  }

  // ----- occupancy -----

  lemma CountedTake(levels: seq<Level>, home: map<TimerId, Pos>, l: nat, s: nat)
    requires Shaped(levels) && l < NUM_LEVELS && s < Size(l) && Counted(levels, [], home)
    ensures Counted(SetSlot(levels, l, s, []), levels[l].slots[s], Lift(home, At(l, s)))
  {
    var levels', flight, home' := SetSlot(levels, l, s, []), levels[l].slots[s], Lift(home, At(l, s));
    forall p, id | InWheel(p) && id in home'
      ensures multiset(Bucket(levels', flight, p))[id] == if home'[id] == p then 1 else 0
    {
      assert Bucket(levels, [], At(l, s)) == flight;
      assert multiset(Bucket(levels, [], p))[id] == if home[id] == p then 1 else 0;
      assert multiset(flight)[id] == if home[id] == At(l, s) then 1 else 0;
      assert multiset(Bucket(levels, [], At(l, s)))[id] == if home[id] == At(l, s) then 1 else 0;
      assert multiset(Bucket(levels, [], Flight))[id] == 0;
    }
  }

  lemma Behead(flight: seq<TimerId>)
    requires flight != []
    ensures multiset(flight) == multiset(flight[1..]) + multiset{flight[0]}
  {
    assert flight == [flight[0]] + flight[1..];
  }

  lemma CountedPut(levels: seq<Level>, flight: seq<TimerId>, home: map<TimerId, Pos>, p: Pos)
    requires Shaped(levels) && InWheel(p) && p.At? && Counted(levels, flight, home)
    requires flight != [] && flight[0] in home
    ensures Counted(Append(levels, p, flight[0]), flight[1..], home[flight[0] := p])
  {
    var head, rest := flight[0], flight[1..];
    var levels', home' := Append(levels, p, head), home[head := p];
    Behead(flight);
    assert Bucket(levels, flight, Flight) == flight;
    assert multiset(Bucket(levels, flight, Flight))[head] >= 1;
    forall q, id | InWheel(q) && id in home'
      ensures multiset(Bucket(levels', rest, q))[id] == if home'[id] == q then 1 else 0
    {
      assert multiset(Bucket(levels, flight, q))[id] == if home[id] == q then 1 else 0;
      assert q == p ==> Bucket(levels, flight, q) == levels[p.level].slots[p.slot];
    }
  }

  lemma CountedSkip(levels: seq<Level>, flight: seq<TimerId>, home: map<TimerId, Pos>)
    requires Shaped(levels) && Counted(levels, flight, home)
    requires flight != [] && flight[0] !in home
    ensures Counted(levels, flight[1..], home)
  {
    Behead(flight);
    forall p, id | InWheel(p) && id in home
      ensures multiset(Bucket(levels, flight[1..], p))[id] == if home[id] == p then 1 else 0
    {
      assert multiset(Bucket(levels, flight, p))[id] == if home[id] == p then 1 else 0;
    }
  }

  lemma CountedNew(levels: seq<Level>, home: map<TimerId, Pos>, issued: set<TimerId>, id: TimerId)
    requires Shaped(levels) && Counted(levels, [], home) && Known(levels, [], issued) && id !in issued
    requires home.Keys <= issued
    ensures Counted(levels, [id], home[id := Flight])
  {
    var home' := home[id := Flight];
    forall p, x | InWheel(p) && x in home'
      ensures multiset(Bucket(levels, [id], p))[x] == if home'[x] == p then 1 else 0
    {
      assert p.At? ==> Bucket(levels, [id], p) == Bucket(levels, [], p);
      if x == id {
        assert p.At? ==> id !in Bucket(levels, [], p);
      } else {
        assert multiset(Bucket(levels, [], p))[x] == if home[x] == p then 1 else 0;
      }
    }
  }

  lemma CountedForget(levels: seq<Level>, flight: seq<TimerId>, home: map<TimerId, Pos>, id: TimerId)
    requires Shaped(levels) && Counted(levels, flight, home)
    ensures Counted(levels, flight, home - {id})
  {
  }

  // ----- the whole chart -----

  /** Levels, the list in flight and the table of live timers they serve. */
  datatype Chart = Chart(
    lead: nat, start: int, levels: seq<Level>, flight: seq<TimerId>,
    home: map<TimerId, Pos>, timers: map<TimerId, Timer>, issued: set<TimerId>)

  /**
   * The placement invariant at wheel time `now`, while the levels from `l` up have done the visits
   * of tick `b`. Between ticks `b == now`, `l == NUM_LEVELS` and nothing is in flight.
   */
  ghost predicate Consistent(c: Chart, b: nat, l: nat, now: nat) {
    match c
    case Chart(lead, start, levels, flight, home, timers, issued) =>
      && lead <= 1
      && Shaped(levels)
      && home.Keys == timers.Keys <= issued
      && Counted(levels, flight, home)
      && Known(levels, flight, issued)
      && Aligned(lead, start, home, timers, b, l, now)
  }

  /** Everything in flight was lifted from the slot of level `l` visited at tick `b`. */
  ghost predicate InFlightFrom(c: Chart, b: nat, l: nat)
    requires l < NUM_LEVELS
  {
    match c
    case Chart(lead, start, _, _, home, timers, _) =>
      forall id <- home :: home[id] == Flight ==>
        id in timers && FitsAt(lead, start, l, SlotOf(l, b), timers[id], b, b + 1)
  }

  /** A new wheel: 256 empty slots and three times 64, all cursors at slot 0. */
  function EmptyLevels(): seq<Level> {
    seq(NUM_LEVELS, l requires 0 <= l < NUM_LEVELS => Level(seq(Size(l), _ => []), 0))
  }

  lemma EmptyConsistent(lead: nat, start: int)
    requires lead <= 1
    ensures Consistent(Chart(lead, start, EmptyLevels(), [], map[], map[], {}), 0, NUM_LEVELS, 0)
    ensures Cursors(EmptyLevels(), 0, NUM_LEVELS)
  {
  }

  /** The head of the flight list goes to `p`. */
  ghost function Put(c: Chart, p: Pos): Chart
    requires Shaped(c.levels) && InWheel(p) && p.At? && c.flight != []
  {
    c.(levels := Append(c.levels, p, c.flight[0]), flight := c.flight[1..], home := c.home[c.flight[0] := p])
  }

  /** The visit of slot `s` of level `l` begins. */
  ghost function Take(c: Chart, l: nat, s: nat): Chart
    requires Shaped(c.levels) && l < NUM_LEVELS && s < Size(l)
  {
    c.(levels := SetSlot(c.levels, l, s, []), flight := c.levels[l].slots[s], home := Lift(c.home, At(l, s)))
  }

  /** When tick `b` does not visit level `l`, it visits no level above either, and those are up to date. */
  lemma {:induction false} QuietAbove(c: Chart, b: nat, l: nat)
    requires 1 <= l <= NUM_LEVELS && (l < NUM_LEVELS ==> !Boundary(l, b))
    requires Consistent(c, b, NUM_LEVELS, b + 1) && Cursors(c.levels, b, NUM_LEVELS)
    ensures Consistent(c, b, l, b + 1) && Cursors(c.levels, b, l)
    decreases NUM_LEVELS - l
  {
    if l < NUM_LEVELS {
      if l + 1 < NUM_LEVELS && Boundary(l + 1, b) {
        BoundaryBelow(l, b);
      }
      QuietAbove(c, b, l + 1);
      AlignedPassBy(c, b, l, b + 1);
      CursorVisits(l, b);
    }
  }

  lemma AlignedPassBy(c: Chart, b: nat, l: nat, now: nat)
    requires c.home.Keys == c.timers.Keys && l < NUM_LEVELS
    requires Aligned(c.lead, c.start, c.home, c.timers, b, l + 1, now)
    requires forall id <- c.home :: c.home[id].At? && c.home[id].level == l ==>
               !(Boundary(l, b) && c.home[id].slot == SlotOf(l, b))
    ensures Aligned(c.lead, c.start, c.home, c.timers, b, l, now)
  {
    forall id | id in c.home ensures InTime(c.lead, c.start, c.home[id], c.timers[id], b, l, now) {
      assert InTime(c.lead, c.start, c.home[id], c.timers[id], b, l + 1, now);
      if c.home[id].At? && c.home[id].level == l {
        PassBy(c.lead, l, c.home[id].slot, DeadlineTick(c.timers[id], c.start), c.timers[id].due, b, now);
      }
    }
  }

  /** Beginning a visit: the rest of level `l` is up to date, the slot's timers are in flight. */
  lemma TakeConsistent(c: Chart, b: nat, l: nat)
    requires l < NUM_LEVELS && Boundary(l, b) && c.flight == [] && Consistent(c, b, l + 1, b + 1)
    ensures Consistent(Take(c, l, SlotOf(l, b)), b, l, b + 1)
    ensures InFlightFrom(Take(c, l, SlotOf(l, b)), b, l)
  {
    CountedTake(c.levels, c.home, l, SlotOf(l, b));
    NothingInFlight(c);
    KnownTake(c, l, SlotOf(l, b));
    AlignedTake(c, b, l);
  }

  lemma KnownTake(c: Chart, l: nat, s: nat)
    requires Shaped(c.levels) && l < NUM_LEVELS && s < Size(l) && Known(c.levels, c.flight, c.issued)
    ensures Known(Take(c, l, s).levels, Take(c, l, s).flight, c.issued)
  {
    var c' := Take(c, l, s);
    forall p, id | InWheel(p) && id in Bucket(c'.levels, c'.flight, p) ensures id in c.issued {
      assert p == Flight ==> id in Bucket(c.levels, c.flight, At(l, s));
      assert p.At? ==> id in Bucket(c.levels, c.flight, p);
    }
  }

  lemma AlignedTake(c: Chart, b: nat, l: nat)
    requires l < NUM_LEVELS && Boundary(l, b) && Shaped(c.levels) && c.home.Keys == c.timers.Keys
    requires Aligned(c.lead, c.start, c.home, c.timers, b, l + 1, b + 1) && forall id <- c.home :: c.home[id].At?
    ensures
      var c' := Take(c, l, SlotOf(l, b));
      Aligned(c.lead, c.start, c'.home, c.timers, b, l, b + 1) && InFlightFrom(c', b, l)
  {
    var c' := Take(c, l, SlotOf(l, b));
    forall id | id in c.home
      ensures InTime(c.lead, c.start, c'.home[id], c.timers[id], b, l + 1, b + 1)
      ensures c'.home[id] == Flight ==> FitsAt(c.lead, c.start, l, SlotOf(l, b), c.timers[id], b, b + 1)
    {
      assert InTime(c.lead, c.start, c.home[id], c.timers[id], b, l + 1, b + 1);
    }
    AlignedPassBy(c', b, l, b + 1);
  }

  lemma NothingInFlight(c: Chart)
    requires Shaped(c.levels) && c.flight == [] && Counted(c.levels, c.flight, c.home)
    ensures forall id <- c.home :: c.home[id].At?
  {
    forall id | id in c.home ensures c.home[id].At? {
      assert multiset(Bucket(c.levels, c.flight, Flight))[id] == 0;
    }
  }

  lemma InFlightHead(c: Chart)
    requires Shaped(c.levels) && Counted(c.levels, c.flight, c.home)
    requires c.flight != [] && c.flight[0] in c.home
    ensures c.home[c.flight[0]] == Flight
  {
    assert multiset(Bucket(c.levels, c.flight, Flight))[c.flight[0]] > 0;
  }

  lemma PutConsistent(c: Chart, p: Pos, b: nat, m: nat, now: nat)
    requires Consistent(c, b, m, now) && InWheel(p) && p.At?
    requires c.flight != [] && c.flight[0] in c.home
    requires FitsAt(c.lead, c.start, p.level, p.slot, c.timers[c.flight[0]], Clock(b, m, p.level), now)
    ensures Consistent(Put(c, p), b, m, now)
  {
    var c' := Put(c, p);
    CountedPut(c.levels, c.flight, c.home, p);
    assert c.flight[0] in Bucket(c.levels, c.flight, Flight);
    forall q, id | InWheel(q) && id in Bucket(c'.levels, c'.flight, q) ensures id in c.issued {
      if q == p {
        assert c.levels[p.level].slots[p.slot] == Bucket(c.levels, c.flight, q);
      } else if q == Flight {
        assert id in Bucket(c.levels, c.flight, Flight);
      }
    }
  }

  /** One step of the cascade of level `l`: the head of the list in flight has a fitting place. */
  lemma RedealFits(c: Chart, b: nat, l: nat)
    requires 1 <= l < NUM_LEVELS && Boundary(l, b) && Consistent(c, b, l, b + 1) && InFlightFrom(c, b, l)
    requires c.flight != [] && c.flight[0] in c.home
    ensures
      var t := c.timers[c.flight[0]];
      var p := PosFor(c.start, t.entry.deadline, b + c.lead);
      FitsAt(c.lead, c.start, p.level, p.slot, t, Clock(b, l, p.level), b + 1)
  {
    var t := c.timers[c.flight[0]];
    InFlightHead(c);
    Redistribute(c.lead, l, DeadlineTick(t, c.start), t.due, b);
  }

  lemma RedealConsistent(c: Chart, b: nat, l: nat)
    requires 1 <= l < NUM_LEVELS && Boundary(l, b) && Consistent(c, b, l, b + 1) && InFlightFrom(c, b, l)
    requires c.flight != [] && c.flight[0] in c.home
    ensures
      var p := PosFor(c.start, c.timers[c.flight[0]].entry.deadline, b + c.lead);
      Consistent(Put(c, p), b, l, b + 1) && InFlightFrom(Put(c, p), b, l)
  {
    RedealFits(c, b, l);
    PutConsistent(c, PosFor(c.start, c.timers[c.flight[0]].entry.deadline, b + c.lead), b, l, b + 1);
  }

  lemma CursorConsistent(c: Chart, l: nat, s: nat, b: nat, m: nat, now: nat)
    requires Consistent(c, b, m, now) && l < NUM_LEVELS
    ensures Consistent(c.(levels := SetCursor(c.levels, l, s)), b, m, now)
  {
    var levels' := SetCursor(c.levels, l, s);
    forall p, id | InWheel(p) && id in c.home
      ensures multiset(Bucket(levels', c.flight, p))[id] == if c.home[id] == p then 1 else 0
    {
      assert Bucket(levels', c.flight, p) == Bucket(c.levels, c.flight, p);
    }
  }

  /** The visit of level `l` is over: its cursor moves on. */
  lemma VisitDone(c: Chart, b: nat, l: nat)
    requires l < NUM_LEVELS && Boundary(l, b) && Consistent(c, b, l, b + 1) && Cursors(c.levels, b, l + 1)
    ensures
      var levels' := SetCursor(c.levels, l, (SlotOf(l, b) + 1) % Size(l));
      Consistent(c.(levels := levels'), b, l, b + 1) && Cursors(levels', b, l)
  {
    CursorVisits(l, b);
    NextIsRemainder(SlotOf(l, b), Size(l));
    CursorConsistent(c, l, (SlotOf(l, b) + 1) % Size(l), b, l, b + 1);
  }

  lemma SkipConsistent(c: Chart, b: nat, m: nat, now: nat)
    requires Consistent(c, b, m, now) && c.flight != [] && c.flight[0] !in c.home
    ensures Consistent(c.(flight := c.flight[1..]), b, m, now)
  {
    CountedSkip(c.levels, c.flight, c.home);
    KnownRest(c, b, m, now);
  }

  lemma KnownRest(c: Chart, b: nat, m: nat, now: nat)
    requires Consistent(c, b, m, now) && c.flight != []
    ensures Known(c.levels, c.flight[1..], c.issued)
  {
    forall p, id | InWheel(p) && id in Bucket(c.levels, c.flight[1..], p) ensures id in c.issued {
      assert id in Bucket(c.levels, c.flight, p);
    }
  }

  /** A timer that leaves the table leaves a stale id behind and disturbs nobody. */
  lemma ForgetConsistent(c: Chart, id: TimerId, b: nat, m: nat, now: nat)
    requires Consistent(c, b, m, now)
    ensures Consistent(c.(home := c.home - {id}, timers := c.timers - {id}), b, m, now)
  {
    CountedForget(c.levels, c.flight, c.home, id);
  }

  /** A new timer starts in flight. */
  lemma NewConsistent(c: Chart, t: Timer, id: TimerId, now: nat)
    requires Consistent(c, now, NUM_LEVELS, now) && c.flight == [] && id !in c.issued
    ensures Consistent(
      c.(flight := [id], home := c.home[id := Flight], timers := c.timers[id := t], issued := c.issued + {id}),
      now, NUM_LEVELS, now)
  {
    CountedNew(c.levels, c.home, c.issued, id);
    forall p, x | InWheel(p) && x in Bucket(c.levels, [id], p) ensures x in c.issued + {id} {
      if p.At? {
        assert x in Bucket(c.levels, [], p);
      }
    }
  }

  /** What scheduling makes of the chart. */
  ghost function Added(c: Chart, t: Timer, id: TimerId, p: Pos): Chart
    requires Shaped(c.levels) && InWheel(p) && p.At?
  {
    c.(levels := Append(c.levels, p, id),
       home := c.home[id := p], timers := c.timers[id := t], issued := c.issued + {id})
  }

  /** Scheduling: the new timer goes straight to the slot its distance from `now` calls for. */
  lemma AddConsistent(c: Chart, t: Timer, id: TimerId, now: nat)
    requires Consistent(c, now, NUM_LEVELS, now) && c.flight == [] && id !in c.issued
    requires t.due == DueTick(c.lead, now, DeadlineTick(t, c.start))
    ensures Consistent(Added(c, t, id, PosFor(c.start, t.entry.deadline, now)), now, NUM_LEVELS, now)
  {
    var p := PosFor(c.start, t.entry.deadline, now);
    var c' := c.(flight := [id], home := c.home[id := Flight], timers := c.timers[id := t], issued := c.issued + {id});
    NewConsistent(c, t, id, now);
    PlaceFresh(c.lead, now, DeadlineTick(t, c.start));
    PutConsistent(c', p, now, NUM_LEVELS, now);
    assert [id][1..] == [];
    assert c.home[id := Flight][id := p] == c.home[id := p];
  }

  // ----- expiry -----

  /** The head of the bottom slot's list is dropped, and with it the timer it may stand for. */
  ghost function DropHead(c: Chart): Chart
    requires c.flight != []
  {
    c.(flight := c.flight[1..], home := c.home - {c.flight[0]}, timers := c.timers - {c.flight[0]})
  }

  lemma DropHeadConsistent(c: Chart, b: nat)
    requires c.flight != [] && Consistent(c, b, 0, b + 1) && InFlightFrom(c, b, 0)
    ensures Consistent(DropHead(c), b, 0, b + 1) && InFlightFrom(DropHead(c), b, 0)
    ensures c.flight[0] in c.timers ==> c.timers[c.flight[0]].due == b
  {
    var id := c.flight[0];
    if id in c.timers {
      InFlightHead(c);
      DueNow(c.lead, SlotOf(0, b), DeadlineTick(c.timers[id], c.start), c.timers[id].due, b, b + 1);
    }
    ForgetConsistent(c, id, b, 0, b + 1);
    SkipConsistent(c.(home := c.home - {id}, timers := c.timers - {id}), b, 0, b + 1);
  }

  /** Once the visits of tick `b` are over, everything live is due later. */
  lemma RestIsLater(c: Chart, b: nat)
    requires c.flight == [] && Consistent(c, b, 0, b + 1)
    ensures forall id <- c.timers :: c.timers[id].due > b
  {
    NothingInFlight(c);
    forall id | id in c.timers ensures c.timers[id].due > b {
      var p := c.home[id];
      assert InTime(c.lead, c.start, p, c.timers[id], b, 0, b + 1);
      DueLater(c.lead, p.level, p.slot, DeadlineTick(c.timers[id], c.start), c.timers[id].due, b + 1, b + 1);
    }
  }

  /** Between ticks nothing live is overdue. */
  lemma NothingOverdue(c: Chart, now: nat)
    requires c.flight == [] && Consistent(c, now, NUM_LEVELS, now)
    ensures forall id <- c.timers :: c.timers[id].due >= now
  {
    NothingInFlight(c);
    forall id | id in c.timers ensures c.timers[id].due >= now {
      var p := c.home[id];
      assert InTime(c.lead, c.start, p, c.timers[id], now, NUM_LEVELS, now);
      DueLater(c.lead, p.level, p.slot, DeadlineTick(c.timers[id], c.start), c.timers[id].due, now, now);
    }
  }

  /** The end of tick `b` is the beginning of the time after it. */
  lemma TickDone(c: Chart, b: nat)
    requires Consistent(c, b, 0, b + 1) && Cursors(c.levels, b, 0)
    ensures Consistent(c, b + 1, NUM_LEVELS, b + 1) && Cursors(c.levels, b + 1, NUM_LEVELS)
  {
    forall id | id in c.home ensures InTime(c.lead, c.start, c.home[id], c.timers[id], b + 1, NUM_LEVELS, b + 1) {
      assert InTime(c.lead, c.start, c.home[id], c.timers[id], b, 0, b + 1);
    }
  }

  /** Advancing the wheel's time before any visit leaves every timer where it may be. */
  lemma LaterIsFine(c: Chart, b: nat)
    requires Consistent(c, b, NUM_LEVELS, b)
    ensures Consistent(c, b, NUM_LEVELS, b + 1)
  {
    forall id | id in c.home ensures InTime(c.lead, c.start, c.home[id], c.timers[id], b, NUM_LEVELS, b + 1) {
      assert InTime(c.lead, c.start, c.home[id], c.timers[id], b, NUM_LEVELS, b);
    }
  }

  // ----- first set, first out -----

  ghost predicate Ahead(ids: seq<TimerId>, x: TimerId, y: TimerId) {
    exists i, j :: 0 <= i < j < |ids| && ids[i] == x && ids[j] == y
  }

  lemma AheadAppend(ids: seq<TimerId>, id: TimerId, x: TimerId, y: TimerId)
    ensures Ahead(ids, x, y) ==> Ahead(ids + [id], x, y)
    ensures x in ids ==> Ahead(ids + [id], x, id)
  {
    var ids' := ids + [id];
    if Ahead(ids, x, y) {
      var i, j :| 0 <= i < j < |ids| && ids[i] == x && ids[j] == y;
      assert ids'[i] == x && ids'[j] == y;
    }
    if x in ids {
      var i :| 0 <= i < |ids| && ids[i] == x;
      assert ids'[i] == x && ids'[|ids|] == id;
    }
  }

  lemma AheadRest(ids: seq<TimerId>, x: TimerId, y: TimerId)
    requires ids != [] && Ahead(ids, x, y) && ids[0] != x
    ensures Ahead(ids[1..], x, y)
  {
    var i, j :| 0 <= i < j < |ids| && ids[i] == x && ids[j] == y;
    assert ids[1..][i - 1] == x && ids[1..][j - 1] == y;
  }

  /** Nobody is ahead of the head of a list in which it occurs once. */
  lemma HeadIsFirst(ids: seq<TimerId>, x: TimerId)
    requires ids != [] && multiset(ids)[ids[0]] == 1
    ensures !Ahead(ids, x, ids[0])
  {
    if Ahead(ids, x, ids[0]) {
      var i, j :| 0 <= i < j < |ids| && ids[i] == x && ids[j] == ids[0];
      CountedTwice(ids, 0, j);
    }
  }

  lemma CountedTwice(ids: seq<TimerId>, i: nat, j: nat)
    requires i < j < |ids| && ids[i] == ids[j]
    ensures multiset(ids)[ids[i]] >= 2
  {
    assert ids == ids[..j] + [ids[j]] + ids[j + 1..];
    assert ids[..j][i] == ids[j];
    assert multiset(ids[..j])[ids[j]] > 0;
  }

  /** `x` and `y` are in the same place, `x` first. */
  ghost predicate Together(c: Chart, x: TimerId, y: TimerId)
    requires Shaped(c.levels) && x in c.home && y in c.home
  {
    c.home[x] == c.home[y] && InWheel(c.home[x]) && Ahead(Bucket(c.levels, c.flight, c.home[x]), x, y)
  }

  /** While tick distances are measured from `at`, `x` has been dealt out and `y` will follow it. */
  ghost predicate ToFollow(c: Chart, at: nat, x: TimerId, y: TimerId)
    requires x in c.home && y in c.home && x in c.timers
  {
    c.home[y] == Flight && c.home[x] == PosFor(c.start, c.timers[x].entry.deadline, at)
  }

  ghost predicate InTurn(c: Chart, at: nat, x: TimerId, y: TimerId)
    requires Shaped(c.levels)
  {
    x in c.home && y in c.home && x in c.timers && y in c.timers && TwinBefore(c.start, c.timers[x], c.timers[y]) ==>
      Together(c, x, y) || ToFollow(c, at, x, y)
  }

  /** Timers set in the same tick for the same deadline tick stay together, in the order they were set. */
  ghost predicate Orderly(c: Chart, at: nat)
    requires Shaped(c.levels)
  {
    forall x, y {:trigger InTurn(c, at, x, y)} :: InTurn(c, at, x, y)
  }

  /** With nothing in flight it does not matter where distances are measured from. */
  lemma OrderlySettled(c: Chart, at: nat, at': nat)
    requires Shaped(c.levels) && c.flight == [] && Counted(c.levels, c.flight, c.home) && Orderly(c, at)
    ensures Orderly(c, at')
  {
    NothingInFlight(c);
    forall x, y ensures InTurn(c, at', x, y) {
      assert InTurn(c, at, x, y);
    }
  }

  lemma OrderlyTake(c: Chart, l: nat, s: nat, at: nat)
    requires Shaped(c.levels) && c.flight == [] && Counted(c.levels, c.flight, c.home) && Orderly(c, at)
    requires l < NUM_LEVELS && s < Size(l)
    ensures Orderly(Take(c, l, s), at)
  {
    var c' := Take(c, l, s);
    NothingInFlight(c);
    forall x, y ensures InTurn(c', at, x, y) {
      assert InTurn(c, at, x, y);
    }
  }

  lemma OrderlyPut(c: Chart, at: nat)
    requires Shaped(c.levels) && Counted(c.levels, c.flight, c.home) && Orderly(c, at)
    requires c.flight != [] && c.flight[0] in c.home && c.flight[0] in c.timers
    ensures Orderly(Put(c, PosFor(c.start, c.timers[c.flight[0]].entry.deadline, at)), at)
  {
    var head, p := c.flight[0], PosFor(c.start, c.timers[c.flight[0]].entry.deadline, at);
    var c' := Put(c, p);
    InFlightHead(c);
    assert multiset(Bucket(c.levels, c.flight, Flight))[head] == 1;
    forall x, y ensures InTurn(c', at, x, y) {
      assert InTurn(c, at, x, y);
      HeadIsFirst(c.flight, x);
      AheadAppend(c.levels[p.level].slots[p.slot], head, x, y);
      if x in c.home {
        assert multiset(Bucket(c.levels, c.flight, p))[x] == if c.home[x] == p then 1 else 0;
      }
      if x != head && Ahead(c.flight, x, y) {
        AheadRest(c.flight, x, y);
      }
    }
  }

  /** The head of the list in flight goes away, with the timer it may stand for. */
  lemma OrderlyDrop(c: Chart, at: nat)
    requires Shaped(c.levels) && Orderly(c, at) && c.flight != []
    ensures Orderly(DropHead(c), at)
  {
    forall x, y ensures InTurn(DropHead(c), at, x, y) {
      assert InTurn(c, at, x, y);
      if x != c.flight[0] && Ahead(c.flight, x, y) {
        AheadRest(c.flight, x, y);
      }
    }
  }

  /** A stale id goes. */
  lemma OrderlySkip(c: Chart, at: nat)
    requires Shaped(c.levels) && Orderly(c, at) && c.flight != [] && c.flight[0] !in c.home
    ensures Orderly(c.(flight := c.flight[1..]), at)
  {
    forall x, y ensures InTurn(c.(flight := c.flight[1..]), at, x, y) {
      assert InTurn(c, at, x, y);
      if x != c.flight[0] && Ahead(c.flight, x, y) {
        AheadRest(c.flight, x, y);
      }
    }
  }

  lemma OrderlyForget(c: Chart, id: TimerId, at: nat)
    requires Shaped(c.levels) && Orderly(c, at)
    ensures Orderly(c.(home := c.home - {id}, timers := c.timers - {id}), at)
  {
    forall x, y ensures InTurn(c.(home := c.home - {id}, timers := c.timers - {id}), at, x, y) {
      assert InTurn(c, at, x, y);
    }
  }

  lemma OrderlyCursor(c: Chart, l: nat, s: nat, at: nat)
    requires Shaped(c.levels) && Orderly(c, at) && l < NUM_LEVELS
    ensures Orderly(c.(levels := SetCursor(c.levels, l, s)), at)
  {
    forall x, y ensures InTurn(c.(levels := SetCursor(c.levels, l, s)), at, x, y) {
      assert InTurn(c, at, x, y);
    }
  }

  ghost predicate SetBy(c: Chart, now: nat, id: TimerId)
    requires id in c.home && id in c.timers
  {
    && c.timers[id].at <= now && c.timers[id].nth < |c.issued|
    && (c.timers[id].at == now ==> c.home[id] == PosFor(c.start, c.timers[id].entry.deadline, now))
  }

  /** What was set in the tick `now` is where it was put; everything else was set before. */
  ghost predicate JustSet(c: Chart, now: nat) {
    forall id {:trigger SetBy(c, now, id)} :: id in c.home && id in c.timers ==> SetBy(c, now, id)
  }

  /** Scheduling: the new timer is the last of its slot, and of those set so far. */
  lemma OrderlyAdd(c: Chart, t: Timer, id: TimerId, now: nat)
    requires Consistent(c, now, NUM_LEVELS, now) && c.flight == [] && Orderly(c, now) && JustSet(c, now)
    requires id !in c.issued && t.at == now && t.nth == |c.issued|
    ensures Orderly(Added(c, t, id, PosFor(c.start, t.entry.deadline, now)), now)
  {
    var p := PosFor(c.start, t.entry.deadline, now);
    var c' := Added(c, t, id, p);
    NothingInFlight(c);
    forall x, y ensures InTurn(c', now, x, y) {
      assert InTurn(c, now, x, y);
      if y == id && x in c.home {
        LastOfTwins(c, t, id, now, x);
      } else if x == id && y in c.home {
        assert SetBy(c, now, y);
      } else {
        AheadAppend(Bucket(c.levels, c.flight, p), id, x, y);
      }
    }
  }

  lemma LastOfTwins(c: Chart, t: Timer, id: TimerId, now: nat, x: TimerId)
    requires Shaped(c.levels) && Counted(c.levels, c.flight, c.home) && JustSet(c, now)
    requires x in c.home && x in c.timers && x != id && t.at == now
    ensures InTurn(Added(c, t, id, PosFor(c.start, t.entry.deadline, now)), now, x, id)
  {
    var p := PosFor(c.start, t.entry.deadline, now);
    assert SetBy(c, now, x);
    assert multiset(Bucket(c.levels, c.flight, p))[x] == if c.home[x] == p then 1 else 0;
    AheadAppend(Bucket(c.levels, c.flight, p), id, x, id);
  }

  lemma JustSetAdd(c: Chart, t: Timer, id: TimerId, now: nat)
    requires Shaped(c.levels) && JustSet(c, now) && id !in c.issued && t.at == now && t.nth == |c.issued|
    ensures JustSet(Added(c, t, id, PosFor(c.start, t.entry.deadline, now)), now)
  {
    var c' := Added(c, t, id, PosFor(c.start, t.entry.deadline, now));
    forall x | x in c'.home && x in c'.timers ensures SetBy(c', now, x) {
      assert x != id && x in c.home && x in c.timers ==> SetBy(c, now, x);
    }
  }

  lemma JustSetForget(c: Chart, id: TimerId, now: nat)
    requires JustSet(c, now)
    ensures JustSet(c.(home := c.home - {id}, timers := c.timers - {id}), now)
  {
    var c' := c.(home := c.home - {id}, timers := c.timers - {id});
    forall x | x in c'.home && x in c'.timers ensures SetBy(c', now, x) {
      assert SetBy(c, now, x);
    }
  }

  /** A tick later nothing was set just now. */
  lemma NoneSetYet(c: Chart, c': Chart, now: nat)
    requires JustSet(c, now) && c'.issued == c.issued
    requires forall x <- c'.timers :: x in c.timers && x in c.home && c'.timers[x] == c.timers[x]
    ensures JustSet(c', now + 1)
  {
    forall x | x in c'.home && x in c'.timers ensures SetBy(c', now + 1, x) {
      assert SetBy(c, now, x);
    }
  }

  /** The end of tick `b`: `c` has become `c'`, and nothing is left that is due. */
  lemma TickOver(c: Chart, c': Chart, b: nat, expired: seq<TimerId>)
    requires c'.flight == [] && Consistent(c', b, 0, b + 1) && Cursors(c'.levels, b, 0) && c'.issued == c.issued
    requires Orderly(c', b + c'.lead) && JustSet(c, b) && Leaving(c.timers, c'.timers, expired, b)
    requires c.home.Keys == c.timers.Keys
    ensures Consistent(c', b + 1, NUM_LEVELS, b + 1) && Cursors(c'.levels, b + 1, NUM_LEVELS)
    ensures Orderly(c', b + 1) && JustSet(c', b + 1)
    ensures forall id <- c'.timers :: c'.timers[id].due > b
  {
    RestIsLater(c', b);
    OrderlySettled(c', b + c'.lead, b + 1);
    LeftAsTheyWere(c.timers, c'.timers, expired, b);
    NoneSetYet(c, c', b);
    TickDone(c', b);
  }

  lemma FirstListed(ids: seq<TimerId>, k: nat, x: TimerId)
    requires k < |ids| && x in ids && x !in ids[..k] && x != ids[k]
    ensures Ahead(ids, ids[k], x)
  {
    var m :| 0 <= m < |ids| && ids[m] == x;
    assert forall n :: 0 <= n < k ==> ids[n] in ids[..k];
    assert k < m;
  }

  /** Whoever is still in flight was not set before one of those expired, in the same tick for the same tick. */
  ghost predicate NoneBypassed(c: Chart, t0: map<TimerId, Timer>, expired: seq<TimerId>) {
    && Fifo(c.start, t0, expired)
    && forall x, e {:trigger Bypassed(c, t0, x, e)} :: e in expired ==> !Bypassed(c, t0, x, e)
  }

  ghost predicate Bypassed(c: Chart, t0: map<TimerId, Timer>, x: TimerId, e: TimerId) {
    && x in c.home && c.home[x] == Flight && x in t0 && e in t0
    && TwinBefore(c.start, t0[x], t0[e])
  }

  /** The head of the bottom slot's list is the first of its twins that are left. */
  lemma NextInTurn(c: Chart, at: nat, t0: map<TimerId, Timer>, expired: seq<TimerId>)
    requires Shaped(c.levels) && Counted(c.levels, c.flight, c.home) && Orderly(c, at) && c.flight != []
    requires NoneBypassed(c, t0, expired) && c.home.Keys == c.timers.Keys
    requires forall x <- c.timers :: x in t0 && t0[x] == c.timers[x]
    ensures NoneBypassed(DropHead(c), t0, if c.flight[0] in c.timers then expired + [c.flight[0]] else expired)
  {
    var head, c' := c.flight[0], DropHead(c);
    var expired' := if head in c.timers then expired + [head] else expired;
    if head in c.home {
      InFlightHead(c);
      assert multiset(Bucket(c.levels, c.flight, Flight))[head] == 1;
    }
    forall x, e | e in expired' ensures !Bypassed(c', t0, x, e) {
      if e in expired {
        assert !Bypassed(c, t0, x, e);
      } else if x in c.home && x != head {
        assert InTurn(c, at, x, head);
        HeadIsFirst(c.flight, x);
      }
    }
    forall i, j | 0 <= i < j < |expired'| ensures !Overtakes(c.start, t0, expired', i, j) {
      if j < |expired| {
        assert !Overtakes(c.start, t0, expired, i, j);
      } else {
        assert expired'[i] in expired && expired'[j] == head;
        assert !Bypassed(c, t0, head, expired'[i]);
      }
    }
  }

  // ----- scanning for the next deadline -----

  ghost function RankOf(c: Chart, id: TimerId): nat
    requires id in c.home && id in c.timers && c.home[id].At? && c.home[id].level < NUM_LEVELS
  {
    Rank(c.home[id].level, DeadlineTick(c.timers[id], c.start), c.timers[id].due)
  }

  /** Between ticks, with nothing in flight: `id` is in level `l`. */
  ghost predicate InLevel(c: Chart, id: TimerId, l: nat) {
    id in c.home && id in c.timers && c.home[id].At? && c.home[id].level == l < NUM_LEVELS
  }

  /** How many slots after its level's cursor a timer is met in a scan. */
  ghost function StepsTo(c: Chart, l: nat, now: nat, x: TimerId): (k: nat)
    requires InLevel(c, x, l)
    ensures InWheel(c.home[x]) ==> k < Size(l) && Stepped(l, Cursor(l, now), k) == c.home[x].slot
  {
    var s, cur := c.home[x].slot, Cursor(l, now);
    if s >= cur then s - cur else s + Size(l) - cur
  }

  /** A live id is listed in a slot exactly when that slot is its home. */
  lemma ListedAtHome(c: Chart, now: nat, id: TimerId, l: nat, s: nat)
    requires Consistent(c, now, NUM_LEVELS, now) && id in c.timers && l < NUM_LEVELS && s < Size(l)
    ensures id in c.levels[l].slots[s] <==> c.home[id] == At(l, s)
  {
    assert multiset(Bucket(c.levels, c.flight, At(l, s)))[id] == if c.home[id] == At(l, s) then 1 else 0;
  }

  /** The slot `i` steps from the cursor lists exactly the live timers that are met there. */
  lemma ListedWhereMet(c: Chart, now: nat, l: nat, i: nat, x: TimerId)
    requires Consistent(c, now, NUM_LEVELS, now) && l < NUM_LEVELS && i < Size(l) && x in c.timers
    ensures x in c.levels[l].slots[Stepped(l, Cursor(l, now), i)] <==> InLevel(c, x, l) && StepsTo(c, l, now, x) == i
  {
    ListedAtHome(c, now, x, l, Stepped(l, Cursor(l, now), i));
  }

  /** In one slot: `who` is listed before `x`; above the bottom level, for an earlier or at least the same deadline. */
  ghost predicate Preferred(c: Chart, l: nat, who: TimerId, x: TimerId)
    requires who in c.timers && x in c.timers && Shaped(c.levels) && who in c.home && InWheel(c.home[who])
  {
    var d, e := c.timers[who].entry.deadline, c.timers[x].entry.deadline;
    || who == x
    || (l > 0 && d < e)
    || ((l > 0 ==> d == e) && Ahead(Bucket(c.levels, c.flight, c.home[who]), who, x))
  }

  /** `who` is met before `x`: in an earlier slot, or in the same slot and preferred there. */
  ghost predicate MetBefore(c: Chart, now: nat, l: nat, who: TimerId, x: TimerId)
    requires InLevel(c, who, l) && InLevel(c, x, l) && Shaped(c.levels) && InWheel(c.home[who])
  {
    && StepsTo(c, l, now, who) <= StepsTo(c, l, now, x)
    && (StepsTo(c, l, now, who) == StepsTo(c, l, now, x) ==> Preferred(c, l, who, x))
  }

  /** `who` is the first of level `l` in the order of the scan. */
  ghost predicate FirstMet(c: Chart, now: nat, l: nat, who: TimerId) {
    && InLevel(c, who, l) && Shaped(c.levels) && InWheel(c.home[who])
    && forall x {:trigger InLevel(c, x, l)} :: InLevel(c, x, l) ==> MetBefore(c, now, l, who, x)
  }

  /** Nobody on level `l` is met in the first `i` slots of the scan. */
  ghost predicate NoneBefore(c: Chart, now: nat, l: nat, i: nat) {
    forall x {:trigger InLevel(c, x, l)} :: InLevel(c, x, l) ==> StepsTo(c, l, now, x) >= i
  }

  ghost predicate NoneAt(c: Chart, now: nat, l: nat, i: nat) {
    forall x {:trigger InLevel(c, x, l)} :: InLevel(c, x, l) ==> StepsTo(c, l, now, x) != i
  }

  lemma NoneSoFar(c: Chart, now: nat, l: nat, i: nat)
    requires NoneBefore(c, now, l, i) && NoneAt(c, now, l, i)
    ensures NoneBefore(c, now, l, i + 1)
  {
  }

  /** `who` is met `i` steps from the cursor and is preferred to everybody else met there. */
  ghost predicate FirstInSlot(c: Chart, now: nat, l: nat, i: nat, who: TimerId) {
    && InLevel(c, who, l) && StepsTo(c, l, now, who) == i && Shaped(c.levels) && InWheel(c.home[who])
    && forall x {:trigger InLevel(c, x, l)} :: InLevel(c, x, l) && StepsTo(c, l, now, x) == i ==>
        Preferred(c, l, who, x)
  }

  lemma FirstInSlotIsFirst(c: Chart, now: nat, l: nat, i: nat, who: TimerId)
    requires NoneBefore(c, now, l, i) && FirstInSlot(c, now, l, i, who)
    ensures FirstMet(c, now, l, who)
  {
  }

  /** A full turn without a live timer: the level is empty. */
  lemma LevelEmpty(c: Chart, now: nat, l: nat)
    requires Consistent(c, now, NUM_LEVELS, now) && l < NUM_LEVELS && NoneBefore(c, now, l, Size(l))
    ensures forall x <- c.timers :: !InLevel(c, x, l)
  {
    forall x | x in c.timers ensures !InLevel(c, x, l) {
      if InLevel(c, x, l) {
        RankSteps(c, now, l, x);
      }
    }
  }

  /** `who` comes no later than `x`: by tick on the bottom level, by deadline above. */
  ghost predicate NoLater(c: Chart, l: nat, who: TimerId, x: TimerId)
    requires who in c.timers && x in c.timers
  {
    if l == 0 then c.timers[who].due <= c.timers[x].due
    else c.timers[who].entry.deadline <= c.timers[x].entry.deadline
  }

  /** A timer's rank is at least its place in the scan, and exactly that within one turn of the cursor. */
  lemma RankSteps(c: Chart, now: nat, l: nat, x: TimerId)
    requires Consistent(c, now, NUM_LEVELS, now) && InLevel(c, x, l)
    ensures StepsTo(c, l, now, x) < Size(l)
    ensures RankOf(c, x) >= FirstRank(l, now) + StepsTo(c, l, now, x)
    ensures l < 3 ==> RankOf(c, x) < FirstRank(l, now) + Size(l)
    ensures RankOf(c, x) < FirstRank(l, now) + Size(l) ==> RankOf(c, x) == FirstRank(l, now) + StepsTo(c, l, now, x)
  {
    var t := c.timers[x];
    assert InWheel(c.home[x]);
    assert InTime(c.lead, c.start, c.home[x], t, now, NUM_LEVELS, now);
    RankWindow(c.lead, l, c.home[x].slot, DeadlineTick(t, c.start), t.due, now);
    if RankOf(c, x) < FirstRank(l, now) + Size(l) {
      ScanSlot(l, FirstRank(l, now), RankOf(c, x), StepsTo(c, l, now, x));
    }
  }

  /**
   * The first of a scan is the earliest of its level if it lies within one turn of the cursor, or
   * in the last slot of the scan; below the top level it always lies within one turn.
   */
  lemma FirstIsEarliest(c: Chart, now: nat, l: nat, who: TimerId, x: TimerId)
    requires Consistent(c, now, NUM_LEVELS, now) && FirstMet(c, now, l, who) && InLevel(c, x, l)
    requires RankOf(c, who) < FirstRank(l, now) + Size(l) || StepsTo(c, l, now, who) == Size(l) - 1
    ensures NoLater(c, l, who, x)
  {
    RankSteps(c, now, l, who);
    RankSteps(c, now, l, x);
    assert MetBefore(c, now, l, who, x);
    if l > 0 && StepsTo(c, l, now, who) < StepsTo(c, l, now, x) {
      LowerRankIsEarlier(c, l, who, x);
    }
  }

  lemma LowerRankIsEarlier(c: Chart, l: nat, who: TimerId, x: TimerId)
    requires l > 0 && InLevel(c, who, l) && InLevel(c, x, l) && RankOf(c, who) < RankOf(c, x)
    ensures c.timers[who].entry.deadline < c.timers[x].entry.deadline
  {
    EarlierBlock(l, c.start, c.timers[who].entry.deadline, c.timers[x].entry.deadline);
  }

  /** What orders the timers of a level in time: the due tick at the bottom, the deadline tick above. */
  ghost function KeyTick(c: Chart, l: nat, x: TimerId): nat
    requires x in c.timers
  {
    if l == 0 then c.timers[x].due else DeadlineTick(c.timers[x], c.start)
  }

  /** `who` is what `next_deadline` reports: the first met on the lowest occupied level, `l`. */
  ghost predicate Reported(c: Chart, now: nat, l: nat, who: TimerId) {
    && FirstMet(c, now, l, who)
    && forall x <- c.timers :: x in c.home && c.home[x].At? && l <= c.home[x].level
  }

  /** On the top level: the deadline tick `d` is within one turn of the cursor, or in the last slot of the scan. */
  predicate TrustedOnTop(now: nat, d: nat) {
    d < NextVisit(3, now) + 67_108_864 || SlotOf(3, d) == Stepped(3, Cursor(3, now), 63)
  }

  /**
   * When an answer from level `l` can be trusted: it comes no later than the next visit of the level
   * above, or, on the top level, within one turn or in the last slot of the scan.
   */
  predicate Trusted(now: nat, l: nat, key: nat) {
    if l < 3 then key <= NextVisit(l + 1, now) else TrustedOnTop(now, key)
  }

  lemma TopWithinTurn(now: nat, d: nat)
    ensures d < NextVisit(3, now) + 67_108_864 <==> Block(3, d) < FirstRank(3, now) + 64
  {
  }

  /** A trusted answer is the earliest of its own level. */
  lemma EarliestOfLevel(c: Chart, now: nat, l: nat, who: TimerId, x: TimerId)
    requires Consistent(c, now, NUM_LEVELS, now) && FirstMet(c, now, l, who) && InLevel(c, x, l)
    requires l == 3 ==> TrustedOnTop(now, DeadlineTick(c.timers[who], c.start))
    ensures KeyTick(c, l, who) <= KeyTick(c, l, x)
  {
    RankSteps(c, now, l, who);
    if l == 3 {
      TopWithinTurn(now, DeadlineTick(c.timers[who], c.start));
      assert InTime(c.lead, c.start, c.home[who], c.timers[who], now, NUM_LEVELS, now);
    }
    FirstIsEarliest(c, now, l, who, x);
    if l > 0 {
      LaterDeadline(c.start, c.timers[who].entry.deadline, c.timers[x].entry.deadline);
    }
  }

  /** A trusted answer is the earliest of all: everything on higher levels comes at their next visit or later. */
  lemma EarliestOfAll(c: Chart, now: nat, l: nat, who: TimerId, x: TimerId)
    requires Consistent(c, now, NUM_LEVELS, now) && Reported(c, now, l, who) && x in c.timers
    requires Trusted(now, l, KeyTick(c, l, who))
    ensures KeyTick(c, l, who) <= KeyTick(c, l, x)
  {
    var p, t := c.home[x], c.timers[x];
    assert InTime(c.lead, c.start, p, t, now, NUM_LEVELS, now);
    if p.level == l {
      EarliestOfLevel(c, now, l, who, x);
    } else {
      BlockAfterVisit(l + 1, p.level, DeadlineTick(t, c.start), now);
      DueAfterBlock(c.lead, p.level, DeadlineTick(t, c.start));
    }
  }

  // ----- before the first tick -----

  /**
   * Before the first tick levels are ordered by deadline, so what is reported from below the top
   * level is the earliest of all; from the top level it is under the condition there.
   */
  lemma EarliestAtStart(c: Chart, l: nat, who: TimerId, x: TimerId)
    requires Consistent(c, 0, NUM_LEVELS, 0) && JustSet(c, 0)
    requires Reported(c, 0, l, who) && x in c.timers
    requires l == 3 ==> TrustedOnTop(0, DeadlineTick(c.timers[who], c.start))
    ensures DeadlineTick(c.timers[who], c.start) <= DeadlineTick(c.timers[x], c.start)
  {
    assert SetBy(c, 0, who) && SetBy(c, 0, x);
    if c.home[x].level == l {
      EarliestOfLevel(c, 0, l, who, x);
      assert InTime(c.lead, c.start, c.home[x], c.timers[x], 0, NUM_LEVELS, 0);
      assert InTime(c.lead, c.start, c.home[who], c.timers[who], 0, NUM_LEVELS, 0);
    }
  }
  /**
   * Of the timers set in the same tick for the same deadline tick, the one set first is reported,
   * unless on an upper level another's deadline within that tick is earlier.
   */
  lemma FirstSetIsReported(c: Chart, now: nat, l: nat, who: TimerId, x: TimerId)
    requires Consistent(c, now, NUM_LEVELS, now) && c.flight == [] && Orderly(c, now)
    requires Reported(c, now, l, who) && x in c.timers && TwinBefore(c.start, c.timers[x], c.timers[who])
    ensures l > 0 && c.timers[who].entry.deadline < c.timers[x].entry.deadline
  {
    NothingInFlight(c);
    assert InTurn(c, now, x, who);
    assert InLevel(c, x, l) && MetBefore(c, now, l, who, x);
    assert multiset(Bucket(c.levels, c.flight, c.home[who]))[who] == 1;
    assert multiset(Bucket(c.levels, c.flight, c.home[who]))[x] == 1;
    NotBoth(Bucket(c.levels, c.flight, c.home[who]), x, who);
  }

  lemma NotBoth(ids: seq<TimerId>, x: TimerId, y: TimerId)
    requires multiset(ids)[x] == 1 && multiset(ids)[y] == 1 && Ahead(ids, x, y)
    ensures !Ahead(ids, y, x)
  {
    if Ahead(ids, y, x) {
      var i, j :| 0 <= i < j < |ids| && ids[i] == x && ids[j] == y;
      var k, m :| 0 <= k < m < |ids| && ids[k] == y && ids[m] == x;
      OnlyOnce(ids, i, m);
      OnlyOnce(ids, k, j);
    }
  }

  lemma OnlyOnce(ids: seq<TimerId>, i: nat, j: nat)
    requires i < |ids| && j < |ids| && ids[i] == ids[j] && multiset(ids)[ids[i]] == 1
    ensures i == j
  {
    if i < j {
      CountedTwice(ids, i, j);
    } else if j < i {
      CountedTwice(ids, j, i);
    }
  }
}
