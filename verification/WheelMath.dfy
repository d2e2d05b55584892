/**
 * Tick arithmetic of the hierarchical wheel: which level and slot a deadline goes to, when a slot
 * is visited, and in which tick a timer expires. Bit masks and shifts of the source are written
 * as remainders and quotients.
 */
module WheelMath {

  const NUM_LEVELS: nat := 4
  /** `n` ticks in nanoseconds; a tick is one millisecond. */
  function Ns(n: int): int { n * 1_000_000 }

  /** Slots of a level: 256 at the bottom, 64 above. */
  function Size(l: nat): nat
    requires l < NUM_LEVELS
  {
    if l == 0 then 256 else 64
  }

  /** Ticks covered by one slot of level `l`; `kLevel1Threshold` .. `kLevel3Threshold` for l >= 1. */
  function Span(l: nat): nat
    requires l < NUM_LEVELS
  {
    if l == 0 then 1 else if l == 1 then 256 else if l == 2 then 16_384 else 1_048_576
  }

  /** `x / span`, rounded down, with literal divisors. */
  function Block(l: nat, x: nat): nat
    requires l < NUM_LEVELS
  {
    if l == 0 then x else if l == 1 then x / 256 else if l == 2 then x / 16_384 else x / 1_048_576
  }

  /** `x` modulo the size of level `l`, with literal divisors. */
  function Wrap(l: nat, x: nat): (s: nat)
    requires l < NUM_LEVELS
    ensures s < Size(l)
  {
    if l == 0 then x % 256 else x % 64
  }

  /** The slot of level `l` that the tick `x` belongs to. */
  function SlotOf(l: nat, x: nat): (s: nat)
    requires l < NUM_LEVELS
    ensures s < Size(l)
  {
    Wrap(l, Block(l, x))
  }

  /** The first tick of the block of level `l` that contains `x`. */
  function BlockStart(l: nat, x: nat): (b: nat)
    requires l < NUM_LEVELS
    ensures b <= x
  {
    if l == 0 then x
    else if l == 1 then x / 256 * 256
    else if l == 2 then x / 16_384 * 16_384
    else x / 1_048_576 * 1_048_576
  }

  /** Level `l` is visited while the tick `x` is being processed. */
  predicate Boundary(l: nat, x: nat)
    requires l < NUM_LEVELS
  {
    BlockStart(l, x) == x
  }

  /** `current_slot` of level `l` once every visit before tick `x` is done: ceil(x / span) mod size. */
  function Cursor(l: nat, x: nat): nat
    requires l < NUM_LEVELS
  {
    SlotOf(l, x + Span(l) - 1)
  }

  /** The slot after `s`, that is `(s + 1) % size`. */
  function Next(l: nat, s: nat): (n: nat)
    requires l < NUM_LEVELS && s < Size(l)
  {
    if s + 1 == Size(l) then 0 else s + 1
  }

  /** `duration_cast<milliseconds>(ns).count()` clamped at zero: truncation is toward zero. */
  function WholeTicks(ns: int): nat {
    var count := if ns >= 0 then ns / 1_000_000 else -((-ns) / 1_000_000);
    if count < 0 then 0 else count
  }

  function Distance(now: int, d: nat): nat {
    if d < now then 0 else d - now
  }

  function LevelFor(diff: nat): nat
    ensures LevelFor(diff) < NUM_LEVELS
  {
    if diff < 256 then 0 else if diff < 16_384 then 1 else if diff < 1_048_576 then 2 else 3
  }

  /**
   * The tick a far timer expires in. A cascade that runs `lead` ticks ahead of the slot it
   * redistributes drops the deadlines 256 past a level-2 boundary into the slot being processed.
   */
  function FarDue(lead: nat, d: nat): nat {
    if lead == 1 && d % 16_384 == 256 then d - 256 else d
  }

  /**
   * The exact tick `t` such that the step from wheel time `t` to `t + 1` expires a timer with
   * deadline tick `d` that is scheduled at wheel time `now`.
   */
  function DueTick(lead: nat, now: nat, d: nat): nat {
    if d < now then now + (d - now) % 256
    else if d - now >= 16_384 then FarDue(lead, d)
    else d
  }

  /**
   * A timer with deadline tick `d` that has to expire in tick `due` may sit in slot `s` of level
   * `l` when that level has done all visits before tick `c` and the wheel's time is `t`.
   */
  predicate PlacedAt(lead: nat, l: nat, s: nat, d: nat, due: nat, c: nat, t: nat)
    requires l < NUM_LEVELS
  {
    if l == 0 then s == SlotOf(0, due) && c <= due < c + 256
    else
      && s == SlotOf(l, d)
      && c <= BlockStart(l, d)
      && (l < 3 ==> d < t + Span(l + 1))
      && due == (if l == 1 then d else FarDue(lead, d))
  }

  // ----- time points -----

  /** Measuring from the wheel's own time gives the tick distance, whatever the fraction or the sign. */
  lemma DistanceInTicks(start: int, now: nat, deadline: int)
    ensures WholeTicks(deadline - (start + Ns(now))) == Distance(now, WholeTicks(deadline - start))
  {
  }

  // ----- placement -----

  /** Scheduling puts a timer where it can be found, for past, near and arbitrarily far deadlines. */
  lemma PlaceFresh(lead: nat, now: nat, d: nat)
    ensures
      var l := LevelFor(Distance(now, d));
      PlacedAt(lead, l, SlotOf(l, d), d, DueTick(lead, now, d), now, now)
  {
  }

  lemma BlockOfStart(l: nat, x: nat)
    requires l < NUM_LEVELS
    ensures Block(l, BlockStart(l, x)) == Block(l, x)
  {
  }

  /** A slot's content survives the passing of a tick unless the slot is the one visited. */
  lemma PassBy(lead: nat, l: nat, s: nat, d: nat, due: nat, b: nat, t: nat)
    requires l < NUM_LEVELS && PlacedAt(lead, l, s, d, due, b, t)
    requires !(Boundary(l, b) && s == SlotOf(l, b))
    ensures PlacedAt(lead, l, s, d, due, b + 1, t)
  {
    if l > 0 && BlockStart(l, d) == b {
      BlockOfStart(l, d);
    }
  }

  /** Two blocks in the same slot lie a whole number of turns apart. */
  lemma TurnsApart(x: nat, y: nat) returns (k: nat)
    requires y <= x && x % 64 == y % 64
    ensures x == y + 64 * k
  {
    k := x / 64 - y / 64;
  }

  /**
   * Redistribution: a timer taken out of the visited slot of level `l` at block start `b` is put
   * back where it belongs. Levels from `l` up have done the visit, lower levels have not.
   */
  lemma Redistribute(lead: nat, l: nat, d: nat, due: nat, b: nat)
    requires lead <= 1 && 1 <= l < NUM_LEVELS && Boundary(l, b)
    requires PlacedAt(lead, l, SlotOf(l, b), d, due, b, b + 1)
    ensures
      var l' := LevelFor(Distance(b + lead, d));
      PlacedAt(lead, l', SlotOf(l', d), d, due, if l' < l then b else b + 1, b + 1)
  {
    if l == 1 { FromLevel1(d, b); } else if l == 2 { FromLevel2(d, b); } else { FromLevel3(d, b); }
    Landing(lead, d, due, b, l);
  }

  lemma FromLevel1(d: nat, b: nat)
    requires b / 256 * 256 == b <= d / 256 * 256 && d / 256 % 64 == b / 256 % 64 && d < b + 1 + 16_384
    ensures b % 256 == 0 && (d - b < 256 || d == b + 16_384)
  {
    var k := TurnsApart(d / 256, b / 256);
    assert d / 256 * 256 == b + 16_384 * k;
  }

  lemma FromLevel2(d: nat, b: nat)
    requires b / 16_384 * 16_384 == b <= d / 16_384 * 16_384
    requires d / 16_384 % 64 == b / 16_384 % 64 && d < b + 1 + 1_048_576
    ensures b % 256 == 0 && (d - b) % 16_384 == d % 16_384 && (d - b < 16_384 || d == b + 1_048_576)
  {
    var k := TurnsApart(d / 16_384, b / 16_384);
    assert d / 16_384 * 16_384 == b + 1_048_576 * k;
    Remainder256(64 * (b / 16_384), 0);
    Multiple16384(b / 16_384);
    Remainders(d, b);
  }

  lemma FromLevel3(d: nat, b: nat)
    requires b / 1_048_576 * 1_048_576 == b <= d
    ensures b % 256 == 0 && (d - b) % 16_384 == d % 16_384
  {
    Remainder256(4096 * (b / 1_048_576), 0);
    Multiple16384(64 * (b / 1_048_576));
    Remainders(d, b);
  }

  lemma Multiple16384(q: nat)
    ensures (16_384 * q) % 16_384 == 0
  {
  }

  lemma Remainders(d: nat, b: nat)
    requires b % 16_384 == 0 && b <= d
    ensures (d - b) % 16_384 == d % 16_384
  {
  }

  lemma BlockAfter(d: nat, b: nat)
    requires b % 256 == 0 && d >= b + 256
    ensures BlockStart(1, d) >= b + 256
  {
    assert d / 256 >= b / 256 + 1;
  }

  /** Where a timer lands, by its distance from the block start `b` of the visited level. */
  lemma Landing(lead: nat, d: nat, due: nat, b: nat, l: nat)
    requires lead <= 1 && 1 <= l < NUM_LEVELS && b % 256 == 0 && b <= d
    requires l == 1 ==> due == d && (d - b < 256 || d == b + 16_384)
    requires l >= 2 ==> due == FarDue(lead, d) && (d - b) % 16_384 == d % 16_384
    requires l == 2 ==> d - b < 16_384 || d == b + 1_048_576
    ensures
      var l' := LevelFor(Distance(b + lead, d));
      PlacedAt(lead, l', SlotOf(l', d), d, due, if l' < l then b else b + 1, b + 1)
  {
    var l' := LevelFor(Distance(b + lead, d));
    var r := d - b;
    if l' == 0 {
      assert r <= 255 + lead;
      assert r == 256 ==> lead == 1 && d % 16_384 == 256;
      assert r < 256 ==> d % 16_384 == 256 ==> l == 1;
    } else if l' == 1 {
      assert 256 + lead <= r < 16_384 + lead;
      assert lead == 1 && l >= 2 ==> d % 16_384 != 256;
      BlockAfter(d, b);
    } else if l' == 2 {
      assert r >= 16_384;
      assert BlockStart(2, d) > b;
    } else {
      assert BlockStart(3, d) > b;
    }
  }

  /** The visited bottom slot holds exactly what is due now. */
  lemma DueNow(lead: nat, s: nat, d: nat, due: nat, b: nat, t: nat)
    requires PlacedAt(lead, 0, s, d, due, b, t)
    ensures s == SlotOf(0, b) <==> due == b
  {
  }

  /** Above the bottom, what is left after the visits of tick `b` is due later. */
  lemma DueLater(lead: nat, l: nat, s: nat, d: nat, due: nat, b: nat, t: nat)
    requires lead <= 1 && l < NUM_LEVELS && PlacedAt(lead, l, s, d, due, b, t)
    ensures due >= b
  {
  }

  // ----- cursors -----

  lemma CursorVisits(l: nat, b: nat)
    requires l < NUM_LEVELS
    ensures Boundary(l, b) ==> Cursor(l, b) == SlotOf(l, b) && Cursor(l, b + 1) == Next(l, Cursor(l, b))
    ensures !Boundary(l, b) ==> Cursor(l, b + 1) == Cursor(l, b)
  {
    CeilBlock(l, b);
    if Boundary(l, b) {
      Successor(l, Block(l, b));
    }
  }

  lemma BoundaryBelow(l: nat, b: nat)
    requires 1 <= l && l + 1 < NUM_LEVELS && Boundary(l + 1, b)
    ensures Boundary(l, b)
  {
    if l == 1 {
      Quotient256(64 * (b / 16_384));
    } else {
      Quotient16384(64 * (b / 1_048_576), 0);
    }
  }

  lemma CeilBlock(l: nat, b: nat)
    requires l < NUM_LEVELS
    ensures Block(l, b + Span(l)) == Block(l, b) + 1
    ensures Block(l, b + Span(l) - 1) == Block(l, b) + (if Boundary(l, b) then 0 else 1)
  {
    if l == 0 {} else if l == 1 {} else if l == 2 {} else {}
  }

  lemma Successor(l: nat, x: nat)
    requires l < NUM_LEVELS
    ensures Wrap(l, x + 1) == Next(l, Wrap(l, x))
  {
    if l == 0 {
      if x % 256 == 255 { Remainder256(x / 256 + 1, 0); } else { Remainder256(x / 256, x % 256 + 1); }
    } else {
      if x % 64 == 63 { Remainder64(x / 64 + 1, 0); } else { Remainder64(x / 64, x % 64 + 1); }
    }
  }

  lemma Remainder64(q: nat, r: nat)
    requires r < 64
    ensures (64 * q + r) % 64 == r
  {
  }

  lemma Remainder256(q: nat, r: nat)
    requires r < 256
    ensures (256 * q + r) % 256 == r
  {
  }

  lemma Quotient256(q: nat)
    ensures (256 * q) / 256 == q
  {
  }

  lemma Quotient16384(q: nat, r: nat)
    requires r < 16_384
    ensures (16_384 * q + r) / 16_384 == q
  {
  }

  lemma Quotient1048576(q: nat, r: nat)
    requires r < 1_048_576
    ensures (1_048_576 * q + r) / 1_048_576 == q
  {
  }

  lemma NextIsRemainder(s: nat, n: nat)
    requires s < n
    ensures (s + 1) % n == if s + 1 == n then 0 else s + 1
  {
  }

  /** A level's cursor is back at slot 0, at a visit, exactly when the next level is visited too. */
  lemma CursorWraps(l: nat, b: nat)
    requires l + 1 < NUM_LEVELS && Boundary(l, b)
    ensures SlotOf(l, b) == 0 <==> Boundary(l + 1, b)
  {
    var x := Block(l, b);
    if l == 1 {
      assert b == 16_384 * (x / 64) + 256 * (x % 64);
      Quotient16384(x / 64, 256 * (x % 64));
    } else if l == 2 {
      assert b == 1_048_576 * (x / 64) + 16_384 * (x % 64);
      Quotient1048576(x / 64, 16_384 * (x % 64));
    }
  }

  // ----- scan order -----

  /** Position of a timer in the order in which its level's slots come round. */
  function Rank(l: nat, d: nat, due: nat): nat
    requires l < NUM_LEVELS
  {
    if l == 0 then due else Block(l, d)
  }

  /** The position the cursor of level `l` stands at. */
  function FirstRank(l: nat, now: nat): nat
    requires l < NUM_LEVELS
  {
    Block(l, now + Span(l) - 1)
  }

  /** Every timer of a level lies within one turn of the cursor; on the top level only within the horizon. */
  lemma RankWindow(lead: nat, l: nat, s: nat, d: nat, due: nat, now: nat)
    requires l < NUM_LEVELS && PlacedAt(lead, l, s, d, due, now, now)
    ensures s == Wrap(l, Rank(l, d, due)) && FirstRank(l, now) <= Rank(l, d, due)
    ensures l < 3 || d < now + 67_108_864 ==> Rank(l, d, due) < FirstRank(l, now) + Size(l)
  {
    if l == 0 {
    } else if l == 1 {
      assert d / 256 * 256 >= now ==> d / 256 >= (now + 255) / 256;
      assert d < now + 16_384 ==> d / 256 < (now + 255) / 256 + 64;
    } else if l == 2 {
      assert d / 16_384 * 16_384 >= now ==> d / 16_384 >= (now + 16_383) / 16_384;
      assert d < now + 1_048_576 ==> d / 16_384 < (now + 16_383) / 16_384 + 64;
    } else {
      assert d / 1_048_576 * 1_048_576 >= now ==> d / 1_048_576 >= (now + 1_048_575) / 1_048_576;
      assert d < now + 67_108_864 ==> d / 1_048_576 < (now + 1_048_575) / 1_048_576 + 64;
    }
  }

  /** The slot `i` steps from the cursor holds exactly the timers of rank `first + i`. */
  lemma ScanSlot(l: nat, first: nat, rank: nat, i: nat)
    requires l < NUM_LEVELS && i < Size(l) && first <= rank < first + Size(l)
    ensures Stepped(l, Wrap(l, first), i) == Wrap(l, rank) <==> rank == first + i
  {
    if l == 0 {
      Wrap256(first, rank - first);
      Wrap256(first, i);
    } else {
      Wrap64(first, rank - first);
      Wrap64(first, i);
    }
  }

  /** `(s + i) % size`, for a slot and a step below the size. */
  function Stepped(l: nat, s: nat, i: nat): (r: nat)
    requires l < NUM_LEVELS && s < Size(l) && i < Size(l)
    ensures r < Size(l)
  {
    if s + i < Size(l) then s + i else s + i - Size(l)
  }

  lemma SteppedIsRemainder(l: nat, s: nat, i: nat)
    requires l < NUM_LEVELS && s < Size(l) && i < Size(l)
    ensures (s + i) % Size(l) == Stepped(l, s, i)
  {
    if l == 0 {
      if s + i < 256 { Remainder256(0, s + i); } else { Remainder256(1, s + i - 256); }
    } else {
      if s + i < 64 { Remainder64(0, s + i); } else { Remainder64(1, s + i - 64); }
    }
  }

  lemma Wrap256(x: nat, k: nat)
    requires k < 256
    ensures (x + k) % 256 == if x % 256 + k < 256 then x % 256 + k else x % 256 + k - 256
  {
    var q, r := x / 256, x % 256;
    if r + k < 256 { Remainder256(q, r + k); } else { Remainder256(q + 1, r + k - 256); }
  }

  lemma Wrap64(x: nat, k: nat)
    requires k < 64
    ensures (x + k) % 64 == if x % 64 + k < 64 then x % 64 + k else x % 64 + k - 64
  {
    var q, r := x / 64, x % 64;
    if r + k < 64 { Remainder64(q, r + k); } else { Remainder64(q + 1, r + k - 64); }
  }

  /** A deadline in an earlier block is an earlier deadline. */
  lemma EarlierBlock(l: nat, start: int, a: int, b: int)
    requires 1 <= l < NUM_LEVELS && Block(l, WholeTicks(a - start)) < Block(l, WholeTicks(b - start))
    ensures a < b
  {
  }

  /** The next tick, from `now` on, at which level `l` is visited. */
  function NextVisit(l: nat, now: nat): nat
    requires l < NUM_LEVELS
  {
    BlockStart(l, now + Span(l) - 1)
  }

  /** A block of level `m` that begins at `now` or later begins at a visit of every level below, or after it. */
  lemma BlockAfterVisit(l: nat, m: nat, d: nat, now: nat)
    requires 1 <= l <= m < NUM_LEVELS && now <= BlockStart(m, d)
    ensures NextVisit(l, now) <= BlockStart(m, d)
  {
    var b := BlockStart(m, d);
    var x := Block(m, d);
    if l == 1 {
      Quotient256(if m == 1 then x else if m == 2 then 64 * x else 4096 * x);
      assert b / 256 >= (now + 255) / 256;
    } else if l == 2 {
      Quotient16384(if m == 2 then x else 64 * x, 0);
      assert b / 16_384 >= (now + 16_383) / 16_384;
    } else {
      assert b / 1_048_576 >= (now + 1_048_575) / 1_048_576;
    }
  }

  /** A timer expires no earlier than its block on any level above the bottom begins. */
  lemma DueAfterBlock(lead: nat, l: nat, d: nat)
    requires lead <= 1 && 1 <= l < NUM_LEVELS
    ensures BlockStart(l, d) <= if l == 1 then d else FarDue(lead, d)
  {
    if l == 3 && d % 16_384 == 256 {
      var q := d / 1_048_576;
      assert d - 1_048_576 * q == 16_384 * (d / 16_384 - 64 * q) + 256;
    }
  }

  lemma LaterDeadline(start: int, a: int, b: int)
    requires a <= b
    ensures WholeTicks(a - start) <= WholeTicks(b - start)
  {
  }

  /** The visit that `NextVisit` names: a boundary at most a span ahead. */
  lemma VisitBounds(l: nat, t: nat)
    requires 1 <= l < NUM_LEVELS && t > 0
    ensures
      var v := NextVisit(l, t);
      Span(l) <= v && v - Span(l) < t <= v && Boundary(l, v)
  {
    BlockOfStart(l, t + Span(l) - 1);
    if l == 1 {} else if l == 2 {} else {}
  }

  /** A deadline at a visit, set a span before it, goes to that level and is on time. */
  lemma VisitAhead(lead: nat, l: nat, v: nat)
    requires 1 <= l < NUM_LEVELS && Boundary(l, v) && Span(l) <= v
    ensures LevelFor(Distance(v - Span(l), v)) == l
    ensures DueTick(lead, v - Span(l), v) == v
  {
    if l == 3 {
      Multiple16384(64 * (v / 1_048_576));
    } else if l == 2 {
      Multiple16384(v / 16_384);
    }
  }

  /** A slot is not visited again until a whole turn has passed. */
  lemma NotVisitedBefore(l: nat, v: nat, b: nat)
    requires 1 <= l < NUM_LEVELS && Boundary(l, v) && v - Span(l) <= b < v && Boundary(l, b)
    ensures SlotOf(l, b) != SlotOf(l, v)
  {
    assert Block(l, v) == Block(l, b) + 1;
    Successor(l, Block(l, b));
  }
}
