/**
 * What the timer wheel is for, without levels, slots or cascades: a table from timer ids to
 * deadlines, and the histories of schedule, cancel and tick over it. Class `TimerWheel.Wheel`
 * refines this table; the theorems here hold of every history.
 */
module TimerSpec {
  import opened Prelude
  import opened WheelMath
  import opened Firing

  /** A timer id by its two bit fields; `TimerSlotMap.Pack` is the 64-bit number made of them. */
  datatype TimerId = TimerId(index: nat, generation: nat)

  datatype TimerEntry = TimerEntry(id: TimerId, deadline: int, waiter: Waiter)

  /** A live timer: its entry, the tick that will expire it, the tick it was set in, and how many were set before. */
  datatype Timer = Timer(entry: TimerEntry, due: nat, at: nat, nth: nat)

  /** `lead` is 1 for the wheel as written and 0 for a wheel whose cascade measures from the visited tick. */
  datatype Table = Table(lead: nat, start: int, now: nat, timers: map<TimerId, Timer>, issued: set<TimerId>)

  datatype Event =
    | Schedule(entry: TimerEntry)
    | Cancel(id: TimerId, found: bool)
    | Tick(expired: seq<TimerId>)

  /** The tick that has to expire a timer for `deadline` that is scheduled in state `s`. */
  function DueOf(s: Table, deadline: int): nat {
    DueTick(s.lead, s.now, WholeTicks(deadline - s.start))
  }

  function NewTimer(s: Table, entry: TimerEntry): Timer {
    Timer(entry, DueOf(s, entry.deadline), s.now, |s.issued|)
  }

  /** Set in the same tick for the same deadline tick, `a` before `b`. */
  predicate TwinBefore(start: int, a: Timer, b: Timer) {
    a.at == b.at && a.nth < b.nth && WholeTicks(a.entry.deadline - start) == WholeTicks(b.entry.deadline - start)
  }

  ghost predicate Overtakes(start: int, t: map<TimerId, Timer>, ids: seq<TimerId>, i: nat, j: nat)
    requires i < j < |ids|
  {
    && ids[i] in t && ids[j] in t && t[ids[i]].due == t[ids[j]].due
    && TwinBefore(start, t[ids[j]], t[ids[i]])
  }

  /** First set, first out: nobody on the list overtakes a timer set earlier in the same tick for the same tick. */
  ghost predicate Fifo(start: int, t: map<TimerId, Timer>, ids: seq<TimerId>) {
    forall i, j {:trigger Overtakes(start, t, ids, i, j)} :: 0 <= i < j < |ids| ==> !Overtakes(start, t, ids, i, j)
  }

  ghost predicate Initial(s: Table) {
    s.lead <= 1 && s.now == 0 && s.timers == map[] && s.issued == {}
  }

  ghost predicate ExpiresNow(s: Table, expired: seq<TimerId>) {
    && NoDuplicates(expired)
    && forall id :: id in expired <==> id in s.timers && s.timers[id].due == s.now
  }

  ghost predicate Step(s: Table, e: Event, s': Table) {
    match e
    case Schedule(entry) =>
      && entry.id !in s.issued && entry.id.generation > 0
      && s' == s.(timers := s.timers[entry.id := NewTimer(s, entry)], issued := s.issued + {entry.id})
    case Cancel(id, found) =>
      && found == (id in s.timers)
      && s' == s.(timers := s.timers - {id})
    case Tick(expired) =>
      && ExpiresNow(s, expired) && Fifo(s.start, s.timers, expired)
      && s' == s.(now := s.now + 1, timers := map id | id in s.timers && s.timers[id].due != s.now :: s.timers[id])
  }

  // ----- one tick -----

  /** Part of tick `b`: `expired` lists, in order, what has left table `t0` so far; `t` is what remains. */
  ghost predicate Leaving(t0: map<TimerId, Timer>, t: map<TimerId, Timer>, expired: seq<TimerId>, b: nat) {
    && NoDuplicates(expired)
    && forall id {:trigger Accounted(t0, t, expired, b, id)} :: Accounted(t0, t, expired, b, id)
  }

  ghost predicate Accounted(
    t0: map<TimerId, Timer>, t: map<TimerId, Timer>, expired: seq<TimerId>, b: nat, id: TimerId)
  {
    && (id in expired ==> id in t0 && t0[id].due == b && id !in t)
    && (id in t0 ==> id in t || id in expired)
    && (id in t ==> id in t0 && t[id] == t0[id])
  }

  lemma LeftAsTheyWere(t0: map<TimerId, Timer>, t: map<TimerId, Timer>, expired: seq<TimerId>, b: nat)
    requires Leaving(t0, t, expired, b)
    ensures forall id <- t :: id in t0 && t0[id] == t[id]
  {
    forall id | id in t ensures id in t0 && t0[id] == t[id] {
      assert Accounted(t0, t, expired, b, id);
    }
  }

  ghost predicate StatesIn(t: map<TimerId, Timer>, mem: Memory) {
    forall id {:trigger Allocated(t[id].entry.waiter, mem)} :: id in t ==> Allocated(t[id].entry.waiter, mem)
  }

  /** The ids listed are in the table, and `es` are the coroutines parked on them. */
  ghost predicate Lists(t: map<TimerId, Timer>, ids: seq<TimerId>, es: seq<Waiter>) {
    && |es| == |ids|
    && forall i {:trigger es[i]} {:trigger ids[i]} :: 0 <= i < |ids| ==> ids[i] in t && es[i] == t[ids[i]].entry.waiter
  }

  lemma LeaveOne(t0: map<TimerId, Timer>, t: map<TimerId, Timer>, expired: seq<TimerId>, b: nat, id: TimerId)
    requires Leaving(t0, t, expired, b) && id in t && t[id].due == b
    ensures Leaving(t0, t - {id}, expired + [id], b)
  {
    var expired' := expired + [id];
    assert Accounted(t0, t, expired, b, id);
    forall x ensures Count(expired', x) <= 1 {
      assert Count(expired, x) <= 1;
    }
    forall x ensures Accounted(t0, t - {id}, expired', b, x) {
      assert Accounted(t0, t, expired, b, x);
      assert x in expired' <==> x in expired || x == id;
    }
  }

  /** Firing the timers `expired` of table `t0`, in order, leads to wait states `mem'` and wakes `woken`. */
  ghost predicate Fires(
    t0: map<TimerId, Timer>, expired: seq<TimerId>, es: seq<Waiter>, mem: Memory, done: set<Handle>,
    mem': Memory, woken: seq<Handle>)
  {
    Lists(t0, expired, es) && AllAllocated(es, mem) && FireAll(es, mem, done) == (mem', woken)
  }

  /** How far a run of ticks has come: what it began with, who has left and who was woken. */
  datatype Progress = Progress(
    t0: map<TimerId, Timer>, mem0: Memory, ready0: seq<Handle>,
    expired: seq<TimerId>, waiters: seq<Waiter>, woken: seq<Handle>)

  /** What a wheel in the middle of a run of ticks has reached. */
  datatype Outcome = Outcome(timers: map<TimerId, Timer>, mem: Memory, ready: seq<Handle>)

  function Begin(o: Outcome): Progress {
    Progress(o.timers, o.mem, o.ready, [], [], [])
  }

  predicate SameRun(g: Progress, g': Progress) {
    g'.t0 == g.t0 && g'.mem0 == g.mem0 && g'.ready0 == g.ready0
  }

  /** The wait states and the ready list are what firing the expired timers in order makes of them. */
  ghost predicate FiredTo(g: Progress, done: set<Handle>, o: Outcome) {
    && StatesIn(g.t0, g.mem0)
    && Fires(g.t0, g.expired, g.waiters, g.mem0, done, o.mem, g.woken)
    && o.ready == g.ready0 + g.woken
  }

  /** Tick `b` is under way and has reached `o`. */
  ghost predicate Reached(g: Progress, b: nat, done: set<Handle>, o: Outcome) {
    FiredTo(g, done, o) && Leaving(g.t0, o.timers, g.expired, b)
  }

  lemma ReachedFirst(b: nat, done: set<Handle>, o: Outcome)
    requires StatesIn(o.timers, o.mem)
    ensures Reached(Begin(o), b, done, o)
  {
  }

  ghost function Advance(g: Progress, id: TimerId, e: Waiter, woken: seq<Handle>): Progress {
    g.(expired := g.expired + [id], waiters := g.waiters + [e], woken := g.woken + woken)
  }

  /** A stale id changes nothing. */
  lemma ReachedSkip(g: Progress, b: nat, done: set<Handle>, o: Outcome, id: TimerId)
    requires Reached(g, b, done, o) && id !in o.timers
    ensures Reached(g, b, done, Outcome(o.timers - {id}, o.mem, o.ready + []))
  {
    assert o.timers - {id} == o.timers && o.ready + [] == o.ready;
  }

  lemma ReachedNext(g: Progress, b: nat, done: set<Handle>, o: Outcome, id: TimerId)
    requires Reached(g, b, done, o) && id in o.timers && o.timers[id].due == b
    ensures Allocated(o.timers[id].entry.waiter, o.mem)
    ensures
      var r := FireOne(o.timers[id].entry.waiter, o.mem, done);
      Reached(Advance(g, id, o.timers[id].entry.waiter, r.1), b, done, Outcome(o.timers - {id}, r.0, o.ready + r.1))
  {
    var t := o.timers;
    assert Accounted(g.t0, t, g.expired, b, id);
    assert Allocated(g.t0[id].entry.waiter, g.mem0);
    LeaveOne(g.t0, t, g.expired, b, id);
    FireSnoc(g.waiters, t[id].entry.waiter, g.mem0, done);
    var r := FireOne(t[id].entry.waiter, o.mem, done);
    assert g.ready0 + g.woken + r.1 == g.ready0 + (g.woken + r.1);
  }

  /** When only later timers remain, exactly the timers due at `s.now` have left. */
  lemma AllLeft(s: Table, t: map<TimerId, Timer>, expired: seq<TimerId>)
    requires Leaving(s.timers, t, expired, s.now) && Fifo(s.start, s.timers, expired)
    requires forall id <- t :: t[id].due > s.now
    ensures Step(s, Event.Tick(expired), s.(now := s.now + 1, timers := t))
  {
    forall id ensures id in expired <==> id in s.timers && s.timers[id].due == s.now {
      assert Accounted(s.timers, t, expired, s.now, id);
    }
    var rest := map id | id in s.timers && s.timers[id].due != s.now :: s.timers[id];
    forall id ensures id in t <==> id in rest && (id in t ==> t[id] == rest[id]) {
      assert Accounted(s.timers, t, expired, s.now, id);
    }
    assert t == rest;
  }

  /** Several ticks: `expired` lists, in order of due tick, exactly what was due before `b`; the rest of `t0` is `t`. */
  ghost predicate Swept(t0: map<TimerId, Timer>, t: map<TimerId, Timer>, expired: seq<TimerId>, b: nat) {
    && NoDuplicates(expired)
    && (forall id {:trigger SweptOne(t0, t, expired, b, id)} :: SweptOne(t0, t, expired, b, id))
    && (forall i, j {:trigger InOrder(t0, expired, i, j)} :: 0 <= i < j < |expired| ==> InOrder(t0, expired, i, j))
  }

  ghost predicate InOrder(t0: map<TimerId, Timer>, ids: seq<TimerId>, i: nat, j: nat)
    requires i < j < |ids|
  {
    ids[i] in t0 && ids[j] in t0 && t0[ids[i]].due <= t0[ids[j]].due
  }

  ghost predicate SweptOne(
    t0: map<TimerId, Timer>, t: map<TimerId, Timer>, expired: seq<TimerId>, b: nat, id: TimerId)
  {
    && (id in expired <==> id in t0 && t0[id].due < b)
    && (id in t <==> id in t0 && t0[id].due >= b)
    && (id in t ==> t[id] == t0[id])
  }

  lemma SweepTick(t0: map<TimerId, Timer>, s: Table, expired: seq<TimerId>, s': Table, more: seq<TimerId>)
    requires Swept(t0, s.timers, expired, s.now) && Step(s, Event.Tick(more), s')
    ensures Swept(t0, s'.timers, expired + more, s'.now)
  {
    var all := expired + more;
    forall id ensures SweptOne(t0, s'.timers, all, s'.now, id) {
      assert SweptOne(t0, s.timers, expired, s.now, id);
      assert id in all <==> id in expired || id in more;
    }
    forall x ensures Count(all, x) <= 1 {
      assert SweptOne(t0, s.timers, expired, s.now, x);
      assert Count(expired, x) <= 1 && Count(more, x) <= 1;
    }
    forall i, j | 0 <= i < j < |all| ensures InOrder(t0, all, i, j) {
      assert j < |expired| ==> InOrder(t0, expired, i, j);
      assert SweptOne(t0, s.timers, expired, s.now, all[i]) && SweptOne(t0, s.timers, expired, s.now, all[j]);
      assert i < |expired| ==> all[i] in expired;
      assert j >= |expired| ==> all[j] in more;
    }
  }

  /** The expiries of one more tick overtake none of those before. */
  lemma FifoAppend(t0: map<TimerId, Timer>, s: Table, expired: seq<TimerId>, s': Table, more: seq<TimerId>)
    requires Swept(t0, s.timers, expired, s.now) && Step(s, Event.Tick(more), s') && Fifo(s.start, t0, expired)
    ensures Fifo(s.start, t0, expired + more)
  {
    var all := expired + more;
    forall i, j | 0 <= i < j < |all| ensures !Overtakes(s.start, t0, all, i, j) {
      assert SweptOne(t0, s.timers, expired, s.now, all[i]) && SweptOne(t0, s.timers, expired, s.now, all[j]);
      if j < |expired| {
        assert !Overtakes(s.start, t0, expired, i, j);
      } else if i >= |expired| {
        assert !Overtakes(s.start, s.timers, more, i - |expired|, j - |expired|);
        assert all[i] in more && all[j] in more;
      } else {
        assert all[i] in expired && all[j] in more;
      }
    }
  }

  /** A run of ticks has come to tick `b` and has reached `o`. */
  ghost predicate SweptTo(g: Progress, b: nat, done: set<Handle>, o: Outcome) {
    FiredTo(g, done, o) && Swept(g.t0, o.timers, g.expired, b)
  }

  lemma SweptFirst(b: nat, done: set<Handle>, o: Outcome)
    requires StatesIn(o.timers, o.mem) && forall id <- o.timers :: o.timers[id].due >= b
    ensures SweptTo(Begin(o), b, done, o)
  {
  }

  lemma SweptStates(g: Progress, b: nat, done: set<Handle>, o: Outcome)
    requires SweptTo(g, b, done, o)
    ensures StatesIn(o.timers, o.mem)
  {
    forall id | id in o.timers ensures Allocated(o.timers[id].entry.waiter, o.mem) {
      assert SweptOne(g.t0, o.timers, g.expired, b, id);
      assert Allocated(g.t0[id].entry.waiter, g.mem0);
    }
  }

  ghost function Extend(g: Progress, more: Progress): Progress {
    g.(expired := g.expired + more.expired, waiters := g.waiters + more.waiters, woken := g.woken + more.woken)
  }

  /** Two batches of firing, the second on what the first left, are one. */
  lemma FiredAppend(g: Progress, done: set<Handle>, o: Outcome, more: Progress, o': Outcome)
    requires FiredTo(g, done, o) && FiredTo(more, done, o') && more.mem0 == o.mem && more.ready0 == o.ready
    requires forall i {:trigger more.expired[i]} :: 0 <= i < |more.expired| ==>
               && more.expired[i] in g.t0 && more.expired[i] in more.t0
               && g.t0[more.expired[i]] == more.t0[more.expired[i]]
    ensures FiredTo(Extend(g, more), done, o')
  {
    FireAllAppend(g.waiters, more.waiters, g.mem0, done);
    assert g.ready0 + g.woken + more.woken == g.ready0 + (g.woken + more.woken);
  }

  /** One more tick: its expiries are appended to those before it. */
  lemma SweptNext(g: Progress, done: set<Handle>, s: Table, o: Outcome, s': Table, o': Outcome, more: Progress)
    requires SweptTo(g, s.now, done, o) && s.timers == o.timers && s'.timers == o'.timers
    requires more.t0 == o.timers && more.mem0 == o.mem && more.ready0 == o.ready
    requires Step(s, Event.Tick(more.expired), s') && FiredTo(more, done, o')
    ensures SweptTo(Extend(g, more), s'.now, done, o')
  {
    SweepTick(g.t0, s, g.expired, s', more.expired);
    forall i | 0 <= i < |more.expired|
      ensures more.expired[i] in g.t0 && more.expired[i] in more.t0 && g.t0[more.expired[i]] == more.t0[more.expired[i]]
    {
      assert more.expired[i] in more.expired;
      assert SweptOne(g.t0, s.timers, g.expired, s.now, more.expired[i]);
    }
    FiredAppend(g, done, o, more, o');
  }

  // ----- histories -----

  datatype History = History(states: seq<Table>, events: seq<Event>)

  ghost predicate IsHistory(h: History) {
    && |h.states| == |h.events| + 1
    && Initial(h.states[0])
    && forall i {:trigger StepAt(h, i)} :: 0 <= i < |h.events| ==> StepAt(h, i)
  }

  ghost predicate StepAt(h: History, i: nat)
    requires i < |h.events| && i + 1 < |h.states|
  {
    Step(h.states[i], h.events[i], h.states[i + 1])
  }

  function LastState(h: History): Table
    requires h.states != []
  {
    h.states[|h.states| - 1]
  }

  /** `h` with one more event, after which the table is `s`. */
  function Recorded(h: History, e: Event, s: Table): History {
    History(h.states + [s], h.events + [e])
  }

  lemma RecordedIsHistory(h: History, e: Event, s: Table)
    requires IsHistory(h) && Step(LastState(h), e, s)
    ensures IsHistory(Recorded(h, e, s)) && LastState(Recorded(h, e, s)) == s
  {
    var h' := Recorded(h, e, s);
    forall i | 0 <= i < |h'.events| ensures StepAt(h', i) {
      assert i < |h.events| ==> StepAt(h, i);
    }
  }

  /** `h'` is `h` followed by ticks. */
  ghost predicate OnlyTicksSince(h: History, h': History) {
    && h.states <= h'.states && h.events <= h'.events
    && forall i :: |h.events| <= i < |h'.events| ==> h'.events[i].Tick?
  }

  /** What every reachable table satisfies: nothing live is overdue. */
  ghost predicate Sound(s: Table) {
    && s.lead <= 1
    && (forall id <- s.issued :: id.generation > 0)
    && forall id <- s.timers :: id in s.issued && s.timers[id].entry.id == id && s.timers[id].due >= s.now
  }

  lemma {:induction false} HistorySound(h: History, k: nat)
    requires IsHistory(h) && k < |h.states|
    ensures Sound(h.states[k]) && h.states[k].lead == h.states[0].lead && h.states[k].start == h.states[0].start
  {
    if k > 0 {
      HistorySound(h, k - 1);
      assert StepAt(h, k - 1);
    }
  }

  /** A successful cancel of `id` strictly between events `i` and `k`. */
  ghost predicate CancelledBetween(h: History, id: TimerId, i: int, k: int) {
    exists j :: i < j < k && 0 <= j < |h.events| && h.events[j] == Cancel(id, true)
  }

  lemma {:induction false} IssuedGrows(h: History, j: nat, k: nat)
    requires IsHistory(h) && j <= k < |h.states|
    ensures h.states[j].issued <= h.states[k].issued
  {
    if j < k {
      IssuedGrows(h, j, k - 1);
      assert StepAt(h, k - 1);
    }
  }

  /** A timer scheduled by event `i` is live exactly until it is cancelled or its tick has passed. */
  lemma {:induction false} LiveUntilDue(h: History, i: nat, k: nat, entry: TimerEntry)
    requires IsHistory(h) && i < k < |h.states| && h.events[i] == Schedule(entry)
    ensures entry.id in h.states[k].issued
    ensures entry.id in h.states[k].timers <==>
              !CancelledBetween(h, entry.id, i, k) && h.states[k].now <= DueOf(h.states[i], entry.deadline)
    ensures entry.id in h.states[k].timers ==>
              h.states[k].timers[entry.id] == NewTimer(h.states[i], entry)
  {
    var id := entry.id;
    assert StepAt(h, k - 1);
    HistorySound(h, k - 1);
    if i + 1 == k {
      HistorySound(h, k);
    } else {
      LiveUntilDue(h, i, k - 1, entry);
      assert CancelledBetween(h, id, i, k) <==>
               CancelledBetween(h, id, i, k - 1) || h.events[k - 1] == Cancel(id, true);
    }
  }

  /**
   * Exact firing: event `k` expires the timer scheduled by event `i` if and only if it is the later
   * tick that moves the wheel off the timer's due tick and no cancel came in between. The due tick
   * is a function of the deadline and of the wheel time at the schedule alone.
   */
  lemma ExactFiring(h: History, i: nat, k: nat, entry: TimerEntry, expired: seq<TimerId>)
    requires IsHistory(h) && i < |h.events| && k < |h.events|
    requires h.events[i] == Schedule(entry) && h.events[k] == Tick(expired)
    ensures entry.id in expired <==>
              i < k && h.states[k].now == DueOf(h.states[i], entry.deadline) && !CancelledBetween(h, entry.id, i, k)
  {
    assert StepAt(h, k);
    if i < k {
      LiveUntilDue(h, i, k, entry);
    } else {
      assert StepAt(h, i);
      IssuedGrows(h, k, i);
      HistorySound(h, k);
    }
  }

  /**
   * First set, first fired: of two timers set in the same tick for the same deadline tick, a tick
   * that expires both fires the one set first before the other.
   */
  lemma FifoFiring(
    h: History, i: nat, j: nat, k: nat, a: TimerEntry, b: TimerEntry, expired: seq<TimerId>, m: nat, n: nat)
    requires IsHistory(h) && i < j < |h.events| && k < |h.events|
    requires h.events[i] == Schedule(a) && h.events[j] == Schedule(b) && h.events[k] == Tick(expired)
    requires h.states[i].now == h.states[j].now
    requires WholeTicks(a.deadline - h.states[0].start) == WholeTicks(b.deadline - h.states[0].start)
    requires m < |expired| && n < |expired| && expired[m] == a.id && expired[n] == b.id
    ensures m < n
  {
    assert StepAt(h, k);
    assert expired[m] in expired && expired[n] in expired;
    ExactFiring(h, i, k, a, expired);
    ExactFiring(h, j, k, b, expired);
    LiveUntilDue(h, i, k, a);
    LiveUntilDue(h, j, k, b);
    HistorySound(h, k);
    SetLater(h, i, j, a);
    IdsAreForOnce(h, i, j, a.id);
    assert n < m ==> !Overtakes(h.states[k].start, h.states[k].timers, expired, n, m);
  }

  lemma SetLater(h: History, i: nat, j: nat, a: TimerEntry)
    requires IsHistory(h) && i < j < |h.events| && h.events[i] == Schedule(a)
    ensures |h.states[i].issued| < |h.states[j].issued|
  {
    assert StepAt(h, i);
    IssuedGrows(h, i + 1, j);
    SmallerSet(h.states[i].issued + {a.id}, h.states[j].issued);
  }

  lemma SmallerSet(a: set<TimerId>, b: set<TimerId>)
    requires a <= b
    ensures |a| <= |b|
  {
    assert b == a + (b - a);
  }

  /** A timer scheduled for a deadline that has not passed is never overdue while it is live. */
  lemma LiveDeadlineAhead(h: History, i: nat, k: nat, entry: TimerEntry)
    requires IsHistory(h) && i < k < |h.states| && h.events[i] == Schedule(entry) && entry.id in h.states[k].timers
    requires entry.deadline >= h.states[i].start + Ns(h.states[i].now)
    ensures entry.deadline >= h.states[k].start + Ns(h.states[k].now)
  {
    LiveUntilDue(h, i, k, entry);
    HistorySound(h, i);
    HistorySound(h, k);
    var d := WholeTicks(entry.deadline - h.states[i].start);
    OnTimeOrEarly(h.states[i].lead, h.states[i].now, d);
  }

  lemma OnTimeOrEarly(lead: nat, now: nat, d: nat)
    requires lead <= 1 && now <= d
    ensures now <= DueTick(lead, now, d) <= d
  {
  }

  /** The wheel as written is on time exactly outside two families, and is never late for a deadline ahead of it. */
  lemma OnTime(now: nat, d: nat)
    ensures DueTick(1, now, d) == d <==> now <= d && !(d - now >= 16_384 && d % 16_384 == 256)
    ensures now <= d && d - now >= 16_384 && d % 16_384 == 256 ==> DueTick(1, now, d) == d - 256
    ensures d < now ==> now <= DueTick(1, now, d) < now + 256 && (DueTick(1, now, d) - d) % 256 == 0
    ensures now <= DueTick(1, now, d)
  {
    if d < now {
      var x := (d - now) % 256;
      var q := (d - now) / 256;
      assert now + x - d == 256 * (-q);
      assert (256 * (-q)) % 256 == 0;
    }
  }

  /** With a cascade that measures from the tick being processed, the early family disappears. */
  lemma OnTimeRepaired(now: nat, d: nat)
    ensures DueTick(0, now, d) == d <==> now <= d
  {
    if d < now {
      assert DueTick(0, now, d) >= now;
    }
  }

  /** An event that takes `id` out of the table. */
  ghost predicate Ends(e: Event, id: TimerId) {
    e == Cancel(id, true) || (e.Tick? && id in e.expired)
  }

  lemma {:induction false} EndedStaysEnded(h: History, id: TimerId, j: nat, k: nat)
    requires IsHistory(h) && j <= k < |h.states|
    requires id in h.states[j].issued && id !in h.states[j].timers
    ensures id in h.states[k].issued && id !in h.states[k].timers
  {
    if j < k {
      EndedStaysEnded(h, id, j, k - 1);
      assert StepAt(h, k - 1);
    }
  }

  /** No id is issued twice, and each id sees at most one successful cancel or expiry. */
  lemma IdsAreForOnce(h: History, i: nat, j: nat, id: TimerId)
    requires IsHistory(h) && i < j < |h.events|
    ensures h.events[i].Schedule? && h.events[j].Schedule? ==> h.events[i].entry.id != h.events[j].entry.id
    ensures !(Ends(h.events[i], id) && Ends(h.events[j], id))
  {
    assert StepAt(h, i);
    assert StepAt(h, j);
    HistorySound(h, i);
    IssuedGrows(h, i + 1, j);
    if Ends(h.events[i], id) {
      EndedStaysEnded(h, id, i + 1, j);
    }
  }

  /** Conservation: a scheduled timer is live or has ended, never both and never neither. */
  lemma {:induction false} LiveOrEnded(h: History, i: nat, k: nat, entry: TimerEntry)
    requires IsHistory(h) && i < k < |h.states| && h.events[i] == Schedule(entry)
    ensures entry.id !in h.states[k].timers <==> exists j :: i < j < k && Ends(h.events[j], entry.id)
  {
    var id := entry.id;
    assert StepAt(h, k - 1);
    LiveUntilDue(h, i, k, entry);
    if i + 1 < k {
      LiveOrEnded(h, i, k - 1, entry);
      LiveUntilDue(h, i, k - 1, entry);
      if id !in h.states[k - 1].timers {
        var j :| i < j < k - 1 && Ends(h.events[j], id);
        assert i < j < k;
      } else if id !in h.states[k].timers {
        assert Ends(h.events[k - 1], id);
      }
    }
  }

  /** Expiries come in order of due tick, so outside the two families in order of deadline tick. */
  lemma ExpiryOrder(h: History, i: nat, j: nat, a: TimerId, b: TimerId)
    requires IsHistory(h) && i < j < |h.events|
    requires h.events[i].Tick? && h.events[j].Tick? && a in h.events[i].expired && b in h.events[j].expired
    ensures a in h.states[i].timers && b in h.states[j].timers
    ensures h.states[i].timers[a].due < h.states[j].timers[b].due
  {
    assert StepAt(h, i);
    assert StepAt(h, j);
    TimeGrows(h, i + 1, j);
  }

  lemma {:induction false} TimeGrows(h: History, i: nat, j: nat)
    requires IsHistory(h) && i <= j < |h.states|
    ensures h.states[i].now <= h.states[j].now
  {
    if i < j {
      TimeGrows(h, i, j - 1);
      assert StepAt(h, j - 1);
    }
  }
}
