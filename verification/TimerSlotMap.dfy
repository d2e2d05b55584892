/**
 * The dense slot map behind timer ids: an id packs an index and a generation, indices are reused
 * through a LIFO free stack, and the generation tells the occupants of one index apart.
 */
module TimerSlotMap {
  import opened Prelude
  import opened Firing
  import opened TimerSpec

  /** An index has 24 bits and a generation 40; together they fill a 64-bit id. */
  const INDEX_LIMIT: nat := 16_777_216
  const GENERATION_LIMIT: nat := 1_099_511_627_776

  datatype Slot = Slot(entry: TimerEntry, generation: nat, active: bool)

  const EMPTY_SLOT: Slot := Slot(TimerEntry(TimerId(0, 0), 0, Waiter(None, None, TimedOut)), 0, false)

  /** An id whose fields fit their bits. */
  predicate Fits(id: TimerId) {
    id.index < INDEX_LIMIT && id.generation < GENERATION_LIMIT
  }

  /** `encode_id`: the generation shifted left by 24 bits, or-ed with the index. */
  function Pack(id: TimerId): nat
    requires Fits(id)
  {
    id.generation * 16_777_216 + id.index
  }

  /** `id_index` and `id_gen`: the low 24 bits and the rest. */
  function Unpack(n: nat): TimerId {
    TimerId(n % 16_777_216, n / 16_777_216)
  }

  /** Packed ids are 64-bit numbers in one-to-one correspondence with their fields. */
  lemma PackRoundTrip(id: TimerId, n: nat)
    ensures Fits(id) ==> Pack(id) < 0x1_0000_0000_0000_0000 && Unpack(Pack(id)) == id
    ensures n < 0x1_0000_0000_0000_0000 ==> Fits(Unpack(n)) && Pack(Unpack(n)) == n
    ensures Fits(id) && id.generation > 0 ==> Pack(id) != 0
  {
  }

  /** The number of active slots. */
  ghost function CountActive(slots: seq<Slot>): nat {
    if slots == [] then 0
    else CountActive(slots[..|slots| - 1]) + if slots[|slots| - 1].active then 1 else 0
  }

  lemma {:induction false} CountActiveUpdate(slots: seq<Slot>, i: nat, x: Slot)
    requires i < |slots|
    ensures CountActive(slots[i := x]) ==
            CountActive(slots) - (if slots[i].active then 1 else 0) + if x.active then 1 else 0
  {
    var n := |slots| - 1;
    if i == n {
      assert slots[i := x][..n] == slots[..n];
    } else {
      assert slots[i := x][..n] == slots[..n][i := x];
      CountActiveUpdate(slots[..n], i, x);
    }
  }

  lemma {:induction false} CountActiveZero(slots: seq<Slot>)
    ensures CountActive(slots) == 0 <==> forall i :: 0 <= i < |slots| ==> !slots[i].active
  {
    if slots != [] {
      CountActiveZero(slots[..|slots| - 1]);
      assert forall i :: 0 <= i < |slots| - 1 ==> slots[i] == slots[..|slots| - 1][i];
    }
  }

  /** The free stack lists exactly the inactive indices, each once. */
  ghost predicate FreeStack(slots: seq<Slot>, free: seq<nat>) {
    && NoDuplicates(free)
    && forall i {:trigger FreeAt(slots, free, i)} :: FreeAt(slots, free, i)
  }

  ghost predicate FreeAt(slots: seq<Slot>, free: seq<nat>, i: nat) {
    i in free <==> i < |slots| && !slots[i].active
  }

  /** The active slots hold exactly the live timers; every id handed out belongs to a past or present generation. */
  ghost predicate Holding(slots: seq<Slot>, timers: map<TimerId, Timer>, issued: set<TimerId>) {
    && |slots| <= INDEX_LIMIT
    && (forall i {:trigger Occupied(slots[i], i, timers)} :: 0 <= i < |slots| ==> Occupied(slots[i], i, timers))
    && timers.Keys <= issued
    && (forall id {:trigger Holds(slots, id)} :: id in timers ==> Holds(slots, id))
    && (forall id {:trigger PastOrPresent(slots, id)} :: id in issued ==> PastOrPresent(slots, id))
  }

  /** The slot map, its free stack and its counter represent the table of live timers. */
  ghost predicate Represents(
    slots: seq<Slot>, free: seq<nat>, count: nat, timers: map<TimerId, Timer>, issued: set<TimerId>)
  {
    && FreeStack(slots, free) && count == CountActive(slots)
    && Holding(slots, timers, issued) && Sparing(slots, free, |issued|)
  }

  /** Indices and generations are used up no faster than ids are issued. */
  ghost predicate Sparing(slots: seq<Slot>, free: seq<nat>, n: nat) {
    && |slots| <= n + |free|
    && forall i {:trigger AtMost(slots[i], n)} :: 0 <= i < |slots| ==> AtMost(slots[i], n)
  }

  ghost predicate AtMost(s: Slot, n: nat) { s.generation <= n }

  /** Room for one more timer: an index below 2^24 and a generation below 2^40. */
  predicate HasRoom(slots: seq<Slot>, free: seq<nat>) {
    if free == [] then |slots| < INDEX_LIMIT
    else
      var top := free[|free| - 1];
      top < |slots| && slots[top].generation + 1 < GENERATION_LIMIT
  }

  /** There is room at least until 2^24 - 1 timers have been scheduled in the wheel's life. */
  lemma RoomEnough(slots: seq<Slot>, free: seq<nat>, count: nat, timers: map<TimerId, Timer>, issued: set<TimerId>)
    requires Represents(slots, free, count, timers, issued) && |issued| + 1 < INDEX_LIMIT
    ensures HasRoom(slots, free)
  {
    if free != [] {
      var top := free[|free| - 1];
      assert FreeAt(slots, free, top);
      assert AtMost(slots[top], |issued|);
    }
  }

  /** An active slot holds a live timer under the id made of its index and generation. */
  ghost predicate Occupied(s: Slot, i: nat, timers: map<TimerId, Timer>) {
    && s.generation < GENERATION_LIMIT
    && (s.active ==>
          && i < INDEX_LIMIT
          && s.entry.id == TimerId(i, s.generation)
          && s.entry.id in timers
          && timers[s.entry.id].entry == s.entry)
  }

  /** The test of `lookup`, `cancel` and `release`: the index exists, is active and has this generation. */
  predicate Holds(slots: seq<Slot>, id: TimerId) {
    && id.index < |slots|
    && slots[id.index].active
    && slots[id.index].generation == id.generation
  }

  ghost predicate PastOrPresent(slots: seq<Slot>, id: TimerId) {
    && id.index < |slots|
    && 1 <= id.generation <= slots[id.index].generation
  }

  /** The lookup test accepts exactly the live ids; a stale id never reaches its index's new occupant. */
  lemma HoldsIffLive(slots: seq<Slot>, timers: map<TimerId, Timer>, issued: set<TimerId>, id: TimerId)
    requires Holding(slots, timers, issued)
    ensures Holds(slots, id) <==> id in timers
    ensures Holds(slots, id) ==> timers[id].entry == slots[id.index].entry
  {
    if Holds(slots, id) {
      var i := id.index;
      assert Occupied(slots[i], i, timers);
    }
  }

  lemma NoneActive(slots: seq<Slot>, timers: map<TimerId, Timer>, issued: set<TimerId>)
    requires Holding(slots, timers, issued)
    ensures CountActive(slots) == 0 <==> timers == map[]
  {
    CountActiveZero(slots);
    if timers != map[] {
      var id :| id in timers;
      assert Holds(slots, id);
    }
    if i :| 0 <= i < |slots| && slots[i].active {
      assert Occupied(slots[i], i, timers);
    }
  }

  /** Growing the map by an empty slot is the same as finding its index on the free stack. */
  lemma Grow(slots: seq<Slot>, timers: map<TimerId, Timer>, issued: set<TimerId>)
    requires Represents(slots, [], CountActive(slots), timers, issued) && |slots| < INDEX_LIMIT
    ensures Represents(slots + [EMPTY_SLOT], [|slots|], CountActive(slots), timers, issued)
  {
    GrowFree(slots);
    GrowHolding(slots, timers, issued);
    forall i | 0 <= i < |slots| + 1 ensures AtMost((slots + [EMPTY_SLOT])[i], |issued|) {
      assert i < |slots| ==> AtMost(slots[i], |issued|);
    }
  }

  lemma GrowFree(slots: seq<Slot>)
    requires FreeStack(slots, [])
    ensures FreeStack(slots + [EMPTY_SLOT], [|slots|])
    ensures CountActive(slots + [EMPTY_SLOT]) == CountActive(slots)
  {
    assert (slots + [EMPTY_SLOT])[..|slots|] == slots;
    forall k ensures FreeAt(slots + [EMPTY_SLOT], [|slots|], k) {
      assert FreeAt(slots, [], k);
    }
  }

  lemma GrowHolding(slots: seq<Slot>, timers: map<TimerId, Timer>, issued: set<TimerId>)
    requires Holding(slots, timers, issued) && |slots| < INDEX_LIMIT
    ensures Holding(slots + [EMPTY_SLOT], timers, issued)
  {
    var grown := slots + [EMPTY_SLOT];
    forall id | id in timers ensures Holds(grown, id) {
      assert Holds(slots, id);
    }
    forall id | id in issued ensures PastOrPresent(grown, id) {
      assert PastOrPresent(slots, id);
    }
  }

  function Activate(slots: seq<Slot>, i: nat, entry: TimerEntry): seq<Slot>
    requires i < |slots|
  {
    slots[i := Slot(entry, slots[i].generation + 1, true)]
  }

  function Deactivate(slots: seq<Slot>, i: nat): seq<Slot>
    requires i < |slots|
  {
    slots[i := slots[i].(active := false)]
  }

  lemma PopFree(slots: seq<Slot>, rest: seq<nat>, i: nat, entry: TimerEntry)
    requires FreeStack(slots, rest + [i])
    ensures i < |slots| && !slots[i].active
    ensures FreeStack(Activate(slots, i, entry), rest)
  {
    var free := rest + [i];
    assert FreeAt(slots, free, i) && Count(free, i) <= 1;
    forall x ensures Count(rest, x) <= 1 {
      assert Count(free, x) <= 1;
    }
    forall k ensures FreeAt(Activate(slots, i, entry), rest, k) {
      assert FreeAt(slots, free, k);
      assert k in free <==> k in rest || k == i;
    }
  }

  lemma PushFree(slots: seq<Slot>, free: seq<nat>, i: nat)
    requires FreeStack(slots, free) && i < |slots| && slots[i].active
    ensures FreeStack(Deactivate(slots, i), free + [i])
  {
    assert FreeAt(slots, free, i);
    forall x ensures Count(free + [i], x) <= 1 {
      assert Count(free, x) <= 1;
    }
    forall k ensures FreeAt(Deactivate(slots, i), free + [i], k) {
      assert FreeAt(slots, free, k);
      assert k in free + [i] <==> k in free || k == i;
    }
  }

  /** A new generation at an inactive index makes an id that was never issued before. */
  lemma NewGeneration(
    slots: seq<Slot>, timers: map<TimerId, Timer>, issued: set<TimerId>, i: nat, entry: TimerEntry, t: Timer)
    requires Holding(slots, timers, issued) && i < |slots| && !slots[i].active && t.entry == entry
    requires slots[i].generation + 1 < GENERATION_LIMIT && entry.id == TimerId(i, slots[i].generation + 1)
    ensures entry.id !in issued && entry.id.generation > 0
    ensures Holding(Activate(slots, i, entry), timers[entry.id := t], issued + {entry.id})
  {
    var slots', timers' := Activate(slots, i, entry), timers[entry.id := t];
    assert entry.id in issued ==> PastOrPresent(slots, entry.id);
    forall id | id in issued ensures PastOrPresent(slots', id) {
      assert PastOrPresent(slots, id);
    }
    forall id | id in timers ensures Holds(slots', id) {
      assert Holds(slots, id);
    }
    forall k | 0 <= k < |slots'| ensures Occupied(slots'[k], k, timers') {
      assert Occupied(slots[k], k, timers);
    }
  }

  lemma OthersOccupied(slots: seq<Slot>, timers: map<TimerId, Timer>, issued: set<TimerId>, id: TimerId)
    requires Holding(slots, timers, issued) && id.index < |slots|
    ensures forall k :: 0 <= k < |slots| ==> Occupied(Deactivate(slots, id.index)[k], k, timers - {id})
  {
    forall k | 0 <= k < |slots| ensures Occupied(Deactivate(slots, id.index)[k], k, timers - {id}) {
      assert Occupied(slots[k], k, timers);
    }
  }

  /** Releasing a live id frees its index and keeps every other timer. */
  lemma EndGeneration(slots: seq<Slot>, timers: map<TimerId, Timer>, issued: set<TimerId>, id: TimerId)
    requires Holding(slots, timers, issued) && id in timers
    ensures Holds(slots, id)
    ensures Holding(Deactivate(slots, id.index), timers - {id}, issued)
  {
    assert Holds(slots, id);
    var i := id.index;
    var slots', timers' := Deactivate(slots, i), timers - {id};
    OthersOccupied(slots, timers, issued, id);
    forall x | x in timers' ensures Holds(slots', x) {
      assert Holds(slots, x);
    }
    forall x | x in issued ensures PastOrPresent(slots', x) {
      assert PastOrPresent(slots, x);
    }
  }

  /** Claiming the index on top of the free stack. */
  lemma Claim(
    slots: seq<Slot>, rest: seq<nat>, i: nat, count: nat, timers: map<TimerId, Timer>, issued: set<TimerId>,
    entry: TimerEntry, t: Timer)
    requires Represents(slots, rest + [i], count, timers, issued) && t.entry == entry
    requires i < |slots| && slots[i].generation + 1 < GENERATION_LIMIT
    requires entry.id == TimerId(i, slots[i].generation + 1)
    ensures entry.id !in issued && entry.id.generation > 0
    ensures Represents(Activate(slots, i, entry), rest, count + 1, timers[entry.id := t], issued + {entry.id})
  {
    PopFree(slots, rest, i, entry);
    CountActiveUpdate(slots, i, Activate(slots, i, entry)[i]);
    NewGeneration(slots, timers, issued, i, entry, t);
    forall k | 0 <= k < |slots| ensures AtMost(Activate(slots, i, entry)[k], |issued| + 1) {
      assert AtMost(slots[k], |issued|);
    }
  }

  lemma Release(
    slots: seq<Slot>, free: seq<nat>, count: nat, timers: map<TimerId, Timer>, issued: set<TimerId>, id: TimerId)
    requires Represents(slots, free, count, timers, issued) && id in timers
    ensures Holds(slots, id) && count > 0
    ensures Represents(Deactivate(slots, id.index), free + [id.index], count - 1, timers - {id}, issued)
  {
    assert Holds(slots, id);
    EndGeneration(slots, timers, issued, id);
    PushFree(slots, free, id.index);
    CountActiveUpdate(slots, id.index, Deactivate(slots, id.index)[id.index]);
    forall k | 0 <= k < |slots| ensures AtMost(Deactivate(slots, id.index)[k], |issued|) {
      assert AtMost(slots[k], |issued|);
    }
  }
}
