/**
 * What both the reactor and the timer wheel do when a wait they serve comes to its end: a wait
 * that someone else has decided is left alone, otherwise it is completed and its coroutine woken.
 */
module Firing {
  import opened Prelude

  /** A parked coroutine: its handle, its wait state and the state that completes it. */
  datatype Waiter = Waiter(handle: Option<Handle>, state: Option<Addr>, completion: WaitState)

  ghost predicate Allocated(e: Waiter, mem: Memory) {
    e.state.Some? ==> e.state.value in mem
  }

  ghost predicate AllAllocated(es: seq<Waiter>, mem: Memory) {
    forall i :: 0 <= i < |es| ==> Allocated(es[i], mem)
  }

  /** One expiry: a wait already decided by someone else is left alone, otherwise it is completed and woken. */
  ghost function FireOne(e: Waiter, mem: Memory, done: set<Handle>): (r: (Memory, seq<Handle>))
    requires Allocated(e, mem)
    ensures r.0.Keys == mem.Keys
  {
    if e.state.Some? && mem[e.state.value] != Pending then (mem, [])
    else
      (if e.state.Some? then mem[e.state.value := e.completion] else mem,
       if e.handle.Some? && e.handle.value !in done then [e.handle.value] else [])
  }

  ghost function FireAll(es: seq<Waiter>, mem: Memory, done: set<Handle>): (r: (Memory, seq<Handle>))
    requires AllAllocated(es, mem)
    ensures r.0.Keys == mem.Keys
  {
    if es == [] then (mem, [])
    else
      var before := FireAll(es[..|es| - 1], mem, done);
      var last := FireOne(es[|es| - 1], before.0, done);
      (last.0, before.1 + last.1)
  }

  lemma FireSnoc(es: seq<Waiter>, e: Waiter, mem: Memory, done: set<Handle>)
    requires AllAllocated(es, mem) && Allocated(e, mem)
    ensures AllAllocated(es + [e], mem)
    ensures
      var before := FireAll(es, mem, done);
      var last := FireOne(e, before.0, done);
      FireAll(es + [e], mem, done) == (last.0, before.1 + last.1)
  {
    assert (es + [e])[..|es|] == es;
  }

  /** Firing two batches one after the other is firing their concatenation. */
  lemma {:induction false} FireAllAppend(a: seq<Waiter>, b: seq<Waiter>, mem: Memory, done: set<Handle>)
    requires AllAllocated(a, mem) && AllAllocated(b, mem)
    ensures
      var first := FireAll(a, mem, done);
      var second := FireAll(b, first.0, done);
      FireAll(a + b, mem, done) == (second.0, first.1 + second.1)
  {
    if b == [] {
      var first := FireAll(a, mem, done);
      assert a + b == a && first.1 + [] == first.1;
    } else {
      var c := b[..|b| - 1];
      FireAllAppend(a, c, mem, done);
      assert (a + b)[..|a + b| - 1] == a + c;
      var first := FireAll(a, mem, done);
      var middle := FireAll(c, first.0, done);
      var last := FireOne(b[|b| - 1], middle.0, done);
      assert first.1 + (middle.1 + last.1) == first.1 + middle.1 + last.1;
    }
  }

  /**
   * Expiry races fairly: a wait state that nobody points to keeps its value, a decided one keeps
   * its value, and a pending one takes the completion of one of the expiring timers on it.
   */
  lemma {:induction false} FireAllStates(es: seq<Waiter>, mem: Memory, done: set<Handle>, a: Addr)
    requires AllAllocated(es, mem)
    requires a in mem
    ensures (mem[a] != Pending || (forall e <- es :: e.state != Some(a))) ==> FireAll(es, mem, done).0[a] == mem[a]
    ensures FireAll(es, mem, done).0[a] != mem[a] ==>
              exists e <- es :: e.state == Some(a) && FireAll(es, mem, done).0[a] == e.completion
  {
    if es != [] {
      var es' := es[..|es| - 1];
      FireAllStates(es', mem, done, a);
      assert es[|es| - 1] in es;
      assert forall e <- es' :: e in es;
    }
  }

  /** Nobody has decided the wait of this entry, or it has no wait state to decide. */
  ghost predicate Undecided(e: Waiter, mem: Memory)
    requires Allocated(e, mem)
  {
    e.state == None || mem[e.state.value] == Pending
  }

  /** The unfinished coroutines of the entries undecided before the batch, in order. */
  ghost function WokenBy(es: seq<Waiter>, mem: Memory, done: set<Handle>): seq<Handle>
    requires AllAllocated(es, mem)
  {
    if es == [] then []
    else
      var e := es[|es| - 1];
      WokenBy(es[..|es| - 1], mem, done) +
      if Undecided(e, mem) && e.handle.Some? && e.handle.value !in done then [e.handle.value] else []
  }

  ghost predicate OwnStates(es: seq<Waiter>) {
    forall i, j :: 0 <= i < j < |es| && es[i].state.Some? ==> es[i].state != es[j].state
  }

  /**
   * Waiters with wait states of their own do not disturb each other: exactly those undecided before
   * take their completion and wake their coroutines, with or without a wait state.
   */
  lemma {:induction false} Independent(es: seq<Waiter>, mem: Memory, done: set<Handle>, i: nat)
    requires AllAllocated(es, mem) && OwnStates(es) && i < |es|
    ensures FireAll(es, mem, done).1 == WokenBy(es, mem, done)
    ensures es[i].state.Some? ==>
              FireAll(es, mem, done).0[es[i].state.value] ==
              if Undecided(es[i], mem) then es[i].completion else mem[es[i].state.value]
  {
    var n := |es| - 1;
    if n > 0 {
      Independent(es[..n], mem, done, if i < n then i else 0);
    }
    if es[n].state.Some? {
      FireAllStates(es[..n], mem, done, es[n].state.value);
    }
  }
}
