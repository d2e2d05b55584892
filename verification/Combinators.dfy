/**
 * The shared states of `when_all`, `when_any` and `timeout` (src/async/combinators.hpp). Racers
 * complete in any order, and the parent may await before, between or after the completions.
 */
module Combinators {
  import opened Prelude

  datatype Outcome<T> = Success(value: T) | Failure(error: int)

  const CANCELLED_ERROR: int := 125
  const TIMED_OUT_ERROR: int := 110

  // ----- when_all -----

  class WhenAllState<T> {
    var remaining: nat
    var results: seq<Outcome<T>>
    var waiter: bool
    var notified: nat

    /** What each racer that has completed came back with. */
    ghost var done: map<nat, Outcome<T>>

    ghost predicate Valid()
      reads this
    {
      && (forall i <- done :: i < |results| && results[i] == done[i])
      && remaining + |done| == |results|
      && notified == if waiter && remaining == 0 then 1 else 0
    }

    constructor (n: nat)
      ensures Valid() && |results| == n && done == map[] && !waiter
    {
      remaining := n;
      results := seq(n, _ => Failure(CANCELLED_ERROR));
      waiter, notified, done := false, 0, map[];
    }

    /** `when_all_racer` once its task has finished. */
    method Complete(i: nat, r: Outcome<T>)
      requires Valid() && i < |results| && i !in done
      modifies this
      ensures Valid() && done == old(done)[i := r] && |results| == old(|results|) && waiter == old(waiter)
    {
      assert |done[i := r]| == |done| + 1;
      assert remaining > 0 by { if remaining == 0 { AllDone(done, |results|, i); } }
      results := results[i := r];
      remaining := remaining - 1;
      done := done[i := r];
      if remaining == 0 && waiter {
        notified := notified + 1;
      }
    }

    /** `co_await`: suspends unless everything is done already. */
    method Await() returns (suspended: bool)
      requires Valid() && !waiter
      modifies this
      ensures Valid() && done == old(done) && results == old(results)
      ensures suspended == waiter && (suspended <==> remaining != 0)
    {
      suspended := false;
      if remaining != 0 {
        waiter := true;
        suspended := true;
      }
    }
  }

  /** `n` racers that have all completed leave nobody else to complete. */
  lemma AllDone<T>(done: map<nat, T>, n: nat, i: nat)
    requires (forall k <- done :: k < n) && |done| == n && i !in done
    ensures i >= n
  {
    if i < n {
      SizeBelow(done.Keys + {i}, n);
    }
  }

  lemma {:induction false} SizeBelow(s: set<nat>, n: nat)
    requires forall k <- s :: k < n
    ensures |s| <= n
  {
    if n > 0 {
      SizeBelow(s - {n - 1}, n - 1);
    } else {
      assert s == {};
    }
  }

  ghost predicate Permutation(order: seq<nat>, n: nat) {
    |order| == n && NoDuplicates(order) && forall i <- order :: i < n
  }

  /** The first `k` racers of `order`, and only they, have completed, each with its own outcome. */
  ghost predicate Collected<T>(done: map<nat, Outcome<T>>, outcomes: seq<Outcome<T>>, order: seq<nat>, k: nat)
    requires k <= |order|
  {
    && |done| == k
    && (forall i :: i in done <==> i in order[..k])
    && (forall i <- done :: i < |outcomes| && done[i] == outcomes[i])
  }

  lemma CollectMore<T>(done: map<nat, Outcome<T>>, outcomes: seq<Outcome<T>>, order: seq<nat>, k: nat)
    requires Permutation(order, |outcomes|) && k < |order| && Collected(done, outcomes, order, k)
    ensures order[k] < |outcomes| && order[k] !in done
    ensures Collected(done[order[k] := outcomes[order[k]]], outcomes, order, k + 1)
  {
    NotBefore(order, k);
    assert order[k] in order;
    assert order[..k + 1] == order[..k] + [order[k]];
    assert |done[order[k] := outcomes[order[k]]]| == |done| + 1;
  }

  /**
   * Every completion order and every moment of awaiting: result `i` ends up at index `i`, and the
   * parent goes on exactly once, at the await itself or by a single notification.
   */
  method WhenAll<T>(outcomes: seq<Outcome<T>>, order: seq<nat>, awaitAt: nat)
    returns (results: seq<Outcome<T>>, wakeUps: nat)
    requires Permutation(order, |outcomes|) && awaitAt <= |order|
    ensures results == outcomes
    ensures wakeUps == 1
  {
    var s := new WhenAllState<T>(|outcomes|);
    var suspended := false;
    for k := 0 to |order|
      invariant s.Valid() && |s.results| == |outcomes| && Collected(s.done, outcomes, order, k)
      invariant s.waiter == suspended == (k > awaitAt)
    {
      if k == awaitAt {
        suspended := s.Await();
      }
      CollectMore(s.done, outcomes, order, k);
      s.Complete(order[k], outcomes[order[k]]);
    }
    if awaitAt == |order| {
      suspended := s.Await();
    }
    forall i | 0 <= i < |outcomes| ensures s.results[i] == outcomes[i] {
      if i !in s.done {
        AllDone(s.done, |outcomes|, i);
      }
    }
    results := s.results;
    wakeUps := s.notified + if suspended then 0 else 1;
  }

  lemma NotBefore<T(!new)>(order: seq<T>, k: nat)
    requires NoDuplicates(order) && k < |order|
    ensures order[k] !in order[..k]
  {
    assert order == order[..k] + [order[k]] + order[k + 1..];
    assert Count(order, order[k]) <= 1;
  }

  // ----- when_any -----

  /** The first success, or else the last completion. */
  function Winner<T>(cs: seq<Outcome<T>>): Outcome<T>
    requires cs != []
  {
    if cs[0].Success? || |cs| == 1 then cs[0] else Winner(cs[1..])
  }

  ghost predicate HasSuccess<T>(cs: seq<Outcome<T>>) {
    exists c <- cs :: c.Success?
  }

  lemma {:induction false} WinnerSnoc<T>(cs: seq<Outcome<T>>, c: Outcome<T>)
    ensures Winner(cs + [c]) == if HasSuccess(cs) then Winner(cs) else c
  {
    if cs != [] {
      assert (cs + [c])[1..] == cs[1..] + [c];
      WinnerSnoc(cs[1..], c);
      assert HasSuccess(cs) <==> cs[0].Success? || HasSuccess(cs[1..]) by {
        if x :| x in cs && x.Success? {
          var i :| 0 <= i < |cs| && cs[i] == x;
          assert i > 0 ==> cs[1..][i - 1] == x;
        }
        if x :| x in cs[1..] && x.Success? {
          assert x in cs;
        }
      }
    }
  }

  /** The winner is what it says: a success with only failures before it, or the last of all failures. */
  lemma {:induction false} WinnerIsFirst<T>(cs: seq<Outcome<T>>) returns (i: nat)
    requires cs != []
    ensures i < |cs| && Winner(cs) == cs[i]
    ensures forall j :: 0 <= j < i ==> cs[j].Failure?
    ensures cs[i].Failure? ==> i == |cs| - 1
  {
    if cs[0].Success? || |cs| == 1 {
      i := 0;
    } else {
      var k := WinnerIsFirst(cs[1..]);
      i := k + 1;
      assert forall j :: 0 < j < i ==> cs[j] == cs[1..][j - 1];
    }
  }

  class WhenAnyState<T> {
    var resolved: bool
    var remaining: nat
    var result: Outcome<T>
    var waiter: bool
    var notified: nat
    /** Which racers' stop sources have been asked to stop. */
    var stopped: seq<bool>

    /** What the racers came back with, in order of completion. */
    ghost var completions: seq<Outcome<T>>

    ghost predicate Valid()
      reads this
    {
      && remaining + |completions| == |stopped| > 0
      && (resolved <==> HasSuccess(completions) || remaining == 0)
      && (resolved ==> completions != [] && result == Winner(completions))
      && (forall i :: 0 <= i < |stopped| ==> stopped[i] == resolved)
      && notified == if waiter && resolved then 1 else 0
    }

    constructor (n: nat)
      requires n > 0
      ensures Valid() && |stopped| == n && completions == [] && !waiter
    {
      resolved, remaining, result := false, n, Failure(CANCELLED_ERROR);
      waiter, notified, stopped, completions := false, 0, seq(n, _ => false), [];
    }

    /** `when_any_racer` once its task has finished. */
    method Complete(r: Outcome<T>)
      requires Valid() && remaining > 0
      modifies this
      ensures Valid() && completions == old(completions) + [r] && |stopped| == old(|stopped|) && waiter == old(waiter)
      ensures old(resolved) ==> result == old(result)
    {
      WinnerSnoc(completions, r);
      SuccessSnoc(completions, r);
      remaining := remaining - 1;
      completions := completions + [r];
      var last := remaining == 0;
      if !resolved && (r.Success? || last) {
        resolved := true;
        result := r;
        stopped := seq(|stopped|, _ => true);
        if waiter {
          notified := notified + 1;
        }
      }
    }

    method Await() returns (suspended: bool)
      requires Valid() && !waiter
      modifies this
      ensures Valid() && completions == old(completions) && result == old(result) && stopped == old(stopped)
      ensures remaining == old(remaining) && resolved == old(resolved)
      ensures suspended == waiter && (suspended <==> !resolved)
    {
      suspended := false;
      if !resolved {
        waiter := true;
        suspended := true;
      }
    }

    /**
     * The end of `when_any`: the awaiter moves the result out and drops it, then `co_return` moves
     * it once more. `left` is what a move leaves behind.
     */
    method Deliver(left: Outcome<T> -> Outcome<T>) returns (r: Outcome<T>)
      modifies this`result
      ensures r == left(old(result)) && result == left(r)
    {
      result := left(result);
      r := result;
      result := left(result);
    }
  }

  lemma SuccessSnoc<T>(cs: seq<Outcome<T>>, c: Outcome<T>)
    ensures HasSuccess(cs + [c]) <==> HasSuccess(cs) || c.Success?
  {
    if x :| x in cs && x.Success? {
      assert x in cs + [c];
    }
    assert c in cs + [c];
  }

  /**
   * Every sequence of completions and every moment of awaiting: the first success wins, else the
   * last failure, and without racers the result is a cancellation. Every source is stopped and the
   * parent goes on exactly once. What is delivered is what a move leaves behind of the winner, hence
   * the winner itself exactly if moving keeps it.
   */
  method WhenAny<T(==)>(cs: seq<Outcome<T>>, awaitAt: nat, left: Outcome<T> -> Outcome<T>)
    returns (resolved: Outcome<T>, delivered: Outcome<T>, stopped: seq<bool>, wakeUps: nat)
    requires awaitAt <= |cs|
    ensures resolved == if cs == [] then Failure(CANCELLED_ERROR) else Winner(cs)
    ensures delivered == if cs == [] then resolved else left(resolved)
    ensures |stopped| == |cs| && forall i :: 0 <= i < |cs| ==> stopped[i]
    ensures wakeUps == 1
  {
    if cs == [] {
      return Failure(CANCELLED_ERROR), Failure(CANCELLED_ERROR), [], 1;
    }
    var s := new WhenAnyState<T>(|cs|);
    var suspended := false;
    for k := 0 to |cs|
      invariant s.Valid() && |s.stopped| == |cs| && s.completions == cs[..k]
      invariant s.waiter == (suspended && k > awaitAt) && (suspended ==> k > awaitAt)
      invariant k > awaitAt && !suspended ==> s.resolved
    {
      if k == awaitAt {
        suspended := s.Await();
      }
      s.Complete(cs[k]);
      assert cs[..k] + [cs[k]] == cs[..k + 1];
    }
    if awaitAt == |cs| {
      suspended := s.Await();
    }
    assert cs[..|cs|] == cs;
    resolved, stopped := s.result, s.stopped;
    wakeUps := s.notified + if suspended then 0 else 1;
    delivered := s.Deliver(left);
  }

  // ----- timeout -----

  datatype Racer = TheTask | TheTimer

  class TimeoutState<T> {
    var resolved: bool
    var result: Outcome<T>
    var waiter: bool
    var notified: nat
    var taskStopped: bool
    var timerStopped: bool

    ghost var winner: Option<Racer>

    ghost predicate Valid()
      reads this
    {
      && resolved == winner.Some?
      && taskStopped == (winner == Some(TheTimer))
      && timerStopped == (winner == Some(TheTask))
      && (winner == Some(TheTimer) ==> result == Failure(TIMED_OUT_ERROR))
      && notified == if waiter && resolved then 1 else 0
    }

    constructor ()
      ensures Valid() && !resolved && !waiter
    {
      resolved, result, waiter, notified := false, Failure(CANCELLED_ERROR), false, 0;
      taskStopped, timerStopped, winner := false, false, None;
    }

    /** `timeout_task_racer` once the task has finished, in whatever way. */
    method TaskDone(r: Outcome<T>)
      requires Valid()
      modifies this
      ensures Valid() && resolved && waiter == old(waiter)
      ensures if old(resolved) then winner == old(winner) && result == old(result)
              else winner == Some(TheTask) && result == r
    {
      if !resolved {
        resolved, result := true, r;
        winner := Some(TheTask);
        timerStopped := true;
        if waiter {
          notified := notified + 1;
        }
      }
    }

    method Await() returns (suspended: bool)
      requires Valid() && !waiter
      modifies this`waiter
      ensures Valid() && suspended == waiter && (suspended <==> !resolved)
    {
      suspended := false;
      if !resolved {
        waiter := true;
        suspended := true;
      }
    }

    /** As for `when_any`: moved out by the awaiter, and again by `co_return`. */
    method Deliver(left: Outcome<T> -> Outcome<T>) returns (r: Outcome<T>)
      modifies this`result
      ensures r == left(old(result)) && result == left(r)
    {
      result := left(result);
      r := result;
      result := left(result);
    }

    /** `timeout_timer_racer` once its sleep is over; the sleep is cut short only by the task's success in the race. */
    method TimerDone(slept: bool)
      requires Valid() && (!slept ==> timerStopped)
      modifies this
      ensures Valid() && resolved && waiter == old(waiter)
      ensures if old(resolved) then winner == old(winner) && result == old(result)
              else winner == Some(TheTimer) && result == Failure(TIMED_OUT_ERROR)
    {
      if !slept {
        return;
      }
      if !resolved {
        resolved, result := true, Failure(TIMED_OUT_ERROR);
        winner := Some(TheTimer);
        taskStopped := true;
        if waiter {
          notified := notified + 1;
        }
      }
    }
  }

  /**
   * Both orders of completion and every moment of awaiting: whoever completes first decides, the
   * other is stopped, and the parent goes on exactly once. Delivery is as in `WhenAny`.
   */
  method Timeout<T(==)>(r: Outcome<T>, timerFirst: bool, slept: bool, awaitAt: nat, left: Outcome<T> -> Outcome<T>)
    returns (resolved: Outcome<T>, delivered: Outcome<T>, taskStopped: bool, timerStopped: bool, wakeUps: nat)
    requires awaitAt <= 2 && (timerFirst ==> slept)
    ensures resolved == if timerFirst then Failure(TIMED_OUT_ERROR) else r
    ensures taskStopped == timerFirst && timerStopped == !timerFirst
    ensures delivered == left(resolved)
    ensures wakeUps == 1
  {
    var s := new TimeoutState<T>();
    var suspended := false;
    if awaitAt == 0 { suspended := s.Await(); }
    if timerFirst { s.TimerDone(slept); } else { s.TaskDone(r); }
    if awaitAt == 1 { suspended := s.Await(); }
    if timerFirst { s.TaskDone(r); } else { s.TimerDone(slept); }
    if awaitAt == 2 { suspended := s.Await(); }
    resolved, taskStopped, timerStopped := s.result, s.taskStopped, s.timerStopped;
    wakeUps := s.notified + if suspended then 0 else 1;
    delivered := s.Deliver(left);
  }
}
