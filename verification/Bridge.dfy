/**
 * `spawn_blocking` (src/runtime/bridge.hpp): a coroutine hands a function to a pool worker and
 * sleeps on an eventfd until the worker has written the result into a shared state and rung. The
 * steps of the loop thread and of the worker interleave freely; the loop may be torn down, and the
 * coroutine's frame destroyed, while the worker is still busy.
 *
 * The shared state is a cell on a heap, owned by the frame and by the work closure, and freed with
 * its last owner. Whoever reaches for it, or for the frame, after it is gone sets `fault`.
 */
module Bridge {
  import opened Prelude

  datatype Answer<T> = Value(v: T) | Error(e: int)

  /**
   * The awaiting coroutine. `Refused` never suspends; `Done` has left the awaiter's scope;
   * `Destroyed` was torn down with the loop while suspended.
   */
  datatype Frame<T> =
    | Fresh
    | Registered
    | Suspended
    | Woken
    | Refused
    | Resumed(answer: Option<Answer<T>>)
    | Done(answer: Option<Answer<T>>)
    | Destroyed

  /** The work closure on its way through the pool. */
  datatype Work = Held | Queued | Running | Written | Rung | Over

  datatype Owner = TheFrame | TheWork

  /** `BlockingState`: the result and the eventfd, whose counter a read resets. */
  datatype Shared<T> = Shared(result: Option<Answer<T>>, counter: nat, owners: set<Owner>)

  /** `at` is the address both shared pointers hold; `slot` is the reactor's registration of the frame. */
  datatype Call<T> = Call(
    frame: Frame<T>, work: Work, slot: bool, loopGone: bool, heap: map<Addr, Shared<T>>, at: Addr, fault: bool)

  datatype Step<T> =
    | Register(ok: bool)
    | Spawn(accepted: bool)
    | Poll
    | Resume(ok: bool)
    | ReadError(ok: bool)
    | Finish
    | Teardown
    | Begin
    | WriteResult(answer: Answer<T>)
    | Ring(ok: bool)
    | ReleaseWork

  const RING_ERROR: int := 11
  const READ_ERROR: int := 5
  const REFUSED_ERROR: int := 32

  function StartOf<T>(at: Addr): Call<T> {
    Call(Fresh, Held, false, false, map[at := Shared(None, 0, {TheFrame, TheWork})], at, false)
  }

  // ----- reaching for the shared state -----

  /** Writing the cell; without a cell this is a use after free. */
  function Put<T>(s: Call<T>, cell: Shared<T>): Call<T> {
    if s.at in s.heap then s.(heap := s.heap[s.at := cell]) else s.(fault := true)
  }

  /** The cell read through the shared pointer; the value read after a free is arbitrary. */
  function Get<T>(s: Call<T>): Shared<T> {
    if s.at in s.heap then s.heap[s.at] else Shared(None, 0, {})
  }

  /** One shared pointer goes; the last one frees the cell and closes the eventfd. */
  function Release<T>(s: Call<T>, o: Owner): Call<T> {
    if s.at !in s.heap then s.(fault := true)
    else if s.heap[s.at].owners - {o} == {} then s.(heap := s.heap - {s.at})
    else s.(heap := s.heap[s.at := s.heap[s.at].(owners := s.heap[s.at].owners - {o})])
  }

  /** The eventfd is readable: it is open and its counter positive. */
  predicate Readable<T>(s: Call<T>) {
    s.at in s.heap && s.heap[s.at].counter > 0
  }

  /**
   * `await_resume`: reading the eventfd resets its counter, then the result is taken. If the read
   * fails (an empty counter is no failure), the coroutine gets that error instead of the result.
   */
  function Taken<T>(s: Call<T>, ok: bool): Call<T> {
    if ok then Put(s, Get(s).(counter := 0)).(frame := Resumed(Get(s).result), slot := false)
    else Put(s, Get(s)).(frame := Resumed(Some(Error(READ_ERROR))), slot := false)
  }

  ghost predicate Next<T(!new)>(s: Call<T>, a: Step<T>, s': Call<T>) {
    match a
    case Register(ok) =>
      && s.frame == Fresh
      && s' == if ok then s.(frame := Registered, slot := true)
               else Put(s, Get(s).(result := Some(Error(REFUSED_ERROR)))).(frame := Refused)
    case Spawn(accepted) =>
      && s.frame == Registered
      && s' == if accepted then s.(frame := Suspended, work := Queued)
               else
                 var dropped := Release(s, TheWork).(slot := false, work := Over);
                 Put(dropped, Get(dropped).(result := Some(Error(REFUSED_ERROR)))).(frame := Refused)
    case Poll =>
      && !s.loopGone && s.slot && Readable(s)
      && s' == if s.frame == Suspended then s.(slot := false, frame := Woken) else s.(slot := false, fault := true)
    case Resume(ok) => s.frame == Woken && s' == Taken(s, ok)
    case ReadError(ok) => s.frame == Refused && s' == Taken(s, ok)
    case Finish =>
      && s.frame.Resumed?
      && var left := Release(s, TheFrame).(frame := Done(s.frame.answer));
         s' == if s.work == Held then Release(left, TheWork).(work := Over) else left
    case Teardown =>
      && (s.frame == Suspended || s.frame == Woken)
      && s' == Release(s, TheFrame).(frame := Destroyed, loopGone := true)
    case Begin => s.work == Queued && s' == s.(work := Running)
    case WriteResult(answer) => s.work == Running && s' == Put(s, Get(s).(result := Some(answer))).(work := Written)
    case Ring(ok) =>
      && s.work == Written
      && var cell := Get(s);
         s' == Put(s, if ok then cell.(counter := cell.counter + 1)
                      else if cell.result.Some? && cell.result.value.Value? then
                        cell.(result := Some(Error(RING_ERROR)))
                      else cell).(work := Rung)
    case ReleaseWork => s.work == Rung && s' == Release(s, TheWork).(work := Over)
  }

  // ----- the invariant of every interleaving -----

  predicate FrameOwns<T>(f: Frame<T>) { !f.Done? && !f.Destroyed? }

  /** The cell exists exactly as long as it has owners, and they are who they should be. */
  ghost predicate Owned<T>(s: Call<T>) {
    var owners := (if FrameOwns(s.frame) then {TheFrame} else {}) + if s.work != Over then {TheWork} else {};
    if owners == {} then s.heap == map[] else s.heap.Keys == {s.at} && s.heap[s.at].owners == owners
  }

  ghost predicate Inv<T>(s: Call<T>) {
    && !s.fault
    && Owned(s)
    && (s.frame.Fresh? || s.frame.Registered? ==> s.work == Held)
    && (s.frame.Suspended? || s.frame.Woken? || s.frame.Destroyed? ==> s.work != Held)
    && (s.work != Held && s.work != Over ==>
          s.frame.Suspended? || s.frame.Woken? || s.frame.Resumed? || s.frame.Done? || s.frame.Destroyed?)
    && (s.frame.Registered? || s.frame.Suspended? ==> s.slot)
    && (s.slot ==> s.frame.Registered? || s.frame.Suspended? || s.frame.Destroyed?)
    && (s.loopGone <==> s.frame.Destroyed?)
    && (Readable(s) ==> (s.work == Rung || s.work == Over) && s.heap[s.at].result.Some?)
    && (s.frame.Woken? ==> Readable(s))
    && (s.work == Written || s.work == Rung ==> s.heap[s.at].result.Some?)
    && (s.frame.Fresh? || s.frame.Registered? || s.work == Queued || s.work == Running ==> s.heap[s.at].result.None?)
  }

  lemma NextKeeps<T(!new)>(s: Call<T>, a: Step<T>, s': Call<T>)
    requires Inv(s) && Next(s, a, s')
    ensures Inv(s')
  {
  }

  // ----- runs -----

  datatype Run<T> = Run(states: seq<Call<T>>, steps: seq<Step<T>>)

  ghost predicate IsRun<T(!new)>(run: Run<T>) {
    && |run.states| == |run.steps| + 1
    && run.states[0] == StartOf(run.states[0].at)
    && forall k {:trigger StepAt(run, k)} :: 0 <= k < |run.steps| ==> StepAt(run, k)
  }

  ghost predicate StepAt<T(!new)>(run: Run<T>, k: nat)
    requires k < |run.steps| && k + 1 < |run.states|
  {
    Next(run.states[k], run.steps[k], run.states[k + 1])
  }

  lemma {:induction false} RunInv<T(!new)>(run: Run<T>, k: nat)
    requires IsRun(run) && k < |run.states|
    ensures Inv(run.states[k])
  {
    if k > 0 {
      RunInv(run, k - 1);
      assert StepAt(run, k - 1);
      NextKeeps(run.states[k - 1], run.steps[k - 1], run.states[k]);
    }
  }

  /** The step goes through the shared pointer. */
  predicate Touches<T>(a: Step<T>) {
    !(a.Begin? || a.Poll? || a == Register(true) || a == Spawn(true))
  }

  /**
   * In every interleaving, teardown included, whoever goes through the shared pointer finds the
   * cell there, and the reactor never wakes a frame that is gone. The cell is freed in the end.
   */
  lemma NoUseAfterFree<T(!new)>(run: Run<T>, k: nat)
    requires IsRun(run) && k < |run.states|
    ensures !run.states[k].fault
    ensures k < |run.steps| && Touches(run.steps[k]) ==> run.states[k].at in run.states[k].heap
    ensures run.states[k].heap == map[] <==> !FrameOwns(run.states[k].frame) && run.states[k].work == Over
  {
    RunInv(run, k);
    assert k < |run.steps| ==> StepAt(run, k);
  }

  /** How far the frame has come; no step takes it back. */
  function Rank<T>(f: Frame<T>): nat {
    match f
    case Fresh => 0
    case Registered => 1
    case Suspended => 2
    case Woken => 3
    case Refused => 3
    case Resumed(_) => 4
    case Done(_) => 5
    case Destroyed => 5
  }

  lemma RankStep<T(!new)>(s: Call<T>, a: Step<T>, s': Call<T>)
    requires Next(s, a, s')
    ensures Rank(s.frame) <= Rank(s'.frame)
  {
  }

  lemma {:induction false} NeverBack<T(!new)>(run: Run<T>, i: nat, j: nat)
    requires IsRun(run) && i <= j < |run.states|
    ensures Rank(run.states[i].frame) <= Rank(run.states[j].frame)
  {
    if i < j {
      NeverBack(run, i, j - 1);
      assert StepAt(run, j - 1);
      RankStep(run.states[j - 1], run.steps[j - 1], run.states[j]);
    }
  }

  ghost predicate WroteBefore<T>(run: Run<T>, k: nat, answer: Answer<T>) {
    exists j :: 0 <= j < k && j < |run.steps| && run.steps[j] == WriteResult(answer)
  }

  ghost predicate RangBadly<T>(run: Run<T>, k: nat) {
    exists j :: 0 <= j < k && j < |run.steps| && run.steps[j] == Ring(false)
  }

  predicate BeforeRing(w: Work) { w == Held || w == Queued || w == Running || w == Written }

  predicate Asleep<T>(s: Call<T>) { s.frame.Suspended? || s.frame.Woken? }

  /** What one step does to the counter of a sleeper whose worker has rung. */
  lemma CounterStep<T(!new)>(s: Call<T>, a: Step<T>, s': Call<T>)
    requires Inv(s) && Next(s, a, s')
    ensures BeforeRing(s'.work) ==> BeforeRing(s.work) && !a.Ring?
    ensures a.Ring? ==> BeforeRing(s.work) && (Asleep(s') ==> (Readable(s') <==> a.ok))
    ensures Asleep(s') && !BeforeRing(s'.work) && !a.Ring? ==>
              Asleep(s) && !BeforeRing(s.work) && (Readable(s') <==> Readable(s))
  {
  }

  /** Before the worker rings there is no ring; afterwards the counter of a sleeper tells how it went. */
  lemma {:induction false} CounterTells<T(!new)>(run: Run<T>, k: nat)
    requires IsRun(run) && k < |run.states|
    ensures BeforeRing(run.states[k].work) ==> !RangBadly(run, k)
    ensures Asleep(run.states[k]) && !BeforeRing(run.states[k].work) ==>
              (Readable(run.states[k]) <==> !RangBadly(run, k))
  {
    if k > 0 {
      CounterTells(run, k - 1);
      RunInv(run, k - 1);
      assert StepAt(run, k - 1);
      CounterStep(run.states[k - 1], run.steps[k - 1], run.states[k]);
      assert RangBadly(run, k) <==> RangBadly(run, k - 1) || run.steps[k - 1] == Ring(false);
    }
  }

  /** What a sleeper will find, once something is there, is what the worker wrote, unless ringing failed. */
  lemma {:induction false} ResultIsTheWorkers<T(!new)>(run: Run<T>, k: nat)
    requires IsRun(run) && k < |run.states| && !RangBadly(run, k)
    requires Asleep(run.states[k]) && Get(run.states[k]).result.Some?
    ensures WroteBefore(run, k, Get(run.states[k]).result.value)
  {
    RunInv(run, k);
    RunInv(run, k - 1);
    assert StepAt(run, k - 1);
    var answer := Get(run.states[k]).result.value;
    if run.steps[k - 1].WriteResult? {
      assert run.steps[k - 1] == WriteResult(answer);
    } else {
      assert run.steps[k - 1] == Ring(false) ==> RangBadly(run, k);
      assert RangBadly(run, k - 1) ==> RangBadly(run, k);
      ResultIsTheWorkers(run, k - 1);
      var j :| 0 <= j < k - 1 && run.steps[j] == WriteResult(answer);
      assert j < k;
    }
  }

  /**
   * The coroutine is resumed at most once in a run, only after the worker has written its result
   * and rung, and with that result, or with the error of a failed read of the eventfd; nothing of
   * it is registered from then on.
   */
  lemma ResumedOnceWithResult<T(!new)>(run: Run<T>, i: nat)
    requires IsRun(run) && i < |run.steps| && run.steps[i].Resume?
    ensures
      var result := Get(run.states[i]).result;
      && result.Some? && WroteBefore(run, i, result.value)
      && run.states[i + 1].frame == Resumed(if run.steps[i].ok then result else Some(Error(READ_ERROR)))
    ensures forall j :: 0 <= j < |run.steps| && j != i ==> !run.steps[j].Resume?
    ensures forall j :: i < j < |run.states| ==> !run.states[j].slot
  {
    assert StepAt(run, i);
    RunInv(run, i);
    CounterTells(run, i);
    ResultIsTheWorkers(run, i);
    forall j | 0 <= j < |run.steps| && j != i ensures !run.steps[j].Resume? {
      assert StepAt(run, j);
      if j < i { NeverBack(run, j + 1, i); } else { NeverBack(run, i + 1, j); }
    }
    forall j | i < j < |run.states| ensures !run.states[j].slot {
      ResumedStaysOff(run, i + 1, j);
    }
  }

  lemma {:induction false} ResumedStaysOff<T(!new)>(run: Run<T>, i: nat, j: nat)
    requires IsRun(run) && i <= j < |run.states| && (run.states[i].frame.Resumed? || run.states[i].frame.Done?)
    ensures (run.states[j].frame.Resumed? || run.states[j].frame.Done?) && !run.states[j].slot
  {
    RunInv(run, j);
    if i < j {
      ResumedStaysOff(run, i, j - 1);
      assert StepAt(run, j - 1);
    }
  }

  /** Once the worker is through with a suspended coroutine, it can be woken if and only if ringing did not fail. */
  lemma WokenIffRungWell<T(!new)>(run: Run<T>, k: nat)
    requires IsRun(run) && k < |run.states| && run.states[k].frame == Suspended && !BeforeRing(run.states[k].work)
    ensures (exists s' :: Next(run.states[k], Poll, s')) <==> !RangBadly(run, k)
  {
    var s := run.states[k];
    RunInv(run, k);
    CounterTells(run, k);
    if Readable(s) {
      assert Next(s, Poll, s.(slot := false, frame := Woken));
    }
  }

  /** After a failed ring the coroutine sleeps until the loop is torn down: it is never woken or resumed. */
  lemma {:induction false} FailedRingStrands<T(!new)>(run: Run<T>, i: nat, k: nat)
    requires IsRun(run) && i < k < |run.states| && run.steps[i] == Ring(false)
    ensures run.states[k].frame == Suspended || run.states[k].frame == Destroyed
  {
    assert StepAt(run, k - 1);
    RunInv(run, k - 1);
    CounterTells(run, k - 1);
    if i + 1 == k {
      StillAsleep(run, i);
    } else {
      FailedRingStrands(run, i, k - 1);
      CounterTells(run, k);
      assert RangBadly(run, k - 1);
    }
  }

  /** Until the worker has rung, a coroutine whose work is under way sleeps or was torn down. */
  lemma {:induction false} StillAsleep<T(!new)>(run: Run<T>, k: nat)
    requires IsRun(run) && k < |run.states| && BeforeRing(run.states[k].work) && run.states[k].work != Held
    ensures run.states[k].frame == Suspended || run.states[k].frame == Destroyed
  {
    RunInv(run, k);
    RunInv(run, k - 1);
    assert StepAt(run, k - 1);
    if BeforeRing(run.states[k - 1].work) && run.states[k - 1].work != Held {
      StillAsleep(run, k - 1);
    }
  }

  /** If the reactor or the pool refuses, nothing is registered or queued, and the error lies ready. */
  lemma {:induction false} RefusalLeavesNothing<T(!new)>(run: Run<T>, k: nat)
    requires IsRun(run) && k < |run.states| && run.states[k].frame == Refused
    ensures !run.states[k].slot && (run.states[k].work == Over || run.states[k].work == Held)
    ensures Get(run.states[k]).result == Some(Error(REFUSED_ERROR)) && !Readable(run.states[k])
  {
    RunInv(run, k);
    assert StepAt(run, k - 1);
    if run.states[k - 1].frame == Refused {
      RefusalLeavesNothing(run, k - 1);
    } else {
      RunInv(run, k - 1);
    }
  }

  /** A coroutine is refused exactly if the reactor or the pool refused it. */
  lemma RefusedByStep<T(!new)>(run: Run<T>, k: nat)
    requires IsRun(run) && k < |run.steps|
    ensures run.states[k].frame != Refused && run.states[k + 1].frame == Refused <==>
              run.steps[k] == Register(false) || run.steps[k] == Spawn(false)
  {
    assert StepAt(run, k);
  }

  /** What a refused coroutine gets. */
  lemma RefusedGetsError<T(!new)>(run: Run<T>, k: nat)
    requires IsRun(run) && k < |run.steps| && run.steps[k].ReadError?
    ensures run.states[k + 1].frame ==
            Resumed(Some(Error(if run.steps[k].ok then REFUSED_ERROR else READ_ERROR)))
  {
    assert StepAt(run, k);
    RefusalLeavesNothing(run, k);
  }

  predicate Answered<T>(f: Frame<T>) { f.Done? || f.Resumed? }

  lemma AnswerStep<T(!new)>(s: Call<T>, a: Step<T>, s': Call<T>)
    requires Next(s, a, s') && Answered(s'.frame)
    ensures if Answered(s.frame) then s'.frame.answer == s.frame.answer
            else (a.Resume? || a.ReadError?) && s'.frame.Resumed?
  {
  }

  /** What the coroutine leaves the awaiter with is what it was resumed with. */
  lemma {:induction false} DoneDelivers<T(!new)>(run: Run<T>, k: nat) returns (i: nat)
    requires IsRun(run) && k < |run.states| && Answered(run.states[k].frame)
    ensures i < k && (run.steps[i].Resume? || run.steps[i].ReadError?)
    ensures run.states[i + 1].frame == Resumed(run.states[k].frame.answer)
  {
    assert StepAt(run, k - 1);
    AnswerStep(run.states[k - 1], run.steps[k - 1], run.states[k]);
    if Answered(run.states[k - 1].frame) {
      i := DoneDelivers(run, k - 1);
    } else {
      i := k - 1;
    }
  }

  /** A coroutine torn down with its loop is gone for good: it is never woken or resumed. */
  lemma {:induction false} TornDownForGood<T(!new)>(run: Run<T>, i: nat, k: nat)
    requires IsRun(run) && i < k < |run.states| && run.steps[i] == Teardown
    ensures run.states[k].frame == Destroyed
    ensures k < |run.steps| ==> run.steps[k] != Poll && !run.steps[k].Resume?
  {
    assert StepAt(run, k - 1);
    assert k < |run.steps| ==> StepAt(run, k);
    RunInv(run, k);
    if i + 1 < k {
      TornDownForGood(run, i, k - 1);
    }
  }

  /** How far the work has come. */
  function WorkRank(w: Work): nat {
    match w
    case Held => 0
    case Queued => 1
    case Running => 2
    case Written => 3
    case Rung => 4
    case Over => 5
  }

  /** The worker is never stuck: once the pool has the work, a step of the worker takes it further. */
  lemma WorkerGoesOn<T(!new)>(run: Run<T>, k: nat, answer: Answer<T>, ok: bool) returns (a: Step<T>, s': Call<T>)
    requires IsRun(run) && k < |run.states| && run.states[k].work != Held && run.states[k].work != Over
    ensures Next(run.states[k], a, s') && WorkRank(s'.work) == WorkRank(run.states[k].work) + 1
    ensures a == Begin || a == WriteResult(answer) || a == Ring(ok) || a == ReleaseWork
    ensures a == WriteResult(answer) ==> Get(s').result == Some(answer)
    ensures a == Ring(true) ==> Readable(s') && Get(s').result == Get(run.states[k]).result
  {
    var s := run.states[k];
    RunInv(run, k);
    match s.work
    case Queued => a, s' := Begin, s.(work := Running);
    case Running =>
      a, s' := WriteResult(answer), Put(s, Get(s).(result := Some(answer))).(work := Written);
    case Written =>
      var cell := Get(s);
      var rung := if ok then cell.(counter := cell.counter + 1)
                  else if cell.result.Some? && cell.result.value.Value? then cell.(result := Some(Error(RING_ERROR)))
                  else cell;
      a, s' := Ring(ok), Put(s, rung).(work := Rung);
    case Rung => a, s' := ReleaseWork, Release(s, TheWork).(work := Over);
  }

  /**
   * Nor is the coroutine, except while it sleeps: it registers, hands over its work, and once woken
   * or refused it takes its answer and goes on; `ok` says whether the reactor, the pool and the
   * eventfd cooperate.
   */
  lemma FrameGoesOn<T(!new)>(run: Run<T>, k: nat, ok: bool) returns (a: Step<T>, s': Call<T>)
    requires IsRun(run) && k < |run.states|
    requires
      var f := run.states[k].frame;
      f.Fresh? || f.Registered? || f.Woken? || f.Refused? || f.Resumed?
    ensures Next(run.states[k], a, s') && Rank(s'.frame) > Rank(run.states[k].frame)
    ensures a == Register(ok) || a == Spawn(ok) || a == Resume(ok) || a == ReadError(ok) || a == Finish
    ensures (a.Register? || a.Spawn?) ==> (s'.frame.Refused? <==> !ok)
  {
    var s := run.states[k];
    match s.frame
    case Fresh =>
      a := Register(ok);
      s' := if ok then s.(frame := Registered, slot := true)
            else Put(s, Get(s).(result := Some(Error(REFUSED_ERROR)))).(frame := Refused);
    case Registered =>
      a := Spawn(ok);
      var dropped := Release(s, TheWork).(slot := false, work := Over);
      s' := if ok then s.(frame := Suspended, work := Queued)
            else Put(dropped, Get(dropped).(result := Some(Error(REFUSED_ERROR)))).(frame := Refused);
    case Woken => a, s' := Resume(ok), Taken(s, ok);
    case Refused => a, s' := ReadError(ok), Taken(s, ok);
    case Resumed(answer) =>
      var left := Release(s, TheFrame).(frame := Done(answer));
      a, s' := Finish, if s.work == Held then Release(left, TheWork).(work := Over) else left;
  }

  /** A sleeping coroutine can be torn down with its loop at any time. */
  lemma MayBeTornDown<T(!new)>(run: Run<T>, k: nat) returns (s': Call<T>)
    requires IsRun(run) && k < |run.states| && Asleep(run.states[k])
    ensures Next(run.states[k], Teardown, s') && s'.frame == Destroyed
  {
    s' := Release(run.states[k], TheFrame).(frame := Destroyed, loopGone := true);
  }

  // ----- a failed ring, at work -----

  lemma Then<T(!new)>(run: Run<T>, a: Step<T>, s: Call<T>) returns (run': Run<T>)
    requires IsRun(run) && Next(run.states[|run.states| - 1], a, s)
    ensures IsRun(run') && run' == Run(run.states + [s], run.steps + [a])
  {
    run' := Run(run.states + [s], run.steps + [a]);
    forall k | 0 <= k < |run'.steps| ensures StepAt(run', k) {
      assert k < |run.steps| ==> StepAt(run, k);
    }
  }

  /** The worker has come back with 7 for a coroutine that sleeps. */
  lemma AboutToRing() returns (run: Run<int>, s: Call<int>)
    ensures IsRun(run) && run.steps == [Register(true), Spawn(true), Begin, WriteResult(Value(7))]
    ensures s == run.states[4] == Call(
                                    Suspended, Written, true, false,
                                    map[0 := Shared(Some(Value(7)), 0, {TheFrame, TheWork})], 0, false)
  {
    s := StartOf(0);
    run := Run([s], []);
    s := s.(frame := Registered, slot := true);
    run := Then(run, Register(true), s);
    s := s.(frame := Suspended, work := Queued);
    run := Then(run, Spawn(true), s);
    s := s.(work := Running);
    run := Then(run, Begin, s);
    s := s.(heap := map[0 := Shared(Some(Value(7)), 0, {TheFrame, TheWork})], work := Written);
    run := Then(run, WriteResult(Value(7)), s);
  }

  /** The ring fails: the worker is done, the result is lost, and nothing can wake the sleeper. */
  lemma FailedRingExample() returns (run: Run<int>)
    ensures IsRun(run) && |run.states| == 7
    ensures run.steps == [Register(true), Spawn(true), Begin, WriteResult(Value(7)), Ring(false), ReleaseWork]
    ensures run.states[6].frame == Suspended && run.states[6].work == Over
    ensures Get(run.states[6]).result == Some(Error(RING_ERROR))
    ensures forall s' :: !Next(run.states[6], Poll, s')
  {
    var s;
    run, s := AboutToRing();
    s := s.(heap := map[0 := Shared(Some(Error(RING_ERROR)), 0, {TheFrame, TheWork})], work := Rung);
    run := Then(run, Ring(false), s);
    s := s.(heap := map[0 := Shared(Some(Error(RING_ERROR)), 0, {TheFrame})], work := Over);
    assert {TheFrame, TheWork} - {TheWork} == {TheFrame};
    run := Then(run, ReleaseWork, s);
  }

  /** The ring succeeds: the coroutine is woken, gets 7 and goes on, and the shared state is freed. */
  lemma DeliveryExample() returns (run: Run<int>)
    ensures IsRun(run) && |run.states| == 10
    ensures run.steps == [Register(true), Spawn(true), Begin, WriteResult(Value(7)), Ring(true),
                          Poll, Resume(true), ReleaseWork, Finish]
    ensures run.states[9].frame == Done(Some(Value(7))) && run.states[9].heap == map[]
  {
    var s;
    run, s := Woken7();
    assert s.heap[0].counter > 0 && Readable(s);
    s := s.(heap := map[0 := Shared(Some(Value(7)), 0, {TheFrame, TheWork})], frame := Resumed(Some(Value(7))));
    run := Then(run, Resume(true), s);
    assert {TheFrame, TheWork} - {TheWork} == {TheFrame};
    s := s.(heap := map[0 := Shared(Some(Value(7)), 0, {TheFrame})], work := Over);
    run := Then(run, ReleaseWork, s);
    assert s.heap - {0} == map[] && {TheFrame} - {TheFrame} == {};
    s := s.(heap := map[], frame := Done(Some(Value(7))));
    run := Then(run, Finish, s);
  }

  lemma Woken7() returns (run: Run<int>, s: Call<int>)
    ensures IsRun(run) && |run.states| == 7
    ensures run.steps == [Register(true), Spawn(true), Begin, WriteResult(Value(7)), Ring(true), Poll]
    ensures s == run.states[6] == Call(
                                    Frame.Woken, Rung, false, false,
                                    map[0 := Shared(Some(Value(7)), 1, {TheFrame, TheWork})], 0, false)
  {
    run, s := AboutToRing();
    s := s.(heap := map[0 := Shared(Some(Value(7)), 1, {TheFrame, TheWork})], work := Rung);
    run := Then(run, Ring(true), s);
    s := s.(frame := Frame.Woken, slot := false);
    run := Then(run, Poll, s);
  }
}
