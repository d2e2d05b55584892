/**
 * Submitting tasks to an event loop from other threads (src/async/event_loop.hpp). A submitter
 * pushes under the lock and writes the eventfd afterwards, without it; the loop drains the queue
 * and reads the eventfd under the lock. The eventfd is registered edge-triggered: a write is
 * reported by a poll only if it has not been reported yet and the counter is still positive.
 */
module CrossCore {
  import opened Prelude

  type Tid = nat
  type TaskId = nat

  /** Why `run` returned: nothing was owned any more, a stop was requested, or a poll failed. */
  datatype Why = Empty | Stopped | PollFailed

  /**
   * The loop is at its guard (Top), resumes coroutines (Working), is in `epoll_wait` (Polling), has
   * come back from it (Polled), holds the lock in one of its two drains, or has drained because
   * nothing was owned.
   */
  datatype Stage = Top | Working | Polling | Polled | FirstDrain | LastDrain | Drained | Exited(why: Why)

  /**
   * `writers`: submitters that have pushed a task and not yet written; `submitted`: every task ever
   * submitted or spawned; `silent`: those whose submitter's write failed; `stopping`: `request_stop`
   * was called, which any thread may do at any time.
   */
  datatype Loop = Loop(
    stage: Stage, queue: seq<TaskId>, owned: set<TaskId>, completed: set<TaskId>, counter: nat, edge: bool,
    writers: map<Tid, TaskId>, submitted: set<TaskId>, silent: set<TaskId>, stopping: bool)

  datatype Step =
    | Push(t: Tid, task: TaskId)
    | Write(t: Tid, ok: bool)
    | Spawn(task: TaskId)
    | Complete(task: TaskId)
    | DrainMoves
    | DrainReads
    | EnterPoll
    | PollReports
    | PollReturns
    | PollFails
    | EnterRound
    | RequestStop(graceful: bool, ok: bool)
    | Exit

  predicate Locked(s: Loop) { s.stage == FirstDrain || s.stage == LastDrain }

  /** A write that a poll entered now would report at once. */
  predicate Reportable(s: Loop) { s.edge && s.counter > 0 }

  /** A write of the eventfd, which may fail. */
  function Rung(s: Loop, ok: bool): Loop {
    if ok then s.(counter := s.counter + 1, edge := true) else s
  }

  /** A graceful stop only wakes the loop; the services that it cancels are coroutines of the loop. */
  ghost predicate Next(s: Loop, a: Step, s': Loop) {
    match a
    case Push(t, task) =>
      && !Locked(s) && t !in s.writers && task !in s.submitted
      && s' == s.(queue := s.queue + [task], writers := s.writers[t := task], submitted := s.submitted + {task})
    case Write(t, ok) =>
      && t in s.writers
      && s' == Rung(s, ok).(writers := s.writers - {t}, silent := if ok then s.silent else s.silent + {s.writers[t]})
    case Spawn(task) =>
      && s.stage == Working && task !in s.submitted
      && s' == s.(owned := s.owned + {task}, submitted := s.submitted + {task})
    case Complete(task) =>
      s.stage == Working && task in s.owned && s' == s.(owned := s.owned - {task}, completed := s.completed + {task})
    case DrainMoves =>
      && (s.stage == Polled || (s.stage == Working && s.owned == {}))
      && s' == s.(stage := if s.stage == Polled then LastDrain else FirstDrain,
                  queue := [], owned := s.owned + set x | x in s.queue)
    case DrainReads => Locked(s) && s' == s.(stage := if s.stage == LastDrain then Top else Drained, counter := 0)
    case EnterPoll => (s.stage == Working || s.stage == Drained) && s.owned != {} && s' == s.(stage := Polling)
    case PollReports => s.stage == Polling && Reportable(s) && s' == s.(stage := Polled, edge := false)
    case PollReturns => s.stage == Polling && s' == s.(stage := Polled, edge := Reportable(s))
    case PollFails => s.stage == Polling && s' == s.(stage := Exited(PollFailed))
    case EnterRound => s.stage == Top && s' == s.(stage := if s.stopping then Exited(Stopped) else Working)
    case RequestStop(graceful, ok) => s' == Rung(s, ok).(stopping := s.stopping || !graceful)
    case Exit => s.stage == Drained && s.owned == {} && s' == s.(stage := Exited(Empty))
  }

  ghost predicate Start(s: Loop) {
    && s.stage == Top && !s.stopping
    && s.queue == [] && s.completed == {} && s.counter == 0 && !s.edge && s.writers == map[]
    && s.submitted == s.owned && s.silent == {}
  }

  /** Every submitted task is in exactly one place. */
  ghost predicate InOnePlace(s: Loop) {
    && NoDuplicates(s.queue)
    && s.owned !! s.completed
    && (forall x <- s.queue :: x !in s.owned && x !in s.completed)
    && (forall x :: x in s.submitted <==> x in s.queue || x in s.owned || x in s.completed)
  }

  /** `x` was pushed by a submitter that has yet to write the eventfd. */
  ghost predicate AboutToWrite(s: Loop, x: TaskId) {
    exists t :: t in s.writers && s.writers[t] == x
  }

  /** A write waits to be reported, or the submitters of all tasks queued, but `excused`, are about to write. */
  ghost predicate Covered(s: Loop, excused: set<TaskId>) {
    Reportable(s) || forall x <- s.queue :: x in excused || AboutToWrite(s, x)
  }

  /** From the end of a drain to the end of the next poll: the loop counts on being told what is queued. */
  predicate Counting(s: Loop) {
    s.stage == Top || s.stage == Working || s.stage == Drained || s.stage == Polling
  }

  /** Queued tasks are announced or about to be, unless the write failed. */
  ghost predicate Announced(s: Loop) {
    (Locked(s) ==> s.queue == []) && (Counting(s) ==> Covered(s, s.silent))
  }

  /** Every submitter is about to announce a task of its own, for the first time. */
  ghost predicate OwnTasks(s: Loop) {
    && (forall t <- s.writers :: s.writers[t] in s.submitted && s.writers[t] !in s.silent)
    && (forall t, u :: t in s.writers && u in s.writers && t != u ==> s.writers[t] != s.writers[u])
    && s.silent <= s.submitted
  }

  ghost predicate Inv(s: Loop) {
    InOnePlace(s) && OwnTasks(s) && Announced(s)
  }

  lemma PushKeeps(s: Loop, t: Tid, task: TaskId, s': Loop)
    requires Inv(s) && Next(s, Push(t, task), s')
    ensures Inv(s')
  {
    forall x ensures Count(s'.queue, x) <= 1 {
      assert Count(s.queue, x) <= 1;
      assert x == task ==> x !in s.queue;
    }
    assert s'.writers[t] == task;
    forall x | x in s'.queue && (x == task || AboutToWrite(s, x)) ensures AboutToWrite(s', x) {
      if x != task {
        var u :| u in s.writers && s.writers[u] == x;
        assert u in s'.writers && s'.writers[u] == x;
      }
    }
  }

  lemma WriteKeeps(s: Loop, t: Tid, ok: bool, s': Loop)
    requires Inv(s) && Next(s, Write(t, ok), s')
    ensures Inv(s')
  {
    forall x | AboutToWrite(s, x) ensures x == s.writers[t] || AboutToWrite(s', x) {
      var u :| u in s.writers && s.writers[u] == x;
      assert u != t ==> u in s'.writers && s'.writers[u] == x;
    }
  }

  lemma DrainKeeps(s: Loop, s': Loop)
    requires Inv(s) && Next(s, DrainMoves, s')
    ensures Inv(s')
  {
  }

  lemma OtherKeeps(s: Loop, a: Step, s': Loop)
    requires Inv(s) && Next(s, a, s') && !a.Push? && !a.Write? && !a.DrainMoves?
    ensures Inv(s')
  {
    assert forall x :: AboutToWrite(s, x) ==> AboutToWrite(s', x);
  }

  /** Every step of the loop and of any number of submitters keeps the invariant. */
  lemma NextKeeps(s: Loop, a: Step, s': Loop)
    requires Inv(s) && Next(s, a, s')
    ensures Inv(s')
  {
    match a
    case Push(t, task) => PushKeeps(s, t, task, s');
    case Write(t, ok) => WriteKeeps(s, t, ok, s');
    case DrainMoves => DrainKeeps(s, s');
    case _ => OtherKeeps(s, a, s');
  }

  /**
   * If everything queued was covered so far, a failed write leaves it so if and only if another
   * write is still to be reported or a drain has already taken the task.
   */
  lemma FailedWriteIsHarmlessIff(s: Loop, t: Tid, s': Loop)
    requires Inv(s) && Covered(s, {}) && Next(s, Write(t, false), s')
    ensures Covered(s', {}) <==> Reportable(s) || s.writers[t] !in s.queue
  {
    var task := s.writers[t];
    assert !AboutToWrite(s', task);
    forall x | x in s.queue && x != task && AboutToWrite(s, x) ensures AboutToWrite(s', x) {
      var u :| u in s.writers && s.writers[u] == x;
      assert u in s'.writers && s'.writers[u] == x;
    }
  }

  // ----- runs -----

  datatype Run = Run(states: seq<Loop>, steps: seq<Step>)

  ghost predicate IsRun(run: Run) {
    && |run.states| == |run.steps| + 1
    && Start(run.states[0])
    && forall k {:trigger StepAt(run, k)} :: 0 <= k < |run.steps| ==> StepAt(run, k)
  }

  ghost predicate StepAt(run: Run, k: nat)
    requires k < |run.steps| && k + 1 < |run.states|
  {
    Next(run.states[k], run.steps[k], run.states[k + 1])
  }

  lemma {:induction false} RunInv(run: Run, k: nat)
    requires IsRun(run) && k < |run.states|
    ensures Inv(run.states[k])
  {
    if k > 0 {
      RunInv(run, k - 1);
      assert StepAt(run, k - 1);
      NextKeeps(run.states[k - 1], run.steps[k - 1], run.states[k]);
    }
  }

  /** A write of the submitter of `task` has failed before state `k`. */
  ghost predicate FailedBefore(run: Run, k: nat, task: TaskId)
    requires k < |run.states| && |run.states| == |run.steps| + 1
  {
    exists j :: 0 <= j < k && FailedAt(run, j, task)
  }

  ghost predicate FailedAt(run: Run, j: nat, task: TaskId)
    requires j < |run.steps| && j < |run.states|
  {
    var a, s := run.steps[j], run.states[j];
    a.Write? && !a.ok && a.t in s.writers && s.writers[a.t] == task
  }

  lemma {:induction false} SilentIffFailed(run: Run, k: nat, task: TaskId)
    requires IsRun(run) && k < |run.states|
    ensures task in run.states[k].silent <==> FailedBefore(run, k, task)
  {
    if k > 0 {
      SilentIffFailed(run, k - 1, task);
      assert StepAt(run, k - 1);
      assert FailedBefore(run, k, task) <==> FailedBefore(run, k - 1, task) || FailedAt(run, k - 1, task);
    }
  }

  /**
   * No lost wake-up: whenever the loop polls with tasks queued, a write is waiting to be reported,
   * or every queued task's submitter is still between its push and its write, or has seen the
   * write fail.
   */
  lemma PollSeesSubmissions(run: Run, k: nat)
    requires IsRun(run) && k < |run.states| && run.states[k].stage == Polling
    ensures Reportable(run.states[k]) ||
            forall x <- run.states[k].queue :: AboutToWrite(run.states[k], x) || FailedBefore(run, k, x)
  {
    RunInv(run, k);
    forall x | x in run.states[k].queue && x in run.states[k].silent ensures FailedBefore(run, k, x) {
      SilentIffFailed(run, k, x);
    }
  }

  /** Step `j` is a write of the eventfd that succeeds. */
  ghost predicate RingsAt(run: Run, j: nat)
    requires j < |run.steps|
  {
    (run.steps[j].Write? || run.steps[j].RequestStop?) && run.steps[j].ok
  }

  lemma {:induction false} EdgeNeedsRing(run: Run, i: nat, k: nat)
    requires IsRun(run) && i <= k < |run.states| && !run.states[i].edge && run.states[k].edge
    ensures exists j :: i <= j < k && RingsAt(run, j)
  {
    assert StepAt(run, k - 1);
    if run.states[k - 1].edge {
      EdgeNeedsRing(run, i, k - 1);
      var j :| i <= j < k - 1 && RingsAt(run, j);
      assert i <= j < k;
    } else {
      assert RingsAt(run, k - 1);
    }
  }

  /** Edge-triggered: a poll that reports ends, and another reports only after another write. */
  lemma ReportedOnce(run: Run, i: nat, k: nat)
    requires IsRun(run) && i < k < |run.steps| && run.steps[i] == PollReports && run.steps[k] == PollReports
    ensures run.states[i + 1].stage == Polled
    ensures exists j :: i < j < k && RingsAt(run, j)
  {
    assert StepAt(run, i);
    assert StepAt(run, k);
    EdgeNeedsRing(run, i + 1, k);
  }

  ghost predicate DrainedBetween(run: Run, i: int, k: int) {
    exists j :: i < j < k && 0 <= j < |run.steps| && run.steps[j] == DrainMoves
  }

  /** A pushed task stays queued until the next drain, and is never queued again. */
  lemma {:induction false} QueuedUntilDrain(run: Run, i: nat, k: nat, t: Tid, task: TaskId)
    requires IsRun(run) && i < k < |run.states| && run.steps[i] == Push(t, task)
    ensures task in run.states[k].submitted
    ensures task in run.states[k].queue <==> !DrainedBetween(run, i, k)
  {
    assert StepAt(run, k - 1);
    if i + 1 == k {
      assert !DrainedBetween(run, i, k);
      assert run.states[k].queue[|run.states[k].queue| - 1] == task;
    } else {
      QueuedUntilDrain(run, i, k - 1, t, task);
      assert DrainedBetween(run, i, k) <==> DrainedBetween(run, i, k - 1) || run.steps[k - 1] == DrainMoves;
    }
  }

  /** Whatever has run was drained after its submission, in every state of every run. */
  lemma CompletedWasDrained(run: Run, i: nat, k: nat, t: Tid, task: TaskId)
    requires IsRun(run) && i < k < |run.states| && run.steps[i] == Push(t, task) && task in run.states[k].completed
    ensures DrainedBetween(run, i, k)
  {
    QueuedUntilDrain(run, i, k, t, task);
    RunInv(run, k);
  }

  /**
   * When the loop has exited because nothing was owned, a submitted task has run if and only if a
   * drain followed its submission.
   */
  lemma RunsIffDrained(run: Run, i: nat, k: nat, t: Tid, task: TaskId)
    requires IsRun(run) && i < k < |run.states| && run.steps[i] == Push(t, task) && run.states[k].stage == Exited(Empty)
    ensures task in run.states[k].completed <==> DrainedBetween(run, i, k)
  {
    QueuedUntilDrain(run, i, k, t, task);
    RunInv(run, k);
    ExitedOwnsNothing(run, k);
  }

  lemma {:induction false} ExitedOwnsNothing(run: Run, k: nat)
    requires IsRun(run) && k < |run.states| && run.states[k].stage == Exited(Empty)
    ensures run.states[k].owned == {}
  {
    assert StepAt(run, k - 1);
    if run.states[k - 1].stage == Exited(Empty) {
      ExitedOwnsNothing(run, k - 1);
    }
  }

  /**
   * However the loop has exited, a submitted task has run if and only if a drain followed its
   * submission and the task is not among those still owned at the exit.
   */
  lemma RunsIffDrainedAndNotOwned(run: Run, i: nat, k: nat, t: Tid, task: TaskId)
    requires IsRun(run) && i < k < |run.states| && run.steps[i] == Push(t, task) && run.states[k].stage.Exited?
    ensures task in run.states[k].completed <==> DrainedBetween(run, i, k) && task !in run.states[k].owned
  {
    QueuedUntilDrain(run, i, k, t, task);
    RunInv(run, k);
  }

  /** A task spawned on the loop's own thread is never queued: it has run or is still owned. */
  lemma SpawnedRunsIffNotOwned(run: Run, i: nat, k: nat, task: TaskId)
    requires IsRun(run) && i < k < |run.states| && run.steps[i] == Spawn(task)
    ensures task in run.states[k].completed <==> task !in run.states[k].owned
  {
    NeverQueued(run, i, k, task);
    RunInv(run, k);
  }

  lemma {:induction false} NeverQueued(run: Run, i: nat, k: nat, task: TaskId)
    requires IsRun(run) && i < k < |run.states| && run.steps[i] == Spawn(task)
    ensures task !in run.states[k].queue && task in run.states[k].submitted
  {
    assert StepAt(run, k - 1);
    RunInv(run, k);
    if i + 1 < k {
      NeverQueued(run, i, k - 1, task);
    }
  }

  /** A task has completed exactly if a step completed it. */
  lemma {:induction false} CompletedIffRan(run: Run, k: nat, task: TaskId)
    requires IsRun(run) && k < |run.states|
    ensures task in run.states[k].completed <==> exists j :: 0 <= j < k && run.steps[j] == Complete(task)
  {
    if k > 0 {
      CompletedIffRan(run, k - 1, task);
      assert StepAt(run, k - 1);
      assert (exists j :: 0 <= j < k && run.steps[j] == Complete(task)) <==>
               (exists j :: 0 <= j < k - 1 && run.steps[j] == Complete(task)) || run.steps[k - 1] == Complete(task);
    }
  }

  ghost predicate StopRequestedBefore(run: Run, k: int) {
    exists j :: 0 <= j < k && j < |run.steps| && run.steps[j].RequestStop? && !run.steps[j].graceful
  }

  lemma {:induction false} StoppingIffRequested(run: Run, k: nat)
    requires IsRun(run) && k < |run.states|
    ensures run.states[k].stopping <==> StopRequestedBefore(run, k)
  {
    if k > 0 {
      StoppingIffRequested(run, k - 1);
      assert StepAt(run, k - 1);
      assert StopRequestedBefore(run, k) <==>
               StopRequestedBefore(run, k - 1) || (run.steps[k - 1].RequestStop? && !run.steps[k - 1].graceful);
    }
  }

  /** The loop leaves at its guard exactly if a stop was requested before, and a graceful stop is none. */
  lemma LeavesIffStopped(run: Run, k: nat)
    requires IsRun(run) && k < |run.steps| && run.steps[k] == EnterRound
    ensures run.states[k + 1].stage == if StopRequestedBefore(run, k) then Exited(Stopped) else Working
  {
    StoppingIffRequested(run, k);
    assert StepAt(run, k);
  }

  /** How the loop can leave: at its guard, with nothing owned, or because a poll failed; then it is gone for good. */
  lemma {:induction false} ExitIsFinal(run: Run, i: nat, k: nat)
    requires IsRun(run) && i < k < |run.states|
    ensures run.states[i].stage.Exited? ==> run.states[k].stage == run.states[i].stage
    ensures run.steps[i] == PollFails ==> run.states[k].stage == Exited(PollFailed)
    ensures run.steps[i] == Exit ==> run.states[k].stage == Exited(Empty)
  {
    assert StepAt(run, i);
    assert StepAt(run, k - 1);
    if i + 1 < k {
      ExitIsFinal(run, i, k - 1);
    }
  }

  ghost predicate Before(queue: seq<TaskId>, x: TaskId, y: TaskId) {
    exists i, j :: 0 <= i < j < |queue| && queue[i] == x && queue[j] == y
  }

  /** A step adds to the queue at its end, or empties it. */
  lemma QueueStep(s: Loop, a: Step, s': Loop, x: TaskId, y: TaskId)
    requires InOnePlace(s) && Next(s, a, s') && x in s'.queue && y in s'.queue && x in s.submitted
    ensures x in s.queue
    ensures y in s.submitted ==> y in s.queue && (Before(s.queue, x, y) ==> Before(s'.queue, x, y))
    ensures y !in s.submitted ==> Before(s'.queue, x, y)
  {
    var q, q' := s.queue, s'.queue;
    assert q' == if a.Push? then q + [a.task] else q;
    var m :| 0 <= m < |q| && q[m] == x;
    assert q'[m] == x;
    if y !in s.submitted {
      assert y == a.task && q'[|q|] == y;
    } else if Before(q, x, y) {
      var i, j :| 0 <= i < j < |q| && q[i] == x && q[j] == y;
      assert q'[i] == x && q'[j] == y;
    }
  }

  /** Of two tasks that are both queued, the one submitted first comes first. */
  lemma {:induction false} QueuedInOrder(run: Run, i: nat, j: nat, k: nat, x: TaskId, y: TaskId, t: Tid, u: Tid)
    requires IsRun(run) && i < j < k < |run.states| && run.steps[i] == Push(t, x) && run.steps[j] == Push(u, y)
    requires x in run.states[k].queue && y in run.states[k].queue
    ensures Before(run.states[k].queue, x, y)
  {
    assert StepAt(run, k - 1);
    RunInv(run, k - 1);
    QueuedUntilDrain(run, i, k - 1, t, x);
    QueueStep(run.states[k - 1], run.steps[k - 1], run.states[k], x, y);
    if j + 1 < k {
      QueuedUntilDrain(run, j, k - 1, u, y);
      QueuedInOrder(run, i, j, k - 1, x, y, t, u);
    }
  }

  // ----- witnesses -----

  function LastOf(run: Run): Loop
    requires run.states != []
  {
    run.states[|run.states| - 1]
  }

  lemma Then(run: Run, a: Step, s: Loop) returns (run': Run)
    requires IsRun(run) && Next(LastOf(run), a, s)
    ensures IsRun(run') && run' == Run(run.states + [s], run.steps + [a])
  {
    run' := Run(run.states + [s], run.steps + [a]);
    forall k | 0 <= k < |run'.steps| ensures StepAt(run', k) {
      assert k < |run.steps| ==> StepAt(run, k);
    }
  }

  /** A loop that owns the tasks `owned`, before its first round. */
  lemma Begin(owned: set<TaskId>) returns (run: Run)
    ensures IsRun(run) && run == Run([Loop(Top, [], owned, {}, 0, false, map[], owned, {}, false)], [])
  {
    run := Run([Loop(Top, [], owned, {}, 0, false, map[], owned, {}, false)], []);
  }

  lemma DrainedForTheLastTime() returns (run: Run)
    ensures IsRun(run) && run.steps == [EnterRound, DrainMoves, DrainReads]
    ensures LastOf(run) == Loop(Drained, [], {}, {}, 0, false, map[], {}, {}, false)
  {
    run := Begin({});
    run := Then(run, EnterRound, LastOf(run).(stage := Working));
    run := Then(run, DrainMoves, LastOf(run).(stage := FirstDrain));
    run := Then(run, DrainReads, LastOf(run).(stage := Drained));
  }

  /** The window: a task submitted between the last drain and the exit is accepted and never run. */
  lemma LateSubmitIsLeft() returns (run: Run)
    ensures IsRun(run) && run.steps == [EnterRound, DrainMoves, DrainReads, Push(0, 7), Exit, Write(0, true)]
    ensures LastOf(run).stage == Exited(Empty) && LastOf(run).queue == [7]
  {
    run := DrainedForTheLastTime();
    run := Then(run, Push(0, 7), LastOf(run).(queue := [7], writers := map[0 := 7], submitted := {7}));
    run := Then(run, Exit, LastOf(run).(stage := Exited(Empty)));
    run := Then(run, Write(0, true), LastOf(run).(counter := 1, edge := true, writers := LastOf(run).writers - {0}));
  }

  /** Whatever the loop owns when it comes to its guard may be left behind by a stop request. */
  lemma StopMayLeave(run: Run) returns (run': Run)
    requires IsRun(run) && LastOf(run).stage == Top
    ensures IsRun(run') && run'.steps == run.steps + [RequestStop(false, true), EnterRound]
    ensures LastOf(run').stage == Exited(Stopped) && LastOf(run').owned == LastOf(run).owned
  {
    var s := LastOf(run);
    run' := Then(run, RequestStop(false, true), s.(stopping := true, counter := s.counter + 1, edge := true));
    run' := Then(run', EnterRound, LastOf(run').(stage := Exited(Stopped)));
  }

  lemma SubmittedDuringPoll() returns (run: Run)
    ensures IsRun(run) && run.steps == [Push(0, 7), EnterRound, EnterPoll, PollReturns]
    ensures LastOf(run) == Loop(Polled, [7], {1}, {}, 0, false, map[0 := 7], {1, 7}, {}, false)
  {
    run := Begin({1});
    run := Then(run, Push(0, 7), Loop(Top, [7], {1}, {}, 0, false, map[0 := 7], {1, 7}, {}, false));
    run := Then(run, EnterRound, Loop(Working, [7], {1}, {}, 0, false, map[0 := 7], {1, 7}, {}, false));
    run := Then(run, EnterPoll, Loop(Polling, [7], {1}, {}, 0, false, map[0 := 7], {1, 7}, {}, false));
    run := Then(run, PollReturns, Loop(Polled, [7], {1}, {}, 0, false, map[0 := 7], {1, 7}, {}, false));
  }

  /** So draining does not suffice when the loop is stopped: task 7 is drained and never run. */
  lemma StopLeavesDrained() returns (run: Run)
    ensures IsRun(run)
    ensures run.steps == [Push(0, 7), EnterRound, EnterPoll, PollReturns, DrainMoves, DrainReads,
                          RequestStop(false, true), EnterRound]
    ensures LastOf(run).stage == Exited(Stopped) && 7 in LastOf(run).owned
  {
    run := SubmittedDuringPoll();
    run := Then(run, DrainMoves, LastOf(run).(stage := LastDrain, queue := [], owned := {1} + set x | x in [7]));
    run := Then(run, DrainReads, LastOf(run).(stage := Top));
    run := StopMayLeave(run);
  }

  /** Task 7 is submitted while the loop owns task 1, and announced; the loop is told and takes it over. */
  lemma TakenOver() returns (run: Run)
    ensures IsRun(run)
    ensures run.steps == [Push(0, 7), Write(0, true), EnterRound, EnterPoll, PollReports, DrainMoves, DrainReads]
    ensures LastOf(run) == Loop(Top, [], {1, 7}, {}, 0, false, map[], {1, 7}, {}, false)
  {
    run := Announced7();
    run := Then(run, EnterPoll, LastOf(run).(stage := Polling));
    run := Then(run, PollReports, LastOf(run).(stage := Polled, edge := false));
    run := Then(run, DrainMoves, LastOf(run).(stage := LastDrain, queue := [], owned := {1} + set x | x in [7]));
    run := Then(run, DrainReads, LastOf(run).(stage := Top, counter := 0));
    assert LastOf(run).owned == {1, 7};
  }

  lemma Announced7() returns (run: Run)
    ensures IsRun(run) && run.steps == [Push(0, 7), Write(0, true), EnterRound]
    ensures LastOf(run) == Loop(Working, [7], {1}, {}, 1, true, map[], {1, 7}, {}, false)
  {
    run := Begin({1});
    run := Then(run, Push(0, 7), Loop(Top, [7], {1}, {}, 0, false, map[0 := 7], {1, 7}, {}, false));
    assert map[0 := 7] - {0} == map[];
    run := Then(run, Write(0, true), Loop(Top, [7], {1}, {}, 1, true, map[], {1, 7}, {}, false));
    run := Then(run, EnterRound, LastOf(run).(stage := Working));
  }

  /** Both tasks, and one that is spawned meanwhile, run to their ends, and the loop leaves with nothing left. */
  lemma AllRunExample() returns (run: Run)
    ensures IsRun(run)
    ensures run.steps == [Push(0, 7), Write(0, true), EnterRound, EnterPoll, PollReports, DrainMoves, DrainReads,
                          EnterRound, Spawn(9), Complete(7), Complete(1), Complete(9), DrainMoves, DrainReads, Exit]
    ensures LastOf(run).stage == Exited(Empty) && LastOf(run).completed == {1, 7, 9} && LastOf(run).queue == []
  {
    run := AllDone();
    run := Then(run, DrainMoves, LastOf(run).(stage := FirstDrain));
    run := Then(run, DrainReads, LastOf(run).(stage := Drained));
    run := Then(run, Exit, LastOf(run).(stage := Exited(Empty)));
  }

  lemma AllDone() returns (run: Run)
    ensures IsRun(run)
    ensures run.steps == [Push(0, 7), Write(0, true), EnterRound, EnterPoll, PollReports, DrainMoves, DrainReads,
                          EnterRound, Spawn(9), Complete(7), Complete(1), Complete(9)]
    ensures LastOf(run) == Loop(Working, [], {}, {1, 7, 9}, 0, false, map[], {1, 7, 9}, {}, false)
  {
    run := TakenOver();
    run := Then(run, EnterRound, LastOf(run).(stage := Working));
    run := Then(run, Spawn(9), LastOf(run).(owned := {1, 7, 9}, submitted := {1, 7, 9}));
    run := Then(run, Complete(7), LastOf(run).(owned := {1, 9}, completed := {7}));
    run := Then(run, Complete(1), LastOf(run).(owned := {9}, completed := {1, 7}));
    run := Then(run, Complete(9), LastOf(run).(owned := {}, completed := {1, 7, 9}));
  }

  lemma WriteFailed() returns (run: Run)
    ensures IsRun(run) && run.steps == [Push(0, 7), Write(0, false)]
    ensures LastOf(run) == Loop(Top, [7], {1}, {}, 0, false, map[], {1, 7}, {7}, false)
  {
    run := Begin({1});
    run := Then(run, Push(0, 7), Loop(Top, [7], {1}, {}, 0, false, map[0 := 7], {1, 7}, {}, false));
    assert map[0 := 7] - {0} == map[];
    run := Then(run, Write(0, false), Loop(Top, [7], {1}, {}, 0, false, map[], {1, 7}, {7}, false));
  }

  /** After a failed write the loop polls with task 7 queued, and neither a write nor a writer is there to tell it. */
  lemma FailedWriteExample() returns (run: Run)
    ensures IsRun(run) && run.steps == [Push(0, 7), Write(0, false), EnterRound, EnterPoll]
    ensures LastOf(run).stage == Polling && LastOf(run).queue == [7] && !Covered(LastOf(run), {})
  {
    run := WriteFailed();
    run := Then(run, EnterRound, LastOf(run).(stage := Working));
    run := Then(run, EnterPoll, LastOf(run).(stage := Polling));
    assert 7 in LastOf(run).queue;
  }

  // ----- the loop's own containers -----

  /** The containers of an event loop, as far as cross-core submission goes, next to the state they stand for. */
  class LoopQueues {
    var ownedTasks: seq<TaskId>
    var readyQueue: seq<TaskId>
    var crossCoreQueue: seq<TaskId>
    var eventCounter: nat

    ghost var view: Loop

    ghost predicate Valid()
      reads this
    {
      && Inv(view)
      && view.queue == crossCoreQueue && view.counter == eventCounter
      && view.owned == (set x | x in ownedTasks) && NoDuplicates(ownedTasks)
    }

    /**
     * `drain_cross_core`, with the lock held: a DrainMoves and a DrainReads step. Every queued task
     * becomes owned and ready, in order, and nothing is owned twice.
     */
    method DrainCrossCore()
      requires Valid() && (view.stage == Polled || (view.stage == Working && view.owned == {}))
      modifies this
      ensures Valid()
      ensures exists middle :: Next(old(view), DrainMoves, middle) && Next(middle, DrainReads, view)
      ensures ownedTasks == old(ownedTasks) + old(crossCoreQueue)
      ensures readyQueue == old(readyQueue) + old(crossCoreQueue)
      ensures crossCoreQueue == [] && eventCounter == 0
    {
      ghost var middle, after := DrainSteps(view);
      NoneOwnedTwice(ownedTasks, crossCoreQueue, view);
      var tasks := crossCoreQueue;
      for i := 0 to |tasks|
        invariant ownedTasks == old(ownedTasks) + tasks[..i]
        invariant readyQueue == old(readyQueue) + tasks[..i]
      {
        readyQueue := readyQueue + [tasks[i]];
        ownedTasks := ownedTasks + [tasks[i]];
        assert tasks[..i + 1] == tasks[..i] + [tasks[i]];
      }
      assert tasks[..|tasks|] == tasks;
      crossCoreQueue := [];
      eventCounter := 0;
      view := after;
    }
  }

  /** The two steps of a drain, when nothing comes between them. */
  lemma DrainSteps(s: Loop) returns (middle: Loop, after: Loop)
    requires Inv(s) && (s.stage == Polled || (s.stage == Working && s.owned == {}))
    ensures Next(s, DrainMoves, middle) && Next(middle, DrainReads, after) && Inv(after)
    ensures after.queue == [] && after.counter == 0 && after.owned == s.owned + set x | x in s.queue
  {
    middle := s.(stage := if s.stage == Polled then LastDrain else FirstDrain,
                 queue := [], owned := s.owned + set x | x in s.queue);
    after := middle.(stage := if middle.stage == LastDrain then Top else Drained, counter := 0);
    NextKeeps(s, DrainMoves, middle);
    NextKeeps(middle, DrainReads, after);
  }

  lemma NoneOwnedTwice(ownedTasks: seq<TaskId>, queue: seq<TaskId>, s: Loop)
    requires InOnePlace(s) && s.queue == queue && s.owned == (set x | x in ownedTasks) && NoDuplicates(ownedTasks)
    ensures NoDuplicates(ownedTasks + queue)
    ensures (set x | x in ownedTasks + queue) == s.owned + set x | x in queue
  {
    forall x ensures Count(ownedTasks + queue, x) <= 1 {
      assert Count(ownedTasks, x) <= 1 && Count(queue, x) <= 1;
      assert x in queue ==> x !in s.owned;
    }
  }
}
