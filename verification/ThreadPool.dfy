/**
 * The thread pool of src/runtime/thread_pool.hpp over its task channel: submitters, workers and
 * the thread that shuts the pool down, interleaved critical section by critical section. A task
 * that was accepted is named by its position in the order of acceptance.
 */
module ThreadPool {
  import opened Prelude
  import opened ChannelSpec

  /** Where a worker stands in `worker_loop`. */
  datatype Worker = Fetching | Waiting | Running(i: nat) | Exited

  /** How far the one effective call of `shutdown` has come. */
  datatype Phase = Open | Closing | Joining | Returned

  /** `ran` lists the accepted tasks that have finished, in the order they finished. */
  datatype Pool<T> = Pool(tasks: Chan<T>, workers: map<Tid, Worker>, ran: seq<nat>, phase: Phase)

  datatype Move<T> =
    | Spawn(t: Tid, task: T)
    | Submit(t: Tid, task: T)
    | SubmitAgain(t: Tid)
    | Fetch(w: Tid)
    | FetchAgain(w: Tid)
    | Finish(w: Tid)
    | Spurious(t: Tid)
    | ShutdownBegins
    | ShutdownCloses
    | ShutdownReturns

  /** What the reply of `recv` makes of a worker; an item received now has the next position. */
  function AfterRecv<T>(tasks: Chan<T>, r: Reply<T>): Worker {
    if r.Got? then Running(|tasks.received|) else if r == Blocked then Waiting else Exited
  }

  ghost predicate Next<T>(p: Pool<T>, m: Move<T>, r: Reply<T>, p': Pool<T>) {
    match m
    case Spawn(t, task) =>
      t !in p.workers && Step(p.tasks, TrySend(t, task), r, p'.tasks) && p' == p.(tasks := p'.tasks)
    case Submit(t, task) =>
      t !in p.workers && Step(p.tasks, StartSend(t, task), r, p'.tasks) && p' == p.(tasks := p'.tasks)
    case SubmitAgain(t) =>
      t !in p.workers && Step(p.tasks, ResumeSend(t), r, p'.tasks) && p' == p.(tasks := p'.tasks)
    case Fetch(w) =>
      && w in p.workers && p.workers[w] == Fetching && Step(p.tasks, StartRecv(w), r, p'.tasks)
      && p' == p.(tasks := p'.tasks, workers := p.workers[w := AfterRecv(p.tasks, r)])
    case FetchAgain(w) =>
      && w in p.workers && p.workers[w] == Waiting && Step(p.tasks, ResumeRecv(w), r, p'.tasks)
      && p' == p.(tasks := p'.tasks, workers := p.workers[w := AfterRecv(p.tasks, r)])
    case Finish(w) =>
      && w in p.workers && p.workers[w].Running? && r == Nothing
      && p' == Finished(p, w)
    case Spurious(t) => Step(p.tasks, Stir(t), r, p'.tasks) && p' == p.(tasks := p'.tasks)
    case ShutdownBegins => p.phase == Open && r == Nothing && p' == p.(phase := Closing)
    case ShutdownCloses =>
      p.phase == Closing && Step(p.tasks, Close, r, p'.tasks) && p' == p.(tasks := p'.tasks, phase := Joining)
    case ShutdownReturns =>
      && p.phase == Joining && (forall w <- p.workers :: p.workers[w] == Exited)
      && r == Nothing && p' == p.(phase := Returned)
  }

  ghost predicate Start<T>(p: Pool<T>) {
    && p.tasks == Empty(p.tasks.capacity) && p.ran == [] && p.phase == Open
    && forall w <- p.workers :: p.workers[w] == Fetching
  }

  ghost predicate Held<T>(p: Pool<T>, i: nat) {
    exists w :: w in p.workers && p.workers[w] == Running(i)
  }

  /** Received tasks are either finished or in the hands of exactly one worker. */
  ghost predicate Handled<T>(p: Pool<T>) {
    && NoDuplicates(p.ran)
    && (forall i <- p.ran :: i < |p.tasks.received| && !Held(p, i))
    && (forall w <- p.workers :: p.workers[w].Running? ==> p.workers[w].i < |p.tasks.received|)
    && (forall w, w' :: w in p.workers && w' in p.workers && w != w' && p.workers[w].Running? ==>
          p.workers[w] != p.workers[w'])
    && (forall i: nat :: i < |p.tasks.received| ==> i in p.ran || Held(p, i))
  }

  /** Workers wait in the channel exactly when they say so, and leave only once it is closed and drained. */
  ghost predicate Manned<T>(p: Pool<T>) {
    && (forall w <- p.workers :: p.workers[w] == Waiting <==> w in p.tasks.waits)
    && (forall w <- p.workers :: p.workers[w] == Waiting ==> p.tasks.waits[w].OnNotEmpty?)
    && (forall w <- p.workers :: p.workers[w] == Exited ==> p.tasks.closed && p.tasks.queue == [])
    && (p.workers.Keys == {} ==> p.tasks.received == [])
    && (p.phase.Joining? || p.phase.Returned? ==> p.tasks.closed)
    && (p.phase == Returned ==> forall w <- p.workers :: p.workers[w] == Exited)
  }

  ghost predicate PoolInv<T>(p: Pool<T>) {
    Inv(p.tasks) && Handled(p) && Manned(p)
  }

  /** A step of one thread leaves the other threads waiting where they were. */
  lemma WaitsOfOthers<T>(s: Chan<T>, a: Action<T>, r: Reply<T>, s': Chan<T>, w: Tid)
    requires Step(s, a, r, s') && (a.Close? || a.Stir? || a.t != w)
    ensures w in s.waits <==> w in s'.waits
    ensures w in s.waits ==> (s.waits[w].OnNotEmpty? <==> s'.waits[w].OnNotEmpty?)
  {
  }

  lemma OwnWait<T>(s: Chan<T>, w: Tid, a: Action<T>, r: Reply<T>, s': Chan<T>)
    requires Step(s, a, r, s') && (a == StartRecv(w) || a == ResumeRecv(w))
    ensures w in s'.waits <==> r == Blocked
    ensures r == Blocked ==> s'.waits[w].OnNotEmpty?
    ensures r.Got? || r == Blocked || r == Nothing
    ensures r == Nothing ==> s'.closed && s'.queue == []
  {
  }

  lemma DrainedStays<T>(s: Chan<T>, a: Action<T>, r: Reply<T>, s': Chan<T>)
    requires Step(s, a, r, s') && s.closed && s.queue == []
    ensures s'.closed && s'.queue == []
  {
  }

  /** Moves that do not touch a worker: the channel steps of submitters, of the clock and of `close`. */
  lemma OutsideKeeps<T>(p: Pool<T>, a: Action<T>, r: Reply<T>, p': Pool<T>)
    requires PoolInv(p) && Step(p.tasks, a, r, p'.tasks) && p' == p.(tasks := p'.tasks)
    requires a.Close? || a.Stir? || ((a.TrySend? || a.StartSend? || a.ResumeSend?) && a.t !in p.workers)
    ensures PoolInv(p')
  {
    StepKeeps(p.tasks, a, r, p'.tasks);
    RepliesTell(p.tasks, a, r, p'.tasks);
    assert p'.tasks.received == p.tasks.received;
    assert forall i :: Held(p', i) <==> Held(p, i);
    forall w | w in p.workers
      ensures w in p.tasks.waits <==> w in p'.tasks.waits
      ensures w in p.tasks.waits ==> (p.tasks.waits[w].OnNotEmpty? <==> p'.tasks.waits[w].OnNotEmpty?)
    {
      WaitsOfOthers(p.tasks, a, r, p'.tasks, w);
    }
    if p.tasks.closed && p.tasks.queue == [] {
      DrainedStays(p.tasks, a, r, p'.tasks);
    }
  }

  /** A worker's step into the channel. */
  lemma FetchKeeps<T>(p: Pool<T>, w: Tid, a: Action<T>, r: Reply<T>, p': Pool<T>)
    requires PoolInv(p) && w in p.workers && (p.workers[w] == Fetching || p.workers[w] == Waiting)
    requires Step(p.tasks, a, r, p'.tasks) && (a == StartRecv(w) || a == ResumeRecv(w))
    requires p' == p.(tasks := p'.tasks, workers := p.workers[w := AfterRecv(p.tasks, r)])
    ensures PoolInv(p')
  {
    StepKeeps(p.tasks, a, r, p'.tasks);
    RepliesTell(p.tasks, a, r, p'.tasks);
    OwnWait(p.tasks, w, a, r, p'.tasks);
    FetchHandled(p, w, r, p');
    forall x | x in p.workers && x != w
      ensures x in p.tasks.waits <==> x in p'.tasks.waits
      ensures x in p.tasks.waits ==> (p.tasks.waits[x].OnNotEmpty? <==> p'.tasks.waits[x].OnNotEmpty?)
    {
      WaitsOfOthers(p.tasks, a, r, p'.tasks, x);
    }
    if p.tasks.closed && p.tasks.queue == [] {
      DrainedStays(p.tasks, a, r, p'.tasks);
    }
  }

  lemma FetchHandled<T>(p: Pool<T>, w: Tid, r: Reply<T>, p': Pool<T>)
    requires Handled(p) && w in p.workers && !p.workers[w].Running?
    requires p'.tasks.received == p.tasks.received + (if r.Got? then [r.value] else [])
    requires p'.ran == p.ran && p'.workers == p.workers[w := AfterRecv(p.tasks, r)]
    ensures Handled(p')
  {
    var n := |p.tasks.received|;
    forall i: nat | i < n ensures Held(p', i) <==> Held(p, i) {
      if Held(p, i) {
        var x :| x in p.workers && p.workers[x] == Running(i);
        assert p'.workers[x] == Running(i);
      }
      if Held(p', i) {
        var x :| x in p'.workers && p'.workers[x] == Running(i);
        assert p.workers[x] == Running(i);
      }
    }
    if r.Got? {
      assert p'.workers[w] == Running(n);
    }
  }

  function Finished<T>(p: Pool<T>, w: Tid): Pool<T>
    requires w in p.workers && p.workers[w].Running?
  {
    p.(workers := p.workers[w := Fetching], ran := p.ran + [p.workers[w].i])
  }

  lemma FinishHeld<T>(p: Pool<T>, w: Tid, i: nat)
    requires Handled(p) && w in p.workers && p.workers[w].Running?
    ensures Held(Finished(p, w), i) <==> Held(p, i) && i != p.workers[w].i
  {
    var p' := Finished(p, w);
    if Held(p, i) && i != p.workers[w].i {
      var x :| x in p.workers && p.workers[x] == Running(i);
      assert p'.workers[x] == Running(i);
    }
    if Held(p', i) {
      var x :| x in p'.workers && p'.workers[x] == Running(i);
      assert p.workers[x] == Running(i);
    }
  }

  lemma FinishHandled<T>(p: Pool<T>, w: Tid)
    requires Handled(p) && w in p.workers && p.workers[w].Running?
    ensures Handled(Finished(p, w))
  {
    var p' := Finished(p, w);
    assert Held(p, p.workers[w].i);
    forall x ensures Count(p'.ran, x) <= 1 {
      assert Count(p.ran, x) <= 1;
    }
    forall i: nat ensures Held(p', i) <==> Held(p, i) && i != p.workers[w].i {
      FinishHeld(p, w, i);
    }
  }

  lemma FinishKeeps<T>(p: Pool<T>, w: Tid)
    requires PoolInv(p) && w in p.workers && p.workers[w].Running?
    ensures PoolInv(Finished(p, w))
  {
    FinishHandled(p, w);
  }

  lemma ShutdownKeeps<T>(p: Pool<T>, m: Move<T>, r: Reply<T>, p': Pool<T>)
    requires PoolInv(p) && Next(p, m, r, p') && (m.ShutdownBegins? || m.ShutdownCloses? || m.ShutdownReturns?)
    ensures PoolInv(p') && p'.workers == p.workers
  {
    var q := p'.(phase := p.phase);
    if m.ShutdownCloses? {
      OutsideKeeps(p, Close, r, q);
    }
    assert forall i :: Held(p', i) <==> Held(q, i);
  }

  /** Every move of every thread keeps the pool's invariant. */
  lemma NextKeeps<T>(p: Pool<T>, m: Move<T>, r: Reply<T>, p': Pool<T>)
    requires PoolInv(p) && Next(p, m, r, p')
    ensures PoolInv(p') && p'.workers.Keys == p.workers.Keys
  {
    match m
    case Spawn(t, task) => OutsideKeeps(p, TrySend(t, task), r, p');
    case Submit(t, task) => OutsideKeeps(p, StartSend(t, task), r, p');
    case SubmitAgain(t) => OutsideKeeps(p, ResumeSend(t), r, p');
    case Fetch(w) => FetchKeeps(p, w, StartRecv(w), r, p');
    case FetchAgain(w) => FetchKeeps(p, w, ResumeRecv(w), r, p');
    case Finish(w) => FinishKeeps(p, w);
    case Spurious(t) => OutsideKeeps(p, Stir(t), r, p');
    case _ => ShutdownKeeps(p, m, r, p');
  }

  datatype Run<T> = Run(states: seq<Pool<T>>, moves: seq<Move<T>>, replies: seq<Reply<T>>)

  ghost predicate IsRun<T>(run: Run<T>) {
    && |run.states| == |run.moves| + 1 == |run.replies| + 1
    && Start(run.states[0])
    && forall k {:trigger StepAt(run, k)} :: 0 <= k < |run.moves| ==> StepAt(run, k)
  }

  ghost predicate StepAt<T>(run: Run<T>, k: nat)
    requires k < |run.moves| && k < |run.replies| && k + 1 < |run.states|
  {
    Next(run.states[k], run.moves[k], run.replies[k], run.states[k + 1])
  }

  lemma {:induction false} RunInv<T>(run: Run<T>, k: nat)
    requires IsRun(run) && k < |run.states|
    ensures PoolInv(run.states[k]) && run.states[k].workers.Keys == run.states[0].workers.Keys
  {
    if k == 0 {
      var s := run.states[0].tasks;
      assert Those(s.waits, Receivers, Asleep) == {} && Those(s.waits, Senders, Asleep) == {};
      assert forall i :: !Held(run.states[0], i);
    } else {
      RunInv(run, k - 1);
      assert StepAt(run, k - 1);
      NextKeeps(run.states[k - 1], run.moves[k - 1], run.replies[k - 1], run.states[k]);
    }
  }

  // ----- what becomes of a submission -----

  /** Move `k` is, or completes, a submission of `task` by thread `t`. */
  ghost predicate Submits<T>(run: Run<T>, k: nat, t: Tid, task: T)
    requires k < |run.moves| == |run.replies|
  {
    || run.moves[k] == Spawn(t, task)
    || run.moves[k] == Submit(t, task)
    || (run.moves[k] == SubmitAgain(t) && exists i :: 0 <= i < k && WaitsSince(run, i, k, t, task))
  }

  /** Thread `t` has called `submit` with `task` at move `i`, was blocked, and has not called it again since. */
  ghost predicate WaitsSince<T>(run: Run<T>, i: nat, k: nat, t: Tid, task: T)
    requires i < k < |run.moves| == |run.replies|
  {
    && run.moves[i] == Submit(t, task) && run.replies[i] == Blocked
    && forall j :: i < j < k ==> !(run.moves[j].Submit? && run.moves[j].t == t)
  }

  /** Where a thread that waits to send comes from. */
  lemma WaitOrigin<T>(p: Pool<T>, m: Move<T>, r: Reply<T>, p': Pool<T>, t: Tid)
    requires Next(p, m, r, p') && t in p'.tasks.waits && p'.tasks.waits[t].OnNotFull?
    ensures
      var v := p'.tasks.waits[t].value;
      || (m == Submit(t, v) && r == Blocked)
      || (t in p.tasks.waits && p.tasks.waits[t].OnNotFull? && p.tasks.waits[t].value == v && !(m.Submit? && m.t == t))
  {
  }

  /** So every move that goes on with a submission is for the task of one earlier call. */
  lemma {:induction false} CalledBefore<T>(run: Run<T>, k: nat, t: Tid) returns (i: nat)
    requires IsRun(run) && k < |run.moves| && t in run.states[k].tasks.waits && run.states[k].tasks.waits[t].OnNotFull?
    ensures i < k && WaitsSince(run, i, k, t, run.states[k].tasks.waits[t].value)
  {
    assert StepAt(run, k - 1);
    WaitOrigin(run.states[k - 1], run.moves[k - 1], run.replies[k - 1], run.states[k], t);
    if t in run.states[k - 1].tasks.waits && run.states[k - 1].tasks.waits[t].OnNotFull?
       && !(run.moves[k - 1].Submit? && run.moves[k - 1].t == t) {
      i := CalledBefore(run, k - 1, t);
    } else {
      i := k - 1;
    }
  }

  lemma EverySubmissionHasATask<T>(run: Run<T>, k: nat) returns (task: T)
    requires IsRun(run) && k < |run.moves|
    requires run.moves[k].Spawn? || run.moves[k].Submit? || run.moves[k].SubmitAgain?
    ensures Submits(run, k, run.moves[k].t, task)
  {
    if run.moves[k].SubmitAgain? {
      assert StepAt(run, k);
      task := run.states[k].tasks.waits[run.moves[k].t].value;
      var i := CalledBefore(run, k, run.moves[k].t);
    } else {
      task := run.moves[k].task;
    }
  }

  /** A submission is answered Sent if and only if exactly its task is accepted; nothing else is ever accepted. */
  lemma SentIffAccepted<T>(run: Run<T>, k: nat, t: Tid, task: T)
    requires IsRun(run) && k < |run.moves| && Submits(run, k, t, task)
    ensures run.states[k + 1].tasks.accepted ==
            run.states[k].tasks.accepted + if run.replies[k] == Sent then [task] else []
  {
    assert StepAt(run, k);
    if run.moves[k] == SubmitAgain(t) {
      var i :| 0 <= i < k && WaitsSince(run, i, k, t, task);
      var j := CalledBefore(run, k, t);
      assert i == j;
    }
  }

  lemma NothingElseAccepted<T>(run: Run<T>, k: nat)
    requires IsRun(run) && k < |run.moves|
    requires !(run.moves[k].Spawn? || run.moves[k].Submit? || run.moves[k].SubmitAgain?)
    ensures run.states[k + 1].tasks.accepted == run.states[k].tasks.accepted
  {
    assert StepAt(run, k);
  }

  /** A thread that is no worker and not waiting can always submit and spawn, and is answered at once. */
  lemma CanSubmit<T>(run: Run<T>, k: nat, t: Tid, task: T)
    returns (r: Reply<T>, p': Pool<T>, r2: Reply<T>, p2: Pool<T>)
    requires IsRun(run) && k < |run.states| && t !in run.states[k].workers && t !in run.states[k].tasks.waits
    ensures Next(run.states[k], Submit(t, task), r, p') && Next(run.states[k], Spawn(t, task), r2, p2)
  {
    var p := run.states[k];
    var s', s2;
    r, s', r2, s2 := CanSend(p.tasks, t, task);
    p', p2 := p.(tasks := s'), p.(tasks := s2);
  }

  /** A blocked submitter that is awake can go on, and one that is asleep may wake without being notified. */
  lemma CanSubmitAgain<T>(run: Run<T>, k: nat, t: Tid) returns (r: Reply<T>, p': Pool<T>)
    requires IsRun(run) && k < |run.states| && t !in run.states[k].workers
    requires t in run.states[k].tasks.waits && run.states[k].tasks.waits[t].OnNotFull?
    ensures if Awake(run.states[k].tasks, t) then Next(run.states[k], SubmitAgain(t), r, p')
            else Next(run.states[k], Spurious(t), r, p') && Awake(p'.tasks, t)
  {
    var p := run.states[k];
    if Awake(p.tasks, t) {
      var s';
      r, s' := CanSendAgain(p.tasks, t);
      p' := p.(tasks := s');
    } else {
      r, p' := Nothing, p.(tasks := p.tasks.(waits := p.tasks.waits[t := p.tasks.waits[t].(mode := Stirred)]));
    }
  }

  /** A worker that is neither waiting for a task nor gone can always go on: fetch the next task or finish its own. */
  lemma WorkerGoesOn<T>(run: Run<T>, k: nat, w: Tid) returns (m: Move<T>, r: Reply<T>, p': Pool<T>)
    requires IsRun(run) && k < |run.states| && w in run.states[k].workers
    requires run.states[k].workers[w] == Fetching || run.states[k].workers[w].Running?
    ensures Next(run.states[k], m, r, p') && (m == Fetch(w) || m == Finish(w))
    ensures p'.workers[w] != run.states[k].workers[w]
  {
    RunInv(run, k);
    var p := run.states[k];
    if p.workers[w].Running? {
      m, r, p' := Finish(w), Nothing, Finished(p, w);
    } else {
      var s';
      r, s' := CanReceive(p.tasks, w);
      m, p' := Fetch(w), p.(tasks := s', workers := p.workers[w := AfterRecv(p.tasks, r)]);
    }
  }

  /** When a submission is accepted: exactly while the channel is open and has room. */
  lemma SentIffOpen<T>(run: Run<T>, k: nat, t: Tid, task: T)
    requires IsRun(run) && k < |run.moves| && Submits(run, k, t, task)
    ensures
      var c, r := run.states[k].tasks, run.replies[k];
      var room := c.capacity == 0 || |c.queue| < c.capacity;
      && (r == Sent <==> !c.closed && room)
      && (r == ErrClosed <==> c.closed)
      && (r == ErrFull <==> !c.closed && !room && run.moves[k].Spawn?)
  {
    assert StepAt(run, k);
  }

  lemma {:induction false} AcceptedGrows<T>(run: Run<T>, i: nat, j: nat)
    requires IsRun(run) && i <= j < |run.states|
    ensures |run.states[i].tasks.accepted| <= |run.states[j].tasks.accepted|
    ensures run.states[i].tasks.accepted == run.states[j].tasks.accepted[..|run.states[i].tasks.accepted|]
  {
    if i < j {
      AcceptedGrows(run, i, j - 1);
      assert StepAt(run, j - 1);
      AcceptedStep(run.states[j - 1], run.moves[j - 1], run.replies[j - 1], run.states[j]);
    }
  }

  lemma AcceptedStep<T>(p: Pool<T>, m: Move<T>, r: Reply<T>, p': Pool<T>)
    requires Next(p, m, r, p')
    ensures |p.tasks.accepted| <= |p'.tasks.accepted|
    ensures p.tasks.accepted == p'.tasks.accepted[..|p.tasks.accepted|]
  {
  }

  /**
   * Every single submission that was answered Sent has run, once, when shutdown returns from a pool
   * with a worker: its task has a position of its own among those accepted, which has run.
   */
  lemma EachSentRuns<T>(run: Run<T>, k: nat, n: nat, t: Tid, task: T) returns (i: nat)
    requires IsRun(run) && k < n < |run.states| && Submits(run, k, t, task) && run.replies[k] == Sent
    requires run.states[n].phase == Returned && run.states[0].workers != map[]
    ensures i == |run.states[k].tasks.accepted| < |run.states[n].tasks.accepted|
    ensures run.states[n].tasks.accepted[i] == task && Count(run.states[n].ran, i) == 1
  {
    SentIffAccepted(run, k, t, task);
    AcceptedGrows(run, k + 1, n);
    ShutdownDrains(run, n);
    i := |run.states[k].tasks.accepted|;
    assert run.states[n].tasks.accepted[..i + 1][i] == task;
    assert Count(run.states[n].ran, i) <= 1 && i in run.states[n].ran;
  }

  /** Every accepted task has run, and none twice. */
  ghost predicate AllRanOnce<T>(p: Pool<T>) {
    NoDuplicates(p.ran) && forall i: nat :: i in p.ran <==> i < |p.tasks.accepted|
  }

  /**
   * Drain: when `shutdown` returns, every accepted task has run exactly once and nothing else has,
   * if and only if the pool has a worker or accepted nothing.
   */
  lemma ShutdownDrains<T>(run: Run<T>, k: nat)
    requires IsRun(run) && k < |run.states| && run.states[k].phase == Returned
    ensures AllRanOnce(run.states[k]) <==> run.states[0].workers != map[] || run.states[k].tasks.accepted == []
  {
    RunInv(run, k);
    var p := run.states[k];
    assert forall i :: !Held(p, i);
    if run.states[0].workers != map[] {
      var w :| w in run.states[0].workers;
      assert w in p.workers.Keys;
      assert p.workers[w] == Exited;
    } else {
      assert p.workers.Keys == {};
      if p.tasks.accepted != [] {
        assert 0 !in p.ran;
      }
    }
  }

  lemma Then<T>(run: Run<T>, m: Move<T>, r: Reply<T>, p: Pool<T>) returns (run': Run<T>)
    requires IsRun(run) && Next(run.states[|run.states| - 1], m, r, p)
    ensures IsRun(run') && run' == Run.Run(run.states + [p], run.moves + [m], run.replies + [r])
  {
    run' := Run.Run(run.states + [p], run.moves + [m], run.replies + [r]);
    forall k | 0 <= k < |run'.moves| ensures StepAt(run', k) {
      assert k < |run.moves| ==> StepAt(run, k);
    }
  }

  /** A pool without workers has accepted a task. */
  lemma AcceptedByNobody() returns (run: Run<int>)
    ensures IsRun(run) && run.moves == [Spawn(0, 7)] && run.replies == [Sent]
    ensures run.states[1] == Pool(Chan(0, [7], false, map[], [7], []), map[], [], Open)
  {
    var p := Pool(Empty(0), map[], [], Open);
    assert Those(p.tasks.waits, Receivers, Asleep) == {};
    var full := Chan(0, [7], false, map[], [7], []);
    assert Step(p.tasks, TrySend(0, 7), Sent, full);
    run := Then(Run.Run([p], [], []), Spawn(0, 7), Sent, p.(tasks := full));
  }

  /** For instance, a pool without workers accepts a task, shuts down, and has not run it. */
  lemma EmptyPoolExample() returns (run: Run<int>)
    ensures IsRun(run) && |run.states| == 5 && run.replies[0] == Sent
    ensures run.moves == [Spawn(0, 7), ShutdownBegins, ShutdownCloses, ShutdownReturns]
    ensures run.states[4].phase == Returned && run.states[4].tasks.accepted == [7] && run.states[4].ran == []
  {
    run := AcceptedByNobody();
    var p := run.states[1].(phase := Closing);
    run := Then(run, ShutdownBegins, Nothing, p);
    assert NotifyAll(p.tasks.waits) == p.tasks.waits;
    p := p.(tasks := p.tasks.(closed := true), phase := Joining);
    run := Then(run, ShutdownCloses, Nothing, p);
    run := Then(run, ShutdownReturns, Nothing, p.(phase := Returned));
  }

  /** Tasks run only if accepted, and at most once, at any time. */
  lemma OnlyAcceptedRun<T>(run: Run<T>, k: nat)
    requires IsRun(run) && k < |run.states|
    ensures NoDuplicates(run.states[k].ran) && forall i <- run.states[k].ran :: i < |run.states[k].tasks.accepted|
  {
    RunInv(run, k);
  }

  /** Shutdown gets as far as joining whatever the workers do. */
  lemma ShutdownStarts<T>(run: Run<T>, k: nat) returns (m: Move<T>, p': Pool<T>)
    requires IsRun(run) && k < |run.states| && (run.states[k].phase == Open || run.states[k].phase == Closing)
    ensures Next(run.states[k], m, Nothing, p') && (m == ShutdownBegins || m == ShutdownCloses)
    ensures p'.phase == (if run.states[k].phase == Open then Closing else Joining)
    ensures p'.phase == Joining ==> p'.tasks.closed
  {
    var p := run.states[k];
    if p.phase == Open {
      m, p' := ShutdownBegins, p.(phase := Closing);
    } else {
      m := ShutdownCloses;
      p' := p.(tasks := p.tasks.(closed := true, waits := NotifyAll(p.tasks.waits)), phase := Joining);
    }
  }

  /** Joining cannot get stuck: every worker that has not exited can take a step of its own. */
  lemma JoinNotStuck<T>(run: Run<T>, k: nat, w: Tid) returns (m: Move<T>, r: Reply<T>, p': Pool<T>)
    requires IsRun(run) && k < |run.states| && run.states[k].phase == Joining
    requires w in run.states[k].workers && run.states[k].workers[w] != Exited
    ensures Next(run.states[k], m, r, p') && (m == Fetch(w) || m == FetchAgain(w) || m == Finish(w))
  {
    RunInv(run, k);
    var p := run.states[k];
    if p.workers[w].Running? {
      m, r, p' := Finish(w), Nothing, Finished(p, w);
    } else {
      var s := Back(p.tasks, w);
      assert w !in p.tasks.waits ==> s == p.tasks by {
        assert p.tasks.waits - {w} == p.tasks.waits || w in p.tasks.waits;
      }
      assert w in p.tasks.waits && p.tasks.waits[w].mode == Asleep ==> w in Those(p.tasks.waits, Receivers, Asleep);
      var next;
      if s.queue == [] {
        r, next := Nothing, s;
      } else {
        var waits := SomebodyNotified(s.waits, Senders);
        r := Got(s.queue[0]);
        next := s.(queue := s.queue[1..], received := s.received + [s.queue[0]], waits := waits);
      }
      m := if p.workers[w] == Waiting then FetchAgain(w) else Fetch(w);
      p' := p.(tasks := next, workers := p.workers[w := AfterRecv(p.tasks, r)]);
    }
  }

  // ----- shutdown comes to an end -----

  ghost function Unexited<T>(p: Pool<T>): set<Tid> { set w | w in p.workers && p.workers[w] != Exited }

  ghost function Busy<T>(p: Pool<T>): set<Tid> { set w | w in p.workers && p.workers[w].Running? }

  /** How many moves the workers still have to make: two for each queued task, one to finish a task, one to exit. */
  ghost function MovesLeft<T>(p: Pool<T>): nat {
    2 * |p.tasks.queue| + |Busy(p)| + |Unexited(p)|
  }

  predicate OfWorker<T>(m: Move<T>) { m.Fetch? || m.FetchAgain? || m.Finish? }

  lemma OneWorker<T>(p: Pool<T>, w: Tid, x: Worker)
    requires w in p.workers
    ensures
      var p' := p.(workers := p.workers[w := x]);
      && |Busy(p')| == |Busy(p)| - (if p.workers[w].Running? then 1 else 0) + (if x.Running? then 1 else 0)
      && |Unexited(p')| == |Unexited(p)| - (if p.workers[w] != Exited then 1 else 0) + (if x != Exited then 1 else 0)
  {
    var p' := p.(workers := p.workers[w := x]);
    SameButFor(Busy(p), Busy(p'), w);
    SameButFor(Unexited(p), Unexited(p'), w);
  }

  lemma SameButFor(a: set<Tid>, b: set<Tid>, w: Tid)
    requires forall x :: x != w ==> (x in a <==> x in b)
    ensures |a| - (if w in a then 1 else 0) == |b| - if w in b then 1 else 0
  {
    var rest := a - {w};
    assert rest == b - {w};
    assert a == if w in a then rest + {w} else rest;
    assert b == if w in b then rest + {w} else rest;
  }

  /** A closed channel takes nothing more, and a receive from it never waits. */
  lemma ClosedStep<T>(s: Chan<T>, a: Action<T>, r: Reply<T>, s': Chan<T>)
    requires Step(s, a, r, s') && s.closed
    ensures |s'.queue| == |s.queue| - (if r.Got? then 1 else 0)
    ensures a.StartRecv? || a.ResumeRecv? ==> r.Got? || r == Nothing
    ensures a.TrySend? || a.StartSend? || a.ResumeSend? || a.Stir? || a.Close? ==> !r.Got?
  {
  }

  lemma FetchCounts<T>(p: Pool<T>, w: Tid, a: Action<T>, r: Reply<T>, p': Pool<T>)
    requires p.tasks.closed && w in p.workers && (p.workers[w] == Fetching || p.workers[w] == Waiting)
    requires Step(p.tasks, a, r, p'.tasks) && (a == StartRecv(w) || a == ResumeRecv(w))
    requires p' == p.(tasks := p'.tasks, workers := p.workers[w := AfterRecv(p.tasks, r)])
    ensures MovesLeft(p') == MovesLeft(p) - 1
  {
    ClosedStep(p.tasks, a, r, p'.tasks);
    OneWorker(p, w, AfterRecv(p.tasks, r));
    var q := p.(workers := p'.workers);
    assert Busy(p') == Busy(q) && Unexited(p') == Unexited(q);
  }

  lemma OutsideCounts<T>(p: Pool<T>, a: Action<T>, r: Reply<T>, p': Pool<T>)
    requires p.tasks.closed && Step(p.tasks, a, r, p'.tasks) && p'.workers == p.workers
    requires a.TrySend? || a.StartSend? || a.ResumeSend? || a.Stir?
    ensures MovesLeft(p') == MovesLeft(p)
  {
    ClosedStep(p.tasks, a, r, p'.tasks);
    assert Busy(p') == Busy(p) && Unexited(p') == Unexited(p);
  }

  /** While shutdown joins, every move of a worker brings the end nearer by one, and nobody else moves it away. */
  lemma MovesCount<T>(p: Pool<T>, m: Move<T>, r: Reply<T>, p': Pool<T>)
    requires PoolInv(p) && p.phase == Joining && Next(p, m, r, p')
    ensures MovesLeft(p') == MovesLeft(p) - if OfWorker(m) then 1 else 0
    ensures p'.phase == Joining || m.ShutdownReturns?
  {
    match m
    case Spawn(t, task) => OutsideCounts(p, TrySend(t, task), r, p');
    case Submit(t, task) => OutsideCounts(p, StartSend(t, task), r, p');
    case SubmitAgain(t) => OutsideCounts(p, ResumeSend(t), r, p');
    case Fetch(w) => FetchCounts(p, w, StartRecv(w), r, p');
    case FetchAgain(w) => FetchCounts(p, w, ResumeRecv(w), r, p');
    case Finish(w) =>
      OneWorker(p, w, Fetching);
      assert Busy(p') == Busy(p.(workers := p'.workers)) && Unexited(p') == Unexited(p.(workers := p'.workers));
    case Spurious(t) => OutsideCounts(p, Stir(t), r, p');
    case ShutdownReturns => assert Busy(p') == Busy(p) && Unexited(p') == Unexited(p);
    case _ =>
  }

  /** The moves of workers among the moves `i` to `j` of a run. */
  ghost function WorkerMoves<T>(run: Run<T>, i: nat, j: nat): nat
    requires i <= j <= |run.moves|
  {
    if i == j then 0 else WorkerMoves(run, i, j - 1) + if OfWorker(run.moves[j - 1]) then 1 else 0
  }

  /**
   * Shutdown returns: from the moment it joins, the workers make exactly as many moves as
   * `MovesLeft` goes down, so no more than it was; and whenever no worker is left to move, it can
   * return.
   */
  lemma {:induction false} JoinEnds<T>(run: Run<T>, i: nat, j: nat)
    requires IsRun(run) && i <= j < |run.states| && run.states[i].phase == Joining && run.states[j].phase == Joining
    ensures MovesLeft(run.states[j]) + WorkerMoves(run, i, j) == MovesLeft(run.states[i])
    ensures Unexited(run.states[j]) == {} ==>
              Next(run.states[j], ShutdownReturns, Nothing, run.states[j].(phase := Returned))
  {
    if Unexited(run.states[j]) == {} {
      forall w | w in run.states[j].workers ensures run.states[j].workers[w] == Exited {
        assert w !in Unexited(run.states[j]);
      }
    }
    if i < j {
      assert StepAt(run, j - 1);
      JoiningBefore(run, i, j);
      JoinEnds(run, i, j - 1);
      RunInv(run, j - 1);
      MovesCount(run.states[j - 1], run.moves[j - 1], run.replies[j - 1], run.states[j]);
    }
  }

  lemma JoiningBefore<T>(run: Run<T>, i: nat, j: nat)
    requires IsRun(run) && i < j < |run.states| && run.states[i].phase == Joining && run.states[j].phase == Joining
    ensures run.states[j - 1].phase == Joining
  {
    assert StepAt(run, j - 1);
    PhaseOnward(run, i, j - 1);
  }

  lemma {:induction false} PhaseOnward<T>(run: Run<T>, i: nat, j: nat)
    requires IsRun(run) && i <= j < |run.states| && run.states[i].phase == Joining
    ensures run.states[j].phase == Joining || run.states[j].phase == Returned
  {
    if i < j {
      PhaseOnward(run, i, j - 1);
      assert StepAt(run, j - 1);
    }
  }
}
