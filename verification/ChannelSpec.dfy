/**
 * The bounded multi-producer multi-consumer channel of src/sync/channel.hpp as the interleaving of
 * its critical sections, for any number of threads. A thread that waits on a condition variable is
 * asleep, has been notified, or is awake without a notification (a spurious wake-up or a timeout);
 * in the last two cases it will take the lock again and re-test its predicate.
 */
module ChannelSpec {
  type Tid = nat

  datatype Mode = Asleep | Notified | Stirred

  /** A receiver waits on `not_empty_`, a sender on `not_full_` with the value it wants to send. */
  datatype Wait<T> = OnNotEmpty(mode: Mode) | OnNotFull(mode: Mode, value: T)

  datatype Side = Receivers | Senders

  type Waits<T> = map<Tid, Wait<T>>

  /** `accepted` and `received` record what has gone in and come out. */
  datatype Chan<T> = Chan(
    capacity: nat, queue: seq<T>, closed: bool, waits: Waits<T>, accepted: seq<T>, received: seq<T>)

  predicate Full<T>(s: Chan<T>) {
    s.capacity > 0 && |s.queue| >= s.capacity
  }

  predicate Has<T>(w: Wait<T>, side: Side, mode: Mode) {
    w.mode == mode && (w.OnNotEmpty? <==> side == Receivers)
  }

  /** The threads waiting on one side in one mode. */
  ghost function Those<T>(w: Waits<T>, side: Side, mode: Mode): (r: set<Tid>) {
    set t | t in w && Has(w[t], side, mode)
  }

  function Wake<T>(w: Waits<T>, t: Tid): Waits<T>
    requires t in w
  {
    w[t := w[t].(mode := Notified)]
  }

  /** `notify_one`: some sleeper is notified, if there is one; which one is not determined. */
  ghost predicate NotifiesOne<T>(w: Waits<T>, side: Side, w': Waits<T>) {
    if Those(w, side, Asleep) == {} then w' == w
    else exists t :: t in w && Has(w[t], side, Asleep) && w' == Wake(w, t)
  }

  function NotifyAll<T>(w: Waits<T>): Waits<T> {
    map t | t in w :: if w[t].mode == Asleep then w[t].(mode := Notified) else w[t]
  }

  datatype Reply<T> = Blocked | Sent | ErrClosed | ErrFull | Got(value: T) | Nothing

  datatype Action<T> =
    | StartSend(t: Tid, value: T)
    | ResumeSend(t: Tid)
    | TrySend(t: Tid, value: T)
    | StartRecv(t: Tid)
    | ResumeRecv(t: Tid)
    | ExpireRecv(t: Tid)
    | TryRecv(t: Tid)
    | Close
    | Stir(t: Tid)

  ghost predicate Push<T>(s: Chan<T>, v: T, r: Reply<T>, s': Chan<T>) {
    && r == Sent
    && NotifiesOne(s.waits, Receivers, s'.waits)
    && s' == s.(queue := s.queue + [v], accepted := s.accepted + [v], waits := s'.waits)
  }

  ghost predicate Pop<T>(s: Chan<T>, r: Reply<T>, s': Chan<T>)
    requires s.queue != []
  {
    && r == Got(s.queue[0])
    && NotifiesOne(s.waits, Senders, s'.waits)
    && s' == s.(queue := s.queue[1..], received := s.received + [s.queue[0]], waits := s'.waits)
  }

  /** `send` from the test of its wait predicate on, with the lock held. */
  ghost predicate SendBody<T>(s: Chan<T>, t: Tid, v: T, r: Reply<T>, s': Chan<T>) {
    if Full(s) && !s.closed then r == Blocked && s' == s.(waits := s.waits[t := OnNotFull(Asleep, v)])
    else if s.closed then r == ErrClosed && s' == s
    else Push(s, v, r, s')
  }

  ghost predicate TrySendBody<T>(s: Chan<T>, v: T, r: Reply<T>, s': Chan<T>) {
    if s.closed then r == ErrClosed && s' == s
    else if Full(s) then r == ErrFull && s' == s
    else Push(s, v, r, s')
  }

  /** `recv` from the test of its wait predicate on; `try_recv` and an expired `recv_timeout` do not wait. */
  ghost predicate RecvBody<T>(s: Chan<T>, t: Tid, patient: bool, r: Reply<T>, s': Chan<T>) {
    if s.queue != [] then Pop(s, r, s')
    else if s.closed || !patient then r == Nothing && s' == s
    else r == Blocked && s' == s.(waits := s.waits[t := OnNotEmpty(Asleep)])
  }

  /** A waiting thread that is awake holds the lock again. */
  function Back<T>(s: Chan<T>, t: Tid): Chan<T> {
    s.(waits := s.waits - {t})
  }

  predicate Awake<T>(s: Chan<T>, t: Tid) {
    t in s.waits && s.waits[t].mode != Asleep
  }

  /** One critical section of one thread. */
  ghost predicate Step<T>(s: Chan<T>, a: Action<T>, r: Reply<T>, s': Chan<T>) {
    match a
    case StartSend(t, v) => t !in s.waits && SendBody(s, t, v, r, s')
    case ResumeSend(t) => Awake(s, t) && s.waits[t].OnNotFull? && SendBody(Back(s, t), t, s.waits[t].value, r, s')
    case TrySend(t, v) => t !in s.waits && TrySendBody(s, v, r, s')
    case StartRecv(t) => t !in s.waits && RecvBody(s, t, true, r, s')
    case ResumeRecv(t) => Awake(s, t) && s.waits[t].OnNotEmpty? && RecvBody(Back(s, t), t, true, r, s')
    case ExpireRecv(t) => Awake(s, t) && s.waits[t].OnNotEmpty? && RecvBody(Back(s, t), t, false, r, s')
    case TryRecv(t) => t !in s.waits && RecvBody(s, t, false, r, s')
    case Close => r == Nothing && s' == s.(closed := true, waits := NotifyAll(s.waits))
    case Stir(t) =>
      && t in s.waits && s.waits[t].mode == Asleep
      && r == Nothing && s' == s.(waits := s.waits[t := s.waits[t].(mode := Stirred)])
  }

  // ----- the invariant of every interleaving -----

  /** What came out is what went in, in order, up to what is still queued; the bound is kept. */
  ghost predicate Fifo<T>(s: Chan<T>) {
    && s.accepted == s.received + s.queue
    && (s.capacity > 0 ==> |s.queue| <= s.capacity)
  }

  /** A sleeping receiver's item is always covered by a receiver that has been notified, up to `slack`. */
  ghost predicate ReceiversCovered<T>(s: Chan<T>, slack: nat) {
    Those(s.waits, Receivers, Asleep) != {} ==> !s.closed && |s.queue| <= |Those(s.waits, Receivers, Notified)| + slack
  }

  /** A sleeping sender's room is always covered by a sender that has been notified, up to `slack`. */
  ghost predicate SendersCovered<T>(s: Chan<T>, slack: nat) {
    Those(s.waits, Senders, Asleep) != {} ==>
      !s.closed && s.capacity > 0 && s.capacity - |s.queue| <= |Those(s.waits, Senders, Notified)| + slack
  }

  ghost predicate Inv<T>(s: Chan<T>) {
    Fifo(s) && ReceiversCovered(s, 0) && SendersCovered(s, 0)
  }

  function Empty<T>(capacity: nat): Chan<T> {
    Chan(capacity, [], false, map[], [], [])
  }

  // ----- how the sets of waiting threads change -----

  lemma ThosePut<T>(w: Waits<T>, t: Tid, x: Wait<T>, side: Side, mode: Mode)
    requires t !in w
    ensures Those(w[t := x], side, mode) == Those(w, side, mode) + (if Has(x, side, mode) then {t} else {})
    ensures t !in Those(w, side, mode)
  {
  }

  lemma ThoseDrop<T>(w: Waits<T>, t: Tid, side: Side, mode: Mode)
    requires t in w
    ensures Those(w, side, mode) == Those(w - {t}, side, mode) + (if Has(w[t], side, mode) then {t} else {})
    ensures t !in Those(w - {t}, side, mode)
  {
  }

  /** Giving a sleeper another mode moves it from one set to another. */
  lemma ThoseMove<T>(w: Waits<T>, t: Tid, mode': Mode, side: Side, mode: Mode)
    requires t in w && w[t].mode == Asleep && mode' != Asleep
    ensures
      var w' := w[t := w[t].(mode := mode')];
      Those(w', side, mode) ==
        if Has(w[t], side, Asleep) && mode == Asleep then Those(w, side, mode) - {t}
        else if Has(w[t], side, Asleep) && mode == mode' then Those(w, side, mode) + {t}
        else Those(w, side, mode)
    ensures mode == mode' ==> t !in Those(w, side, mode)
  {
  }

  /** What `notify_one` on one side does to both sides: with a sleeper there, one more is notified. */
  lemma NotifiesOneCounts<T>(w: Waits<T>, side: Side, w': Waits<T>, other: Side)
    requires NotifiesOne(w, side, w') && other != side
    ensures Those(w', side, Asleep) <= Those(w, side, Asleep)
    ensures Those(w, side, Asleep) != {} ==> |Those(w', side, Notified)| == |Those(w, side, Notified)| + 1
    ensures Those(w', other, Asleep) == Those(w, other, Asleep)
    ensures Those(w', other, Notified) == Those(w, other, Notified)
  {
    if Those(w, side, Asleep) != {} {
      var t :| t in w && Has(w[t], side, Asleep) && w' == Wake(w, t);
      ThoseMove(w, t, Notified, side, Asleep);
      ThoseMove(w, t, Notified, side, Notified);
      ThoseMove(w, t, Notified, other, Asleep);
      ThoseMove(w, t, Notified, other, Notified);
    }
  }

  /** A thread that takes the lock again gives up at most one notification, on its own side. */
  lemma BackCovered<T>(s: Chan<T>, t: Tid)
    requires Inv(s) && Awake(s, t)
    ensures Fifo(Back(s, t))
    ensures ReceiversCovered(Back(s, t), if s.waits[t].OnNotEmpty? then 1 else 0)
    ensures SendersCovered(Back(s, t), if s.waits[t].OnNotFull? then 1 else 0)
  {
    ThoseDrop(s.waits, t, Receivers, Asleep);
    ThoseDrop(s.waits, t, Receivers, Notified);
    ThoseDrop(s.waits, t, Senders, Asleep);
    ThoseDrop(s.waits, t, Senders, Notified);
  }

  // ----- every critical section keeps the invariant -----

  lemma PushKeeps<T>(s: Chan<T>, v: T, r: Reply<T>, s': Chan<T>)
    requires Fifo(s) && ReceiversCovered(s, 0) && SendersCovered(s, 1) && !s.closed && !Full(s) && Push(s, v, r, s')
    ensures Inv(s')
  {
    NotifiesOneCounts(s.waits, Receivers, s'.waits, Senders);
  }

  lemma PopKeeps<T>(s: Chan<T>, r: Reply<T>, s': Chan<T>)
    requires Fifo(s) && ReceiversCovered(s, 1) && SendersCovered(s, 0) && s.queue != [] && Pop(s, r, s')
    ensures Inv(s')
  {
    NotifiesOneCounts(s.waits, Senders, s'.waits, Receivers);
    assert s.queue == [s.queue[0]] + s.queue[1..];
  }

  lemma SendKeeps<T>(s: Chan<T>, t: Tid, v: T, r: Reply<T>, s': Chan<T>)
    requires Fifo(s) && ReceiversCovered(s, 0) && SendersCovered(s, 1) && t !in s.waits && SendBody(s, t, v, r, s')
    ensures Inv(s')
  {
    if Full(s) && !s.closed {
      ThosePut(s.waits, t, OnNotFull(Asleep, v), Receivers, Asleep);
      ThosePut(s.waits, t, OnNotFull(Asleep, v), Receivers, Notified);
    } else if !s.closed {
      PushKeeps(s, v, r, s');
    }
  }

  lemma RecvKeeps<T>(s: Chan<T>, t: Tid, patient: bool, r: Reply<T>, s': Chan<T>)
    requires Fifo(s) && ReceiversCovered(s, 1) && SendersCovered(s, 0)
    requires t !in s.waits && RecvBody(s, t, patient, r, s')
    ensures Inv(s')
  {
    if s.queue != [] {
      PopKeeps(s, r, s');
    } else {
      ThosePut(s.waits, t, OnNotEmpty(Asleep), Senders, Asleep);
      ThosePut(s.waits, t, OnNotEmpty(Asleep), Senders, Notified);
    }
  }

  lemma StirKeeps<T>(s: Chan<T>, t: Tid)
    requires Inv(s) && t in s.waits && s.waits[t].mode == Asleep
    ensures Inv(s.(waits := s.waits[t := s.waits[t].(mode := Stirred)]))
  {
    ThoseMove(s.waits, t, Stirred, Receivers, Asleep);
    ThoseMove(s.waits, t, Stirred, Receivers, Notified);
    ThoseMove(s.waits, t, Stirred, Senders, Asleep);
    ThoseMove(s.waits, t, Stirred, Senders, Notified);
  }

  lemma CloseKeeps<T>(s: Chan<T>)
    requires Inv(s)
    ensures Inv(s.(closed := true, waits := NotifyAll(s.waits)))
  {
    assert Those(NotifyAll(s.waits), Receivers, Asleep) == {};
    assert Those(NotifyAll(s.waits), Senders, Asleep) == {};
  }

  lemma StepKeeps<T>(s: Chan<T>, a: Action<T>, r: Reply<T>, s': Chan<T>)
    requires Inv(s) && Step(s, a, r, s')
    ensures Inv(s')
  {
    match a
    case StartSend(t, v) => SendKeeps(s, t, v, r, s');
    case ResumeSend(t) => BackCovered(s, t); SendKeeps(Back(s, t), t, s.waits[t].value, r, s');
    case TrySend(t, v) => if !s.closed && !Full(s) { PushKeeps(s, v, r, s'); }
    case StartRecv(t) => RecvKeeps(s, t, true, r, s');
    case ResumeRecv(t) => BackCovered(s, t); RecvKeeps(Back(s, t), t, true, r, s');
    case ExpireRecv(t) => BackCovered(s, t); RecvKeeps(Back(s, t), t, false, r, s');
    case TryRecv(t) => RecvKeeps(s, t, false, r, s');
    case Close => CloseKeeps(s);
    case Stir(t) => StirKeeps(s, t);
  }

  // ----- runs: every interleaving of any number of threads -----

  datatype Run<T> = Run(states: seq<Chan<T>>, actions: seq<Action<T>>, replies: seq<Reply<T>>)

  ghost predicate IsRun<T>(run: Run<T>) {
    && |run.states| == |run.actions| + 1 == |run.replies| + 1
    && run.states[0] == Empty(run.states[0].capacity)
    && forall k {:trigger StepAt(run, k)} :: 0 <= k < |run.actions| ==> StepAt(run, k)
  }

  ghost predicate StepAt<T>(run: Run<T>, k: nat)
    requires k < |run.actions| && k < |run.replies| && k + 1 < |run.states|
  {
    Step(run.states[k], run.actions[k], run.replies[k], run.states[k + 1])
  }

  /** In every state of every run: first in first out, bounded, and no lost wake-up. */
  lemma {:induction false} RunInv<T>(run: Run<T>, k: nat)
    requires IsRun(run) && k < |run.states|
    ensures Inv(run.states[k]) && run.states[k].capacity == run.states[0].capacity
  {
    if k == 0 {
      assert Those(run.states[0].waits, Receivers, Asleep) == {} && Those(run.states[0].waits, Senders, Asleep) == {};
    } else {
      RunInv(run, k - 1);
      assert StepAt(run, k - 1);
      StepKeeps(run.states[k - 1], run.actions[k - 1], run.replies[k - 1], run.states[k]);
    }
  }

  ghost predicate Prefix<T>(a: seq<T>, b: seq<T>) {
    |a| <= |b| && a == b[..|a|]
  }

  /** The value a step offers: the argument of the call, or what the blocked sender has held since its call. */
  predicate Offers<T(==)>(s: Chan<T>, a: Action<T>, v: T) {
    match a
    case StartSend(_, x) => v == x
    case TrySend(_, x) => v == x
    case ResumeSend(t) => t in s.waits && s.waits[t].OnNotFull? && v == s.waits[t].value
    case _ => false
  }

  /** Items go in and come out exactly when the reply says so: what is offered at the end, the oldest at the front. */
  lemma RepliesTell<T>(s: Chan<T>, a: Action<T>, r: Reply<T>, s': Chan<T>)
    requires Step(s, a, r, s')
    ensures s'.received == s.received + (if r.Got? then [r.value] else [])
    ensures r.Got? ==> s.queue != [] && r.value == s.queue[0]
    ensures if r.Sent? then !s.closed && exists v :: Offers(s, a, v) && s'.accepted == s.accepted + [v]
            else s'.accepted == s.accepted
    ensures s.closed ==> s'.closed
  {
    if r.Sent? {
      var v := if a.ResumeSend? then s.waits[a.t].value else a.value;
      assert Offers(s, a, v) && s'.accepted == s.accepted + [v];
    }
  }

  predicate Receives<T>(a: Action<T>) { a.StartRecv? || a.ResumeRecv? || a.ExpireRecv? || a.TryRecv? }

  predicate Sends<T>(a: Action<T>) { a.StartSend? || a.ResumeSend? || a.TrySend? }

  /**
   * What each call is answered, from the state it finds: a receive of any kind gets an item exactly
   * if one is queued, a send of any kind is accepted exactly if the channel is open with room, and
   * otherwise the reply says why not.
   */
  lemma AnsweredByState<T>(run: Run<T>, k: nat)
    requires IsRun(run) && k < |run.actions|
    ensures
      var s, a, r := run.states[k], run.actions[k], run.replies[k];
      var room := s.capacity == 0 || |s.queue| < s.capacity;
      && (Receives(a) ==>
            && (r.Got? <==> s.queue != [])
            && (r == Nothing <==> s.queue == [] && (s.closed || a.ExpireRecv? || a.TryRecv?))
            && (r == Blocked <==> s.queue == [] && !s.closed && (a.StartRecv? || a.ResumeRecv?)))
      && (Sends(a) ==>
            && (r == Sent <==> !s.closed && room)
            && (r == ErrClosed <==> s.closed)
            && (r == ErrFull <==> !s.closed && !room && a.TrySend?)
            && (r == Blocked <==> !s.closed && !room && !a.TrySend?))
  {
    assert StepAt(run, k);
  }

  /** A call that blocks leaves its thread asleep, any other leaves it nowhere; nobody sleeps through a close. */
  lemma BlockedSleeps<T>(run: Run<T>, k: nat)
    requires IsRun(run) && k < |run.actions|
    ensures
      var s, a, r, s' := run.states[k], run.actions[k], run.replies[k], run.states[k + 1];
      && (Receives(a) || Sends(a) ==>
            && (r == Blocked <==> a.t in s'.waits)
            && (r == Blocked ==> s'.waits[a.t].mode == Asleep && (s'.waits[a.t].OnNotEmpty? <==> Receives(a))))
      && (a.Stir? ==> a.t in s'.waits && Awake(s', a.t))
      && (s'.closed <==> s.closed || a.Close?)
      && (a.Close? ==> s'.waits.Keys == s.waits.Keys && forall t <- s'.waits :: s'.waits[t].mode != Asleep)
  {
    assert StepAt(run, k);
  }

  /** A sender that waits holds the value of its call for as long as it waits. */
  lemma {:induction false} HeldSinceCall<T>(run: Run<T>, k: nat, t: Tid) returns (i: nat)
    requires IsRun(run) && k < |run.states| && t in run.states[k].waits && run.states[k].waits[t].OnNotFull?
    ensures i < k && run.actions[i] == StartSend(t, run.states[k].waits[t].value) && run.replies[i] == Blocked
    ensures forall j :: i < j <= k ==> t in run.states[j].waits && run.states[j].waits[t].OnNotFull?
                                       && run.states[j].waits[t].value == run.states[k].waits[t].value
  {
    var s, a := run.states[k - 1], run.actions[k - 1];
    assert StepAt(run, k - 1);
    if t in s.waits && s.waits[t].OnNotFull? {
      i := HeldSinceCall(run, k - 1, t);
    } else {
      i := k - 1;
    }
  }

  lemma {:induction false} OnlyGrows<T>(run: Run<T>, i: nat, j: nat)
    requires IsRun(run) && i <= j < |run.states|
    ensures Prefix(run.states[i].received, run.states[j].received)
    ensures run.states[i].closed ==> run.states[j].closed && run.states[j].accepted == run.states[i].accepted
  {
    if i < j {
      OnlyGrows(run, i, j - 1);
      assert StepAt(run, j - 1);
      RepliesTell(run.states[j - 1], run.actions[j - 1], run.replies[j - 1], run.states[j]);
    }
  }

  /** A blocking receive comes back empty only from a closed channel whose every item is delivered, now and for good. */
  lemma NothingMeansDrained<T>(run: Run<T>, k: nat, j: nat)
    requires IsRun(run) && k < |run.actions| && k < j < |run.states|
    requires (run.actions[k].StartRecv? || run.actions[k].ResumeRecv?) && run.replies[k] == Nothing
    ensures run.states[k].closed
    ensures run.states[j].accepted == run.states[j].received == run.states[k].accepted && run.states[j].queue == []
  {
    assert StepAt(run, k);
    OnlyGrows(run, k + 1, j);
    RunInv(run, k + 1);
    RunInv(run, j);
  }

  lemma SomebodyNotified<T>(w: Waits<T>, side: Side) returns (w': Waits<T>)
    ensures NotifiesOne(w, side, w')
  {
    if Those(w, side, Asleep) == {} {
      w' := w;
    } else {
      var t :| t in Those(w, side, Asleep);
      w' := Wake(w, t);
    }
  }

  // ----- every call is answered -----

  lemma CanPush<T>(s: Chan<T>, v: T) returns (s': Chan<T>)
    ensures Push(s, v, Sent, s')
  {
    var w := SomebodyNotified(s.waits, Receivers);
    s' := s.(queue := s.queue + [v], accepted := s.accepted + [v], waits := w);
  }

  /** A thread that is not waiting can send, with or without waiting for room, and gets an answer at once. */
  lemma CanSend<T>(s: Chan<T>, t: Tid, v: T) returns (r: Reply<T>, s': Chan<T>, r2: Reply<T>, s2: Chan<T>)
    requires t !in s.waits
    ensures Step(s, StartSend(t, v), r, s') && Step(s, TrySend(t, v), r2, s2)
  {
    var pushed := CanPush(s, v);
    if s.closed {
      r, s', r2, s2 := ErrClosed, s, ErrClosed, s;
    } else if Full(s) {
      r, s', r2, s2 := Blocked, s.(waits := s.waits[t := OnNotFull(Asleep, v)]), ErrFull, s;
    } else {
      r, s', r2, s2 := Sent, pushed, Sent, pushed;
    }
  }

  /** So can a blocked sender that is awake. */
  lemma CanSendAgain<T>(s: Chan<T>, t: Tid) returns (r: Reply<T>, s': Chan<T>)
    requires Awake(s, t) && s.waits[t].OnNotFull?
    ensures Step(s, ResumeSend(t), r, s')
  {
    var v, back := s.waits[t].value, Back(s, t);
    var pushed := CanPush(back, v);
    if s.closed {
      r, s' := ErrClosed, back;
    } else if Full(s) {
      r, s' := Blocked, back.(waits := back.waits[t := OnNotFull(Asleep, v)]);
    } else {
      r, s' := Sent, pushed;
    }
  }

  /** A thread that is not waiting can receive. */
  lemma CanReceive<T>(s: Chan<T>, t: Tid) returns (r: Reply<T>, s': Chan<T>)
    requires t !in s.waits
    ensures Step(s, StartRecv(t), r, s')
  {
    if s.queue != [] {
      var w := SomebodyNotified(s.waits, Senders);
      r, s' := Got(s.queue[0]), s.(queue := s.queue[1..], received := s.received + [s.queue[0]], waits := w);
    } else if s.closed {
      r, s' := Nothing, s;
    } else {
      r, s' := Blocked, s.(waits := s.waits[t := OnNotEmpty(Asleep)]);
    }
  }

  /** If a receiver sleeps while an item is queued, another receiver can take an item at its next step. */
  lemma SleepingReceiverIsServed<T>(run: Run<T>, k: nat, t: Tid) returns (u: Tid, r: Reply<T>, s': Chan<T>)
    requires IsRun(run) && k < |run.states|
    requires var s := run.states[k]; t in s.waits && s.waits[t] == OnNotEmpty(Asleep) && (s.queue != [] || s.closed)
    ensures Step(run.states[k], ResumeRecv(u), r, s') && r.Got?
  {
    var s := run.states[k];
    RunInv(run, k);
    assert t in Those(s.waits, Receivers, Asleep);
    assert |Those(s.waits, Receivers, Notified)| > 0;
    u :| u in Those(s.waits, Receivers, Notified);
    var w := SomebodyNotified(Back(s, u).waits, Senders);
    r, s' := Got(s.queue[0]), Back(s, u).(queue := s.queue[1..], received := s.received + [s.queue[0]], waits := w);
  }

  /** If a sender sleeps while there is room, another sender can send at its next step. */
  lemma SleepingSenderIsServed<T>(run: Run<T>, k: nat, t: Tid) returns (u: Tid, r: Reply<T>, s': Chan<T>)
    requires IsRun(run) && k < |run.states|
    requires
      var s := run.states[k];
      t in s.waits && s.waits[t].OnNotFull? && s.waits[t].mode == Asleep && (!Full(s) || s.closed)
    ensures Step(run.states[k], ResumeSend(u), r, s') && r == Sent
  {
    var s := run.states[k];
    RunInv(run, k);
    assert t in Those(s.waits, Senders, Asleep);
    assert |Those(s.waits, Senders, Notified)| > 0;
    u :| u in Those(s.waits, Senders, Notified);
    var v := s.waits[u].value;
    var w := SomebodyNotified(Back(s, u).waits, Receivers);
    r, s' := Sent, Back(s, u).(queue := s.queue + [v], accepted := s.accepted + [v], waits := w);
  }
}
