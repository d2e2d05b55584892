/** The channel object of src/sync/channel.hpp. Each method is one critical section under `mutex_`. */
module Channel {
  import opened ChannelSpec

  class Channel<T(!new)> {
    const capacity: nat
    var queue: seq<T>
    var closed: bool
    /** Threads waiting on `not_empty_` and on `not_full_`. */
    var waits: Waits<T>

    ghost var accepted: seq<T>
    ghost var received: seq<T>

    ghost function View(): Chan<T>
      reads this
    {
      Chan(capacity, queue, closed, waits, accepted, received)
    }

    ghost predicate Valid()
      reads this
    {
      Inv(View())
    }

    constructor (capacity: nat)
      ensures Valid() && View() == Empty(capacity)
    {
      this.capacity := capacity;
      queue, closed, waits := [], false, map[];
      accepted, received := [], [];
      new;
      assert Those(waits, Receivers, Asleep) == {} && Those(waits, Senders, Asleep) == {};
    }

    method NotifyOne(side: Side)
      modifies this`waits
      ensures NotifiesOne(old(waits), side, waits)
    {
      if t :| t in waits && Has(waits[t], side, Asleep) {
        assert t in Those(waits, side, Asleep);
        waits := Wake(waits, t);
      } else {
        assert Those(waits, side, Asleep) == {};
      }
    }

    method Enqueue(value: T)
      modifies this`queue, this`waits, this`accepted
      ensures Push(old(View()), value, Sent, View())
    {
      queue := queue + [value];
      accepted := accepted + [value];
      NotifyOne(Receivers);
    }

    method Dequeue() returns (r: Reply<T>)
      requires queue != []
      modifies this`queue, this`waits, this`received
      ensures Pop(old(View()), r, View())
    {
      r := Got(queue[0]);
      received := received + [queue[0]];
      queue := queue[1..];
      NotifyOne(Senders);
    }

    /** `send`, from the lock to the first wait or the return. */
    method Send(t: Tid, value: T) returns (r: Reply<T>)
      requires Valid() && t !in waits
      modifies this
      ensures Step(old(View()), StartSend(t, value), r, View()) && Valid()
    {
      if capacity > 0 && !(|queue| < capacity || closed) {
        waits := waits[t := OnNotFull(Asleep, value)];
        r := Blocked;
      } else if closed {
        r := ErrClosed;
      } else {
        Enqueue(value);
        r := Sent;
      }
      StepKeeps(old(View()), StartSend(t, value), r, View());
    }

    /** `send`, from a wake-up to the next wait or the return. */
    method SendAgain(t: Tid) returns (r: Reply<T>)
      requires Valid() && t in waits && waits[t].OnNotFull? && waits[t].mode != Asleep
      modifies this
      ensures Step(old(View()), ResumeSend(t), r, View()) && Valid()
    {
      var value := waits[t].value;
      waits := waits - {t};
      if capacity > 0 && !(|queue| < capacity || closed) {
        waits := waits[t := OnNotFull(Asleep, value)];
        r := Blocked;
      } else if closed {
        r := ErrClosed;
      } else {
        Enqueue(value);
        r := Sent;
      }
      StepKeeps(old(View()), ResumeSend(t), r, View());
    }

    method TrySend(t: Tid, value: T) returns (r: Reply<T>)
      requires Valid() && t !in waits
      modifies this
      ensures Step(old(View()), Action.TrySend(t, value), r, View()) && Valid()
    {
      if closed {
        r := ErrClosed;
      } else if capacity > 0 && |queue| >= capacity {
        r := ErrFull;
      } else {
        Enqueue(value);
        r := Sent;
      }
      StepKeeps(old(View()), Action.TrySend(t, value), r, View());
    }

    /** `recv` and `recv_timeout`, from the lock to the first wait or the return. */
    method Recv(t: Tid) returns (r: Reply<T>)
      requires Valid() && t !in waits
      modifies this
      ensures Step(old(View()), StartRecv(t), r, View()) && Valid()
    {
      if queue == [] && !closed {
        waits := waits[t := OnNotEmpty(Asleep)];
        r := Blocked;
      } else if queue == [] {
        r := Nothing;
      } else {
        r := Dequeue();
      }
      StepKeeps(old(View()), StartRecv(t), r, View());
    }

    /** `recv` and `recv_timeout`, from a wake-up to the next wait or the return. */
    method RecvAgain(t: Tid) returns (r: Reply<T>)
      requires Valid() && t in waits && waits[t].OnNotEmpty? && waits[t].mode != Asleep
      modifies this
      ensures Step(old(View()), ResumeRecv(t), r, View()) && Valid()
    {
      waits := waits - {t};
      if queue == [] && !closed {
        waits := waits[t := OnNotEmpty(Asleep)];
        r := Blocked;
      } else if queue == [] {
        r := Nothing;
      } else {
        r := Dequeue();
      }
      StepKeeps(old(View()), ResumeRecv(t), r, View());
    }

    /** `recv_timeout` once its time is up: the predicate is tested a last time. */
    method RecvExpired(t: Tid) returns (r: Reply<T>)
      requires Valid() && t in waits && waits[t].OnNotEmpty? && waits[t].mode != Asleep
      modifies this
      ensures Step(old(View()), ExpireRecv(t), r, View()) && Valid()
    {
      waits := waits - {t};
      if queue == [] {
        r := Nothing;
      } else {
        r := Dequeue();
      }
      StepKeeps(old(View()), ExpireRecv(t), r, View());
    }

    method TryRecv(t: Tid) returns (r: Reply<T>)
      requires Valid() && t !in waits
      modifies this
      ensures Step(old(View()), Action.TryRecv(t), r, View()) && Valid()
    {
      if queue == [] {
        r := Nothing;
      } else {
        r := Dequeue();
      }
      StepKeeps(old(View()), Action.TryRecv(t), r, View());
    }

    method Close() returns (r: Reply<T>)
      requires Valid()
      modifies this
      ensures Step(old(View()), Action.Close, r, View()) && Valid()
    {
      closed := true;
      waits := NotifyAll(waits);
      r := Nothing;
      StepKeeps(old(View()), Action.Close, r, View());
    }
  }
}
