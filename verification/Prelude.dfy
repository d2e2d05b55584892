/** Shared vocabulary of the async layer (src/async/concepts.hpp, src/core/types.hpp). */
module Prelude {

  datatype Option<+T> = None | Some(value: T)

  /** Who ended a wait: the reactor, the timer wheel or a stop callback. */
  datatype WaitState = Pending | Ready | TimedOut | Cancelled

  /** An opaque coroutine handle; the null handle is `None` at type `Option<Handle>`. */
  type Handle = nat

  /** The address of a `WaitState`; the null pointer is `None` at type `Option<Addr>`. */
  type Addr = nat

  /** The wait states that are allocated. Reading an address outside the map is a use after free. */
  type Memory = map<Addr, WaitState>

  ghost function Count<T>(s: seq<T>, x: T): nat { multiset(s)[x] }

  ghost predicate NoDuplicates<T(!new)>(s: seq<T>) {
    forall x :: Count(s, x) <= 1
  }

  lemma Singleton<T(!new)>(s: seq<T>, x: T)
    requires NoDuplicates(s) && x in s && forall y <- s :: y == x
    ensures s == [x]
  {
    assert forall i :: 0 <= i < |s| ==> s[i] in s;
    assert s == [x] + s[1..];
    assert Count(s, x) <= 1;
    assert forall y <- s[1..] :: y in s && y == x;
  }
}
