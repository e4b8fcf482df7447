/** Optional values, and the outcome of a cursor read that may fail or panic. */
module Wrappers {

  datatype Option<+T> = None | Some(value: T) {
    predicate IsFailure() {
      None?
    }

    function PropagateFailure<U>(): Option<U>
      requires None?
    {
      None
    }

    function Extract(): T
      requires Some?
    {
      value
    }
  }

  datatype Result<+T, +E> = Ok(value: T) | Err(error: E)

  /** What a cursor-based reader does: it yields a value and the cursor behind it, it
      returns an error, or it panics (an index or slice out of range). */
  datatype Outcome<+T, +E> = Done(value: T, next: nat) | Fail(error: E) | Panic {
    predicate IsFailure() {
      !Done?
    }

    function PropagateFailure<U>(): Outcome<U, E>
      requires !Done?
    {
      if Panic? then Panic else Fail(error)
    }

    function Extract(): (T, nat)
      requires Done?
    {
      (value, next)
    }
  }

  /** A list read behind elements that were read before it. */
  function Prepend<T, E>(xs: seq<T>, r: Outcome<seq<T>, E>): Outcome<seq<T>, E> {
    if r.Done? then Done(xs + r.value, r.next) else r
  }

  lemma PrependNothing<T, E>(r: Outcome<seq<T>, E>)
    ensures Prepend([], r) == r
  {
    if r.Done? {
      assert [] + r.value == r.value;
    }
  }

  /** One step of a loop that reads elements and pushes them. */
  lemma PrependStep<T, E>(xs: seq<T>, x: T, rest: Outcome<seq<T>, E>)
    ensures Prepend(xs, Prepend([x], rest)) == Prepend(xs + [x], rest)
  {
    if rest.Done? {
      assert xs + ([x] + rest.value) == xs + [x] + rest.value;
    }
  }
}
