/** Failure-carrying results shared by the models of functions that raise. */
module Wrappers {
  datatype Option<+T> = None | Some(value: T)

  /** A value, or the error that was raised instead. */
  datatype Result<+T, +E> = Success(value: T) | Failure(error: E) {
    predicate IsFailure() { Failure? }

    function PropagateFailure<U>(): Result<U, E>
      requires Failure?
    {
      Failure(error)
    }

    function Extract(): T
      requires Success?
    {
      value
    }
  }

  /** Elements collected before `more`, put in front of them. */
  function Prepend<T, E>(xs: seq<T>, more: Result<seq<T>, E>): Result<seq<T>, E> {
    match more
    case Success(rest) => Success(xs + rest)
    case Failure(e) => Failure(e)
  }

  lemma PrependJoins<T, E>(xs: seq<T>, ys: seq<T>, more: Result<seq<T>, E>)
    ensures Prepend(xs, Prepend(ys, more)) == Prepend(xs + ys, more)
    ensures Prepend([], more) == more
  {
    if more.Success? {
      assert xs + (ys + more.value) == xs + ys + more.value;
      assert [] + more.value == more.value;
    }
  }
}
