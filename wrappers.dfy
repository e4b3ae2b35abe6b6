/** Option and Result, the failure-compatible wrappers every other module uses
    to stand for Python's `None` and for a raised exception. */
module Wrappers {

  datatype Option<+T> = None | Some(value: T)

  /** `Failure(e)` is a call that raised `e`; `:-` propagates it as Python
      propagates an uncaught exception. */
  datatype Result<+T, +E> = Success(value: T) | Failure(error: E) {

    predicate IsFailure() {
      Failure?
    }

    function PropagateFailure<U>(): Result<U, E>
      requires Failure?
    {
      Failure(error)
    }

    function Extract(): T
      requires Success?
    {
      value
    }
  }

  /** The elements already produced, followed by the outcome of producing the
      rest: a failure anywhere discards what was produced before it. */
  function Prefixed<T, E>(done: seq<T>, rest: Result<seq<T>, E>): Result<seq<T>, E> {
    match rest
    case Success(more) => Success(done + more)
    case Failure(e) => Failure(e)
  }
}
