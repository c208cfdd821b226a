/** Failure-compatible wrappers shared by the other modules. */
module Outcomes {

  datatype Option<+T> = None | Some(value: T) {
    predicate IsFailure() { None? }

    function PropagateFailure<U>(): Option<U>
      requires None?
    {
      None
    }

    function Extract(): T
      requires Some?
    {
      value
    }
  }

  /** A computation that either yields a value or raises the error `error`. */
  datatype Result<+T, +E> = Success(value: T) | Failure(error: E) {
    predicate IsFailure() { Failure? }

    function PropagateFailure<U>(): Result<U, E>
      requires Failure?
    {
      Failure(error)
    }

    function Extract(): T
      requires Success?
    {
      value
    }

    /** The same outcome with the error converted by `f`. */
    function MapFailure<E2>(f: E -> E2): Result<T, E2> {
      match this
      case Success(v) => Success(v)
      case Failure(e) => Failure(f(e))
    }
  }
}
