/** Failure-compatible result types shared by every module. */
module Wrappers {
  datatype Option<+T> = None | Some(value: T)

  datatype Result<+T, +E> = Success(value: T) | Failure(error: E) {
    predicate IsFailure() {
      Failure?
    }

    function PropagateFailure<U>(): Result<U, E>
      requires Failure?
    {
      Failure(error)
    }

    function Extract(): T
      requires Success?
    {
      value
    }
  }

  /** A check that carries no value: the shape of Helm's `required` and `fail`. */
  datatype Check<+E> = Pass | Refuse(error: E) {
    predicate IsFailure() {
      Refuse?
    }

    function PropagateFailure<U>(): Result<U, E>
      requires Refuse?
    {
      Failure(error)
    }
  }

  function Need<E>(condition: bool, error: E): Check<E> {
    if condition then Pass else Refuse(error)
  }
}
