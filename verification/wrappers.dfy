/** The two outcome types of the model. Python signals a missing value with
    `None` and a failure with an exception; here both are plain values. */
module Wrappers {

  /** A lookup's answer: nothing (`None` in Python), or the value found. */
  datatype Option<+T> = None | Some(value: T)

  /** A computation that either returns a value or raises the exception
      recorded in `error`. It supports `:-`, so that an exception ends the
      enclosing computation just as it unwinds a Python call. */
  datatype Result<+R, +E> = Success(value: R) | Failure(error: E) {

    predicate IsFailure() {
      Failure?
    }

    function PropagateFailure<U>(): Result<U, E>
      requires Failure?
    {
      Failure(error)
    }

    function Extract(): R
      requires Success?
    {
      value
    }
  }
}
