/** Failure-compatible result types shared by the whole model. */
module Wrappers {

  /** An optional value: PHP's `null` / `false` sentinel on one side, a value on the other. */
  datatype Option<+T> = None | Some(value: T) {

    predicate IsFailure() {
      None?
    }

    function PropagateFailure<U>(): Option<U>
      requires None?
    {
      None
    }

    function Extract(): T
      requires Some?
    {
      value
    }
  }

  /** A computation that either yields a value or raises an error. */
  datatype Result<+R, +E> = Success(value: R) | Failure(error: E) {

    predicate IsFailure() {
      Failure?
    }

    function PropagateFailure<U>(): Result<U, E>
      requires Failure?
    {
      Failure(error)
    }

    function Extract(): R
      requires Success?
    {
      value
    }
  }

  /** The library's `ArgumentException`: the offending argument's name, its value and a message. */
  datatype ArgumentError<+V> = ArgumentError(argument: string, value: V, message: string)
}
