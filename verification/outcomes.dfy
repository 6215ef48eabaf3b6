/** The ways a run of the population scripts can abort, and a result type carrying them. */
module Outcomes {

  /** ZeroDivision: Python's `/` on two scalars whose divisor is zero.
      IndexOutOfBounds: reading row 0 of an empty frame. */
  datatype Error = ZeroDivision | IndexOutOfBounds

  datatype Result<+T> = Success(value: T) | Failure(error: Error) {

    predicate IsFailure() {
      Failure?
    }

    function PropagateFailure<U>(): Result<U>
      requires Failure?
    {
      Failure(error)
    }

    function Extract(): T
      requires Success?
    {
      value
    }
  }
}
