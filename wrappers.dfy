/** Option and Result: JavaScript's null/undefined and thrown exceptions, made explicit. */
module Wrappers {

  /** `None` stands for JavaScript's `null` and `undefined` alike. */
  datatype Option<+T> = None | Some(value: T)

  /** `Failure` stands for an exception that propagates out of the call. */
  datatype Result<+R, +E> = Success(value: R) | Failure(error: E) {
    predicate IsFailure() {
      Failure?
    }

    function PropagateFailure<U>(): Result<U, E>
      requires Failure?
    {
      Failure(error)
    }

    function Extract(): R
      requires Success?
    {
      value
    }
  }
}
