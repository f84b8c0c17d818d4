/** Failure-carrying results shared by the modules of this model. The C++
    library reports errors by throwing (its ERRT macro); here a thrown error
    becomes a Failure value that carries the reason. */
module Wrappers {

  /** Outcome of a routine that either completes or raises an error. */
  datatype Status = Ok | Error(message: string)

  datatype Option<+T> = None | Some(value: T)

  datatype Result<+T, +E> = Success(value: T) | Failure(error: E) {
    predicate IsFailure() { Failure? }

    function PropagateFailure<U>(): Result<U, E>
      requires Failure?
    {
      Failure(error)
    }

    function Extract(): T
      requires Success?
    {
      value
    }
  }
}
