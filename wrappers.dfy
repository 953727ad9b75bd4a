/** Optional values and the outcome of an operation that can be refused. */
module Outcomes {

  datatype Option<T> = None | Some(value: T)

  /** Failure carries the message of the IllegalArgumentException the
      operation would throw. */
  datatype Result<T> = Success(value: T) | Failure(error: string) {
    predicate IsFailure() {
      Failure?
    }
  }
}
