/** Optional values and the error outcome of the generate action. */
module Outcomes {

  datatype Option<+T> = None | Some(value: T)

  /** Why a generate action produced nothing. */
  datatype Error = EmptyInput

  datatype Result<+T> = Success(value: T) | Failure(error: Error)
}
