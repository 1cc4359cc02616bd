/** Small types shared by the models of every service. */
module Wrappers {

  datatype Option<+T> = None | Some(value: T)

  datatype Result<+R, +E> = Success(value: R) | Failure(error: E)

  /** What a database transaction leaves behind: an error and no change, or a result and a new state. */
  datatype Attempt<+R, +S, +E> = Thrown(error: E) | Done(result: R, after: S)
}
