/** Optional values and results with an error side, used where the source has
    `null`/`undefined` or throws. */
module Outcomes {

  /** `null` / `undefined` (None) or a present value (Some). */
  datatype Option<+T> = None | Some(value: T)

  /** A call that returned a value (Success) or threw (Failure). */
  datatype Result<+T, +E> = Success(value: T) | Failure(error: E)
}
