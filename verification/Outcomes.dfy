/** Optional values and the raise-or-return outcome of an operation. */
module Outcomes {
  datatype Option<+T> = None | Some(value: T)

  datatype Result<+T, +E> = Ok(value: T) | Fail(error: E)
}
