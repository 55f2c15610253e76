/** Option for a nullable cell (a bill's `sponsor_id`), Result for an
    operation that can raise. */
module Wrappers {

  datatype Option<+T> = None | Some(value: T)

  datatype Result<+T, +E> = Ok(value: T) | Err(error: E)
}
