/** Failure-compatible wrappers used across the model: an optional value
    (TypeScript's `T | undefined`) and a parse result (zod's `parse`, which
    either returns the typed value or throws with a list of issues). */
module Wrappers {

  datatype Option<+T> = None | Some(value: T)

  datatype Result<+R, +E> = Success(value: R) | Failure(error: E)
}
