/** Failure-carrying values used across the model: `Option` for the
    source's `T | null` and `undefined` results, `Result` for functions that
    throw an `Error` with a message. */
module Wrappers {

  datatype Option<+T> = None | Some(value: T)

  datatype Result<+T> = Success(value: T) | Failure(error: string)
}
