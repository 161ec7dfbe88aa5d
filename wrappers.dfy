/** The two failure-carrying datatypes every module uses: `Option` for JavaScript's
    `undefined`/`null` and `Result` for a value or a thrown error. */
module Wrappers {

  datatype Option<+T> = None | Some(value: T)

  datatype Result<+T, +E> = Success(value: T) | Failure(error: E)
}
