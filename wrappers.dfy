/** Optional values and success-or-failure outcomes shared by every module. */
module Wrappers {

  /** A value that may be absent (`undefined` / `null` in the source). */
  datatype Option<+T> = None | Some(value: T)

  /** The result of an operation that either returns a value or fails with an error
      (a thrown exception, or an observable that errors, in the source). */
  datatype Outcome<+T, +E> = Ok(value: T) | Fail(error: E)
}
