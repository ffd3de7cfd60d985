/** Option and Result values used across the model for NULL columns, missing keys and
    the exceptions the source raises. */
module Wrappers {

  datatype Option<+T> = None | Some(value: T)

  datatype Result<+R, +E> = Success(value: R) | Failure(error: E)

  /** Truthiness of an optional string, the same in Python and JavaScript: a missing value
      (None, null or undefined) and the empty string are false. */
  predicate Falsy(s: Option<string>) {
    s.None? || s.value == ""
  }
}
