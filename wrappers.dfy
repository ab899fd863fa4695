/** Option and Outcome values standing in for C# nulls and exceptions. */
module Wrappers {

  /** A value that may be absent: `None` is the C# `null`. */
  datatype Option<+T> = None | Some(value: T) {

    /** The value, or `default` when absent. */
    function GetOr(default: T): T
    {
      match this
      case Some(v) => v
      case None => default
    }
  }

  /** The result of an operation that returns nothing or throws `error`. */
  datatype Outcome<+E> = Pass | Fail(error: E)

  /** The result of an operation that returns `value` or throws `error`. */
  datatype Result<+R, +E> = Success(value: R) | Failure(error: E)

  /** `string.IsNullOrEmpty`. */
  predicate NullOrEmpty(s: Option<string>)
  {
    s.None? || s.value == ""
  }
}
