/** Option and Result values: Python's `None` and the exceptions the analysis can raise. */
module Wrappers {

  /** A value that may be missing: Python's `None`, or a NaN/NaT cell in a data frame. */
  datatype Option<+T> = None | Some(value: T) {

    /** The value, or `default` when it is missing (`row.get(column, default)`). */
    function GetOr(default: T): T {
      match this
      case Some(v) => v
      case None => default
    }
  }

  /** A computation that either produced a value or raised an error. */
  datatype Result<+R, +E> = Success(value: R) | Failure(error: E)
}
