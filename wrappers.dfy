/** Optional values and results, the shapes of Rust's `Option` and `anyhow::Result`. */
module Wrappers {

  datatype Option<+T> = None | Some(value: T) {

    /** The value, or `default` when absent (Rust's `unwrap_or` / `unwrap_or_default`). */
    function GetOr(default: T): T {
      match this
      case Some(v) => v
      case None => default
    }
  }

  /** A success value or an error value; errors are the text an `anyhow::Error` displays. */
  datatype Result<+R, +E> = Success(value: R) | Failure(error: E)
}
