/** Optional values and success/failure results, standing for JavaScript's
    `null`/`undefined` and for settled promises. */
module Wrappers {

  datatype Option<+T> = None | Some(value: T) {
    /** The value, or `default` when absent (JavaScript's `x ?? default`). */
    function GetOr(default: T): T {
      if Some? then value else default
    }
  }

  /** A promise that resolved with `value` or rejected with `error`. */
  datatype Result<+T, +E> = Success(value: T) | Failure(error: E)
}
