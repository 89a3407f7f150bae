/** Optional values and results with an error, for the source's `undefined` fields and thrown errors. */
module Wrappers {

  /** A value that may be absent (a JavaScript `undefined` field or argument). */
  datatype Option<+T> = None | Some(value: T) {

    /** The value, or `default` when absent (the `??` of the source, never `||`). */
    function GetOr(default: T): T {
      if Some? then value else default
    }
  }

  /** The outcome of a store call: a value, or the error the source throws. */
  datatype Result<+T, +E> = Ok(value: T) | Err(error: E)
}
