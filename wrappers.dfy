/** Optional values and results with an error, as used for the source's
    `null`/`undefined` values and thrown errors. */
module Wrappers {

  datatype Option<+T> = None | Some(value: T) {
    /** The JavaScript `??` operator: this value, or `other` when absent. */
    function OrElse(other: Option<T>): Option<T> {
      if Some? then this else other
    }
  }

  datatype Result<+R, +E> = Ok(value: R) | Err(error: E)
}
