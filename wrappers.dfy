/** Optional values: `None` stands for JavaScript's `undefined`/`null` (or, for a
    numeric conversion, NaN) wherever the journal's code tests for a missing value. */
module Wrappers {

  datatype Option<+T> = None | Some(value: T) {

    /** `value ?? default` */
    function GetOr(default: T): T {
      match this
      case Some(v) => v
      case None => default
    }
  }
}
