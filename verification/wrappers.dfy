/** The optional-value datatype shared by the cache model and the memo list model. */
module Wrappers {

  /** `None` stands for JavaScript's `undefined` result (a cache miss, a missing header). */
  datatype Option<+T> = None | Some(value: T) {

    /** Returns the value held in `Some`, or `default` for `None`. */
    function GetOr(default: T): T {
      match this
      case Some(v) => v
      case None => default
    }
  }
}
