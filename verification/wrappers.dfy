/** The optional value used wherever the source has a nullable value
    (`nil` in Swift, `None` in Python, `null` in JavaScript). */
module Wrappers {

  datatype Option<+T> = None | Some(value: T) {

    /** The held value, or `fallback` when there is none (Swift's `??`). */
    function GetOr(fallback: T): T {
      if Some? then value else fallback
    }
  }
}
