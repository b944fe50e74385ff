/** Optional values: a JavaScript field that may be `undefined` or `null`. */
module Opt {

  datatype Option<+T> = None | Some(value: T) {

    /** The value when present, `d` otherwise: JavaScript's `x ?? d`. */
    function GetOr(d: T): T {
      match this
      case Some(v) => v
      case None => d
    }
  }
}
