/** Values that may be absent: Go's nil pointers and its "value, ok" results. */
module Wrappers {

  datatype Option<+T> = None | Some(value: T) {
    function UnwrapOr(fallback: T): T {
      match this
      case Some(v) => v
      case None => fallback
    }
  }
}
