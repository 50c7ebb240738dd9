/** Optional values: a JavaScript `null`/`undefined` or a Python `None`
    becomes `None`, a present value becomes `Some`. */
module Wrappers {

  datatype Option<+T> = None | Some(value: T) {

    /** The value, or `default` when there is none. */
    function GetOr(default: T): T {
      match this
      case Some(v) => v
      case None => default
    }
  }
}
