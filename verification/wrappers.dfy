/** The optional value used for PHP's `isset`-style absent arguments. */
module Wrappers {

  datatype Option<+T> = None | Some(value: T) {

    /** The present value, or `default` when absent: PHP's `isset($x) ? $x : default`. */
    function GetOr(default: T): T {
      match this
      case Some(v) => v
      case None => default
    }
  }
}
