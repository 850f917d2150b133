/** The optional value used wherever the source has `null`, `undefined`
    or a failed platform call. */
module Wrappers {

  datatype Option<+T> = None | Some(value: T) {

    /** The wrapped value, or `default` when absent (the `x || default`
        idiom of the source when `x` cannot be falsy otherwise). */
    function GetOr(default: T): T {
      match this
      case Some(v) => v
      case None => default
    }
  }
}
