/** Optional values: JavaScript's `undefined` (or `null`) where the source reads a
    record with `?.`, defaults with `??`, or searches with `.find`. */
module Wrappers {

  datatype Option<+T> = None | Some(value: T) {

    /** `this ?? default` */
    function GetOr(default: T): T {
      match this
      case Some(v) => v
      case None => default
    }
  }
}
