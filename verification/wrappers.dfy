/** Optional values, standing in for JavaScript's `undefined`/`null` and for
    operations that end in a thrown TypeError instead of a value. */
module Wrappers {

  datatype Option<+T> = None | Some(value: T) {

    /** The carried value, or `default` when there is none (JavaScript's
        destructuring default `{files = []}`). */
    function GetOr(default: T): T {
      match this
      case Some(v) => v
      case None => default
    }
  }
}
