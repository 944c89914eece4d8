/** Optional values: the model's stand-in for JavaScript's `null` and `undefined`. */
module Wrappers {

  /** Either no value (`null`/`undefined` in the source) or exactly one. */
  datatype Option<+T> = None | Some(value: T)
}
