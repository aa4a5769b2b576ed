/** Optional values: the model's stand-in for JavaScript's `null`, `undefined` and `-1` "not found". */
module Wrappers {
  datatype Option<+T> = None | Some(value: T)
}
