/** Optional values: the model's stand-in for TypeScript's `undefined` and `null`. */
module Wrappers {

  datatype Option<+T> = None | Some(value: T)
}
