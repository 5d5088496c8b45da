/** Optional values: JavaScript's `undefined` / `null` results become `None`. */
module Wrappers {
  datatype Option<+T> = None | Some(value: T)
}
