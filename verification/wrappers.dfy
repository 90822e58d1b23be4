/** Optional values: JavaScript's `undefined` / `null` made explicit. */
module Wrappers {

  datatype Option<+T> = None | Some(value: T)
}
