/** Optional values: JavaScript's `null` / missing entries. */
module Wrappers {

  datatype Option<+T> = None | Some(value: T)

}
