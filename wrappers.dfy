/** Optional values: stands for a JavaScript property that may be absent or null. */
module Wrappers {

  datatype Option<+T> = None | Some(value: T)
}
