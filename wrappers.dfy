/** Optional values: `None` stands for a Go nil pointer. */
module Wrappers {

  datatype Option<+T> = None | Some(value: T)
}
