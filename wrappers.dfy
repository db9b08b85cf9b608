/** Optional values, the shape the source's `None` returns take. */
module Wrappers {

  datatype Option<T> = None | Some(value: T)
}
