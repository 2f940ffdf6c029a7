/** Optional values, for the places where the source uses `None`/`NULL` or an error return. */
module Wrappers {

  datatype Option<+T> = None | Some(value: T)
}
