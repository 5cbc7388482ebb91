/** Optional values: a nullable column, a missing request field, a lookup that may find nothing. */
module Wrappers {

  datatype Option<+T> = None | Some(value: T)
}
