/** Optional values: a board read back from storage, a lookup by id, a drag command. */
module Wrappers {
  datatype Option<+T> = None | Some(value: T)
}
