/** Optional values, used for message fields that a client may leave out. */
module Wrappers {

  datatype Option<+T> = None | Some(value: T)
}
