/** Optional values, used where the original hands back a default-constructed
    handle or a null pointer. */
module Wrappers {

  datatype Option<+T> = None | Some(value: T)
}
