/** Optional values, used where the program may have nothing to give. */
module Wrappers {

  datatype Option<+T> = None | Some(value: T)
}
