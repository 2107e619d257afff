/** Optional values: a read from the key/value store either finds a value or yields nothing. */
module Wrappers {

  datatype Option<+T> = None | Some(value: T)

}
