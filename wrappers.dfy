/** Optional values, as std::option::Option. */
module Wrappers {

  datatype Option<+T> = None | Some(value: T)
}
