/** Optional values, used for results that the source reports through a `bool` plus an out-parameter. */
module Wrappers {

  datatype Option<+T> = None | Some(value: T)
}
