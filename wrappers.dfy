/** Optional values: what a queue read hands back when it may find nothing. */
module Wrappers {

  datatype Option<+T> = None | Some(value: T)
}
