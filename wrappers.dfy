/** Optional values, used where the engine answers "not found" or a blob does not parse. */
module Wrappers {

  datatype Option<+T> = None | Some(value: T)
}
