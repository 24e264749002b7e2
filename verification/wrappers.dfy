/** Optional values, standing in for JavaScript's `null`/`undefined` and for RPC calls that reject. */
module Wrappers {

  datatype Option<+T> = None | Some(value: T)
}
