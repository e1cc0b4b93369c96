/** Optional values: PHP's `null`/`false` returns are modelled as `None`. */
module Wrappers {

  datatype Option<+T> = None | Some(value: T)
}
