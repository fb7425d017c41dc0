/** Optional values: a lookup that succeeded (Some) or returned an error (None). */
module Wrappers {

  datatype Option<+T> = None | Some(value: T)
}
