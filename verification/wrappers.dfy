/** Optional values, used wherever the source works with `undefined` or a failed match. */
module Wrappers {

  datatype Option<+T> = None | Some(value: T)

}
