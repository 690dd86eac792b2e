/** Optional values, shared by every module; `None` stands for `undefined` or a missing entry. */
module Wrappers {

  datatype Option<+T> = None | Some(value: T)
}
