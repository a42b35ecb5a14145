/** Optional values, used wherever a Win32 query can fail or a setting can be absent. */
module Wrappers {

  datatype Option<+T> = None | Some(value: T)
}
