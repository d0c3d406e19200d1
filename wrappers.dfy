/** Optional values, for results the firmware leaves undefined. */
module Wrappers {

  datatype Option<+T> = None | Some(value: T)
}
