/** Optional values, used for map lookups and for replies or calls that may be absent. */
module Wrappers {

  datatype Option<+T> = None | Some(value: T)

}
