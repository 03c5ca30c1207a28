/** Optional values: a tick either sees one hand or none. */
module Wrappers {
  datatype Option<+T> = None | Some(value: T)
}
