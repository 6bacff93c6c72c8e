/** Optional values, used for documents and fields that may be absent. */
module Wrappers {

  datatype Option<+T> = None | Some(value: T)
}
