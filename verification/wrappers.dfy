/** Optional values shared by the whole model. */
module Wrappers {

  /** A value that may be absent: an invalid stack index, a missing table
      entry, an unparsable string. */
  datatype Option<+T> = None | Some(value: T)
}
