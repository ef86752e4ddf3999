/** Optional value, used for the results of parsing and decoding. */
module Wrappers {

  /** A value that may be absent: `None` stands for an error return. */
  datatype Option<+T> = None | Some(value: T)
}
