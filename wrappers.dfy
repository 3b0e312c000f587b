/** The optional value used for every representation that may be absent or may fail to parse. */
module Wrappers {

  datatype Option<+T> = None | Some(value: T)
}
