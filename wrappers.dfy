/** The usual optional value, used for "the file could not be opened" and for parse failures. */
module Wrappers {
  datatype Option<+T> = None | Some(value: T)
}
