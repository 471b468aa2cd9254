/** The optional value used wherever the server works with Python's `None`. */
module Wrappers {
  datatype Option<+T> = None | Some(value: T)
}
