/** An optional value, for operations that can find nothing. */
module Wrappers {
  datatype Option<+T> = None | Some(value: T)
}
