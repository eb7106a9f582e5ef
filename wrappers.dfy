/** An optional value, used where the Go code returns a nil pointer or nothing at all. */
module Wrappers {
  datatype Option<+T> = None | Some(value: T)
}
