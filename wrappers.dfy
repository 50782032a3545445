/** Go's `nil` for pointer and interface values, made explicit. */
module Wrappers {

  /** `None` stands for a nil pointer or a nil `error`; `Some(v)` for a non-nil one. */
  datatype Option<+T> = None | Some(value: T)
}
