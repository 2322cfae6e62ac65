/** Ruby's `nil` as an explicit optional value. */
module Wrappers {

  datatype Option<+T> = None | Some(value: T)
}
