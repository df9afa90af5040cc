/** An optional value, for a due date that may be absent. */
module Wrappers {
  datatype Option<+T> = None | Some(value: T)
}
