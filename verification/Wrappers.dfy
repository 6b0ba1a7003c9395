/** A value that may be absent: Python's None and TypeScript's null, where the source tests for them. */
module Wrappers {
  datatype Option<+T> = None | Some(value: T)
}
