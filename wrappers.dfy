/** Failure-carrying result used wherever the source returns `null` or swallows an exception. */
module Wrappers {
  datatype Option<+T> = None | Some(value: T)
}
