/** Failure-carrying values shared by the whole model. */
module Wrappers {

  /** A value that may be absent: JavaScript's `null`/`undefined`, a cancelled picker. */
  datatype Option<+T> = None | Some(value: T)
}
