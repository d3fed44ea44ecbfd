/** Failure-carrying values shared by the modules of this project. */
module Wrappers {

  /** A value that may be absent: a missing key, an error that ended a computation. */
  datatype Option<+T> = None | Some(value: T)
}
