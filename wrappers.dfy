/** The optional value that models Python's `None` as a result. */
module Wrappers {

  /** `None` where the source returns Python's `None`, `Some(v)` otherwise. */
  datatype Option<+T> = None | Some(value: T)
}
