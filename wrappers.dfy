/** The failure-carrying result used wherever the source panics on bad input. */
module Wrappers {

  /** `None` stands for a panic of the source (an `unwrap` on an error, an index out of range). */
  datatype Option<+T> = None | Some(value: T)
}
