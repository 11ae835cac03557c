/** The optional-value type shared by the modules of this model. */
module Wrappers {

  /** A value that may be missing: JavaScript's `null` or `undefined` where only presence matters. */
  datatype Option<+T> = None | Some(value: T)
}
