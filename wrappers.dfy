/** The optional-value datatype shared by the modules of this model. */
module Wrappers {

  /** A value that may be missing: a JSON key that is absent, or a lookup that misses. */
  datatype Option<+T> = None | Some(value: T)
}
