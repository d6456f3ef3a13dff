/** The optional-value type shared by the modules of this model. */
module Wrappers {

  /** A value that may be missing: the codec's decode result and the
      branch index of an if / else-if cascade. */
  datatype Option<+T> = None | Some(value: T)
}
