/** The optional-value datatype used for nullable references in the model. */
module Wrappers {
  datatype Option<+T> = None | Some(value: T)
}
