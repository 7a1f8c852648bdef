/** The optional-value wrapper used by every lookup and parser of the model. */
module Wrappers {
  datatype Option<+T> = None | Some(value: T)
}
