/** Option, the value that may be missing, used across the model. */
module Wrappers {
  datatype Option<+T> = None | Some(value: T)
}
