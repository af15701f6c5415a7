/** The optional value used for every operation that can fail in the model. */
module Wrappers {
  datatype Option<+T> = None | Some(value: T)
}
