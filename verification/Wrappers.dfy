/** The one general-purpose datatype of the model. */
module Wrappers {
  datatype Option<+T> = None | Some(value: T)
}
