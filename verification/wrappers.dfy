/** The conventional Some/None datatype, used where the model has no value to offer. */
module Wrappers {

  datatype Option<+T> = None | Some(value: T)
}
