/** The optional value used for "matched / did not match" throughout the model. */
module Wrappers {

  datatype Option<+T> = None | Some(value: T)
}
