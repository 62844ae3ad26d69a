/** The optional value that the model's lookups return. */
module Wrappers {

  datatype Option<+T> = None | Some(value: T)
}
