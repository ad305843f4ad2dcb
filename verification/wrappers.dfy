/** The optional-value datatype used by the string search functions. */
module Wrappers {

  datatype Option<+T> = None | Some(value: T)
}
