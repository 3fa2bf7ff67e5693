/** The optional-value type used where the source tests a value for presence. */
module Wrappers {

  datatype Option<+T> = None | Some(value: T)
}
