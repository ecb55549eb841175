/** The optional-value datatype used for partial results (a failed match, a malformed line). */
module Wrappers {

  datatype Option<+T> = None | Some(value: T)

}
