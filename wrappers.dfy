/** The optional-value datatype shared by the other modules. */
module Wrappers {

  /** A value that may be absent; stands for a JavaScript `undefined`. */
  datatype Option<+T> = None | Some(value: T)
}
