/** The optional value used wherever the source returns or reads `undefined`. */
module Wrappers {
  datatype Option<+T> = None | Some(value: T)
}
