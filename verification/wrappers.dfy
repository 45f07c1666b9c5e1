/** The optional value used for the parser's outcome and for recognisers that return a decomposition. */
module Wrappers {
  datatype Option<+T> = None | Some(value: T)
}
