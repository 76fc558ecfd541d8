/** The optional value used for "may be absent" inputs and for parsers that can fail. */
module Wrappers {

  datatype Option<+T> = None | Some(value: T)
}
