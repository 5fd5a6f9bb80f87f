/** The optional value the client's nullable strings and results stand for. */
module Wrappers {

  datatype Option<+T> = None | Some(value: T)
}
