/** The optional value the handlers look up in maps and read from request bodies. */
module Wrappers {

  datatype Option<+T> = None | Some(value: T)
}
