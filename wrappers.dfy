/** The optional value the analytics return where the source returns `None`. */
module Wrappers {

  datatype Option<+T> = None | Some(value: T)
}
