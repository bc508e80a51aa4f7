/** The Option type shared by the other modules: Go's nil pointer or missing value is None. */
module Wrappers {

  datatype Option<+T> = None | Some(value: T)
}
