/** Option, for the values the Python code returns as `None`. */
module Wrappers {

  datatype Option<+T> = None | Some(value: T)
}
