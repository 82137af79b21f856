/** The optional value of JavaScript: a value, or `null`/`undefined`. */
module Wrappers {

  datatype Option<+T> = None | Some(value: T)
}
