/** The optional value returned where a JavaScript built-in returns NaN. */
module Wrappers {

  datatype Option<+T> = None | Some(value: T)
}
