/** The optional value used where the JavaScript code holds `null`. */
module Wrappers {

  datatype Option<+T> = None | Some(value: T)
}
