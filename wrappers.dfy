/** The optional value used wherever the JavaScript code holds `null`
    or `undefined` in place of a value. */
module Wrappers {

  datatype Option<+T> = None | Some(value: T)
}
