/** The optional value used wherever the source returns `null`, `undefined`
    or an invalid value, or where a JavaScript call can throw. */
module Wrappers {

  datatype Option<+T> = None | Some(value: T)
}
