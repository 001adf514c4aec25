/** The optional value used across the model: a JavaScript `undefined` is `None`. */
module Wrappers {

  datatype Option<+T> = None | Some(value: T)
}
