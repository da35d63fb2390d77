/** The optional value of the model: JavaScript's `undefined`/`null` where a value may be absent. */
module Wrappers {

  datatype Option<+T> = None | Some(value: T)
}
