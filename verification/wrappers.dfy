/** The optional value used where the engine answers "nothing" (JavaScript `undefined`). */
module Wrappers {

  datatype Option<+T> = None | Some(value: T)
}
