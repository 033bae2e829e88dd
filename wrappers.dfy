/** A value that may be absent: JavaScript's `undefined` / SQL's NULL. */
module Wrappers {

  datatype Option<+T> = None | Some(value: T)
}
