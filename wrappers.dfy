/** A value that may be absent: JavaScript's `undefined`/`null` for an optional field or hook result. */
module Wrappers {

  datatype Option<+T> = None | Some(value: T)

}
