/** A value that may be absent: a JavaScript `undefined`/`null` field or result. */
module Wrappers {

  datatype Option<+T> = None | Some(value: T)
}
