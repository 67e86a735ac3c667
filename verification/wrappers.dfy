/** The Option datatype used wherever the source returns `null`/`undefined`
    or an object property may be absent. */
module Wrappers {

  datatype Option<+T> = None | Some(value: T)

}
