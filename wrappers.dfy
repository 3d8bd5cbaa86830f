/** The optional-value datatype used throughout: `None` stands for the
    application's `null`/`undefined`. */
module Wrappers {

  datatype Option<+T> = None | Some(value: T)
}
