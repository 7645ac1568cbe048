/** The optional-value datatype used for environment values and content types
    that JavaScript represents as `undefined` or `null`. */
module Wrappers {

  datatype Option<+T> = None | Some(value: T)
}
