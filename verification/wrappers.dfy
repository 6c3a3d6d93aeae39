/** The optional-value datatype used where the dialog's Python code either
    produces a value or raises. */
module Wrappers {

  datatype Option<+T> = None | Some(value: T)
}
