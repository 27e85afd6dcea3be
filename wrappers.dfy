/** The optional-value datatype used for Go's nil pointers (`*uint`) and for
    SQL NULL. */
module Wrappers {

  datatype Option<+T> = None | Some(value: T)
}
