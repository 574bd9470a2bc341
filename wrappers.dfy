/** The optional value the model uses where the script returns `None` or a value. */
module Wrappers {

  datatype Option<+T> = None | Some(value: T)
}
