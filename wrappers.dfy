/** The optional value that stands for a Python attribute which may be `None`. */
module Wrappers {

  datatype Option<+T> = None | Some(value: T)
}
