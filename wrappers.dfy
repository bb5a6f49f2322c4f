/** The optional value used wherever the system has a "nothing here" outcome. */
module Wrappers {

  datatype Option<+T> = None | Some(value: T)
}
