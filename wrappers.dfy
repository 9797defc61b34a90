/** The optional value used for a dialog's answer, a drag's destination and a handler's decision. */
module Wrappers {

  datatype Option<+T> = None | Some(value: T)
}
