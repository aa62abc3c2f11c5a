/** The optional value used for the nullable columns of a row (`string | null`). */
module Wrappers {

  datatype Option<+T> = None | Some(value: T)
}
