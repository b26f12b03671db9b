/** The optional value used where the source keeps `null` for "nothing". */
module Wrappers {

  datatype Option<+T> = None | Some(value: T)
}
