/** The optional value used for nullable columns and for "no match". */
module Wrappers {

  datatype Option<+T> = None | Some(value: T)
}
