/** The optional value used where the toolkit may return a null pointer. */
module Wrappers {

  datatype Option<+T> = None | Some(value: T)

}
