/** The optional value shared by the PNG reader and the Sigma checks. */
module Wrappers {
  datatype Option<T> = None | Some(value: T)
}
