/** The optional value that the repository queries return (a row or no row). */
module Wrappers {
  datatype Option<+T> = None | Some(value: T)
}
