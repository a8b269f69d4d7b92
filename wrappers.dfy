/** The optional value shared by the search functions and the resolver. */
module Wrappers {
  datatype Option<T> = None | Some(value: T)
}
