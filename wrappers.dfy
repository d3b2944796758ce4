/** The optional value used for absent payload fields, nullable ids and the
    outcome of a clipboard read. */
module Wrappers {

  datatype Option<T> = None | Some(value: T)
}
