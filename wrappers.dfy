/** The optional result used for "nothing sent" and for the client's error returns. */
module Wrappers {
  datatype Option<T> = None | Some(value: T)
}
