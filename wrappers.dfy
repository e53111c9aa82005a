/** The optional value used wherever the application reads something that may be absent
    (a stored key, a search parameter, an error returned by the backend). */
module Wrappers {

  datatype Option<+T> = None | Some(value: T)
}
