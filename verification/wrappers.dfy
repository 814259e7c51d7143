/** An optional value, as returned by a lookup that may find nothing: a
    primary-key `get`, a `.first()` query, or the error-handler table. */
module Wrappers {

  datatype Option<+T> = None | Some(value: T)
}
