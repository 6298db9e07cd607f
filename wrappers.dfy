/** The optional value used for the form's nullable fields (`error`, `response`). */
module Wrappers {
  datatype Option<+T> = None | Some(value: T)
}
