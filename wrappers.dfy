/** The optional value used for form fields, session entries and search results. */
module Wrappers {

  datatype Option<+T> = None | Some(value: T)
}
