/** The optional value used for C#'s nullable results (`int?`, a `null` string). */
module Wrappers {

  datatype Option<+T> = None | Some(value: T)
}
