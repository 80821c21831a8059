/** The optional value the matchers return: the end of a match, or none. */
module Wrappers {

  datatype Option<+T> = None | Some(value: T)
}
