/** The optional value shared by the other modules: a JavaScript `undefined`
    result, or "no match" of a regular expression. */
module Wrappers {

  datatype Option<+T> = None | Some(value: T)
}
