/** The nullable values of the quiz: a selected option that may be absent,
    an assignment search that may find nothing. */
module Wrappers {

  datatype Option<+T> = None | Some(value: T)
}
