/** The optional value used for parses that can fail and for the empty matchmaking slot. */
module Wrappers {
  datatype Option<+T> = None | Some(value: T)
}
