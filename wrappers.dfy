/** The optional value used wherever the front end may hold `null` or an unparsed result. */
module Wrappers {
  datatype Option<+T> = None | Some(value: T)
}
