/** The types the other modules share. */
module Wrappers {

  datatype Option<+T> = None | Some(value: T)

  /** What a route answers. */
  datatype Answer = Accepted | Conflict(code: string)
}
