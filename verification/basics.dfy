/** What the other modules share. */
module Basics {
  datatype Option<+T> = None | Some(value: T)

  datatype Result<+T> = Ok(value: T) | Err

  /** The size of a quorum of so many members; without members there is none. */
  function MinimumTolerableQuorum(members: int): Result<int> {
    if members <= 0 then Err else Ok(members / 2 + 1)
  }
}
