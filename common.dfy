/** Values shared by every router: optional (nullable) values and HTTP responses. */
module Common {

  /** A nullable column, or a query parameter that may be absent. */
  datatype Option<T> = None | Some(value: T)

  /** What a handler sends back: status 200 with a payload, or an error status with its message. */
  datatype Response<T> = Ok(payload: T) | Error(status: int, msg: string)
  {
    function Status(): int {
      if Ok? then 200 else status
    }
  }

  /**
   * The LIMIT of the feed, of a profile's posts and of a chat's messages. The chat list, the
   * profile list and the notifications have no LIMIT.
   */
  const PageLimit: nat := 15
}
