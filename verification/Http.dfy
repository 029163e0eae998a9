/** What a handler sends back, and the process-wide inputs every handler reads. */
module Http {
  import opened Wrappers
  import opened Crypto

  /** A response: status, message, and the optional `token` and `user` fields of its body. */
  datatype Response = Response(status: int, message: string, token: Option<Token>, user: Option<Principal>)

  /** A response whose body carries only a message. */
  function Message(status: int, message: string): Response {
    Response(status, message, None, None)
  }

  /** The signing secret loaded from the environment at startup, and the current time
      in seconds. */
  datatype Env = Env(secret: string, now: int)
}
