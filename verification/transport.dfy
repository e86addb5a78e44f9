/**
 * What a call to the registry server answered. The client model never performs
 * such a call: the caller supplies the answer, so every behaviour of the client
 * is a function of the answers it is given.
 */
module Transport {

  /** A query (one application, or all of them): the decoded answer, or the failure. */
  datatype Reply<+T> = Answered(value: T) | Failed(reason: string)

  /** A command (register, de-register, heartbeat, status update): accepted or not. */
  datatype Ack = Accepted | Rejected(reason: string)
}
