/**
 * What travels over a client WebSocket. A transport is an abstract handle;
 * whether a send on it fails is an input of each operation (a set of dead
 * handles), and every transport action is recorded as an `Event` in a ghost
 * outbox so that contracts can speak about what was sent, to whom and in
 * which order.
 */
module Wire {
  type UserId = string

  /** An accepted WebSocket, identified by an abstract handle. */
  type Socket = nat

  /** The JSON objects the server sends, keyed by their "type" field. */
  datatype Envelope =
    | SessionExpired
    | ChatBanned(timeLeft: int)
    | Chat(message: string, sender: UserId, username: string, timestamp: int)
    | Ping
    | UserCount(count: nat)
    | System(message: string)
      /** Any other JSON object handed to the system broadcast path, forwarded as is. */
    | Json(text: string)

  datatype Event =
    | Accept(socket: Socket)
    | Send(socket: Socket, envelope: Envelope)
    | Close(socket: Socket)
}
