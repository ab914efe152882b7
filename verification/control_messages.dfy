/**
  The control messages a session exchanges with its peer, as delivered to a
  control-message subscriber.
 */
module ControlMessages {

  /** A connect request's correlation id, as its two 64-bit halves. */
  datatype Uuid = Uuid(mostSignificant: int, leastSignificant: int)

  datatype ControlMessage =
    | Connect(connectRequestId: Uuid, clientChannel: string,
              clientControlStreamId: int, clientSessionStreamId: int)
    | ConnectAck(connectRequestId: Uuid, sessionId: int, serverSessionStreamId: int)
    | Heartbeat(sessionId: int)
    | Complete(sessionId: int)
}
