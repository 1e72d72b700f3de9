/**
 * The outbound side of the WebSocket connection. Every frame the client
 * sends is a JSON object `{action, args}`; the model records the frames in
 * the order they are sent instead of serialising them.
 */
module Wire {

  /** The `args` member of an outbound frame. */
  datatype Args =
    | ListArgs(patterns: seq<string>)
    | FetchArgs(sync: nat, path: string, start: int, end: int, limit: int)

  datatype Outbound = Outbound(action: string, args: Args)

  /** The open connection: what has been written to it so far. */
  class Socket {
    var sent: seq<Outbound>

    constructor ()
      ensures sent == []
    {
      sent := [];
    }

    /** `WS.send(action, args)`: write one `{action, args}` frame. */
    method Send(action: string, args: Args)
      modifies this
      ensures sent == old(sent) + [Outbound(action, args)]
    {
      sent := sent + [Outbound(action, args)];
    }
  }
}
