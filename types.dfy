/** Values the epoll server passes around, and the events it leaves behind.

    The server's collaborators (the connection, the epoll registry, the
    routing engine's handlers, the user's callbacks) are not modelled by
    their code: what they answer is an input, and what they do is an
    `Event` appended to the server's trace. */
module ServerTypes {

  datatype Option<+T> = None | Some(value: T)

  /** The identifier a connection reports through `ID()`. */
  type ConnId = string

  type Bytes = seq<bv8>

  /** An upgraded WebSocket connection: its identifier and the descriptor
      the epoll registry watches. */
  datatype Conn = Conn(id: ConnId, socket: nat)

  /** What `conn.context()` yields for one readiness event. */
  datatype Context = Context(conn: Conn, uri: string, body: Bytes)

  /** A response to broadcast; `body` stands for `response.Byte()`. */
  datatype Response = Response(body: Bytes)

  /** A request handler: the built-in 404 handler or one the application registered. */
  datatype Handler = NotFound | Custom(name: string)

  /** A connect or disconnect callback the application installed. */
  datatype Callback = Callback(name: string)

  datatype EventKind = CloseKind | WriteKind | ConnectKind | DisconnectKind | HandleKind

  /** An observable effect on a collaborator. */
  datatype Event =
    | ConnClosed(conn: Conn)                             // conn.close()
    | Wrote(conn: Conn, payload: Bytes, ok: bool)        // conn.write(payload); ok: no error
    | ConnectNotified(callback: Callback, conn: Conn)    // the connect callback ran
    | DisconnectNotified(callback: Callback, conn: Conn) // the disconnect callback ran
    | Handled(ctx: Context)                              // engine.handle(ctx)
  {
    function Kind(): EventKind {
      match this
      case ConnClosed(_) => CloseKind
      case Wrote(_, _, _) => WriteKind
      case ConnectNotified(_, _) => ConnectKind
      case DisconnectNotified(_, _) => DisconnectKind
      case Handled(_) => HandleKind
    }
  }

  /** One connection of a batch returned by `epoller.Wait()`, together with
      what its collaborators answer while the event loop processes it: the
      outcome of `conn.context()` and, should that fail and `Close` run, whether
      `epoller.Remove` succeeds. */
  datatype Readiness = Readiness(conn: Conn, ctx: Option<Context>, removeOk: bool)

  /** The result of one `epoller.Wait()` call. */
  datatype WaitOutcome = WaitFailed | Ready(batch: seq<Readiness>)

  /** The registry maps every connection by its own identifier. */
  ghost predicate KeysConsistent(live: map<ConnId, Conn>) {
    forall k :: k in live ==> live[k].id == k
  }
}
