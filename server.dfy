/** The epoll-based WebSocket server: its routing engine's slots, its
    registry of live connections, its two callback slots, and the
    operations that admit, broadcast to, close and poll connections.

    Each collaborator call is modelled by what it answers (an input) and
    what it does (an event appended to `trace`); the registry
    `epoller.connections` is the map `live` from connection identifier to
    connection. */
module Server {
  import opened ServerTypes
  import opened Observations

  /** Whether `id` is one of `ignores`: the inner loop of a broadcast, which
      stops at the first match. */
  method Ignored(ignores: seq<ConnId>, id: ConnId) returns (skip: bool)
    ensures skip <==> id in ignores
  {
    skip := false;
    for i := 0 to |ignores|
      invariant !skip
      invariant forall j :: 0 <= j < i ==> ignores[j] != id
    {
      if ignores[i] == id {
        skip := true;
        break;
      }
    }
  }

  /** The routing engine's state as the server sees it: the route table and
      the fallback slot. */
  class Engine {
    var routers: map<string, Handler>
    var noRoute: Option<Handler>

    constructor ()
      ensures routers == map[] && noRoute == None
    {
      routers := map[];
      noRoute := None;
    }

    /** Registers `handler` for `uri`; the last registration for a URI wins. */
    method Route(uri: string, handler: Handler)
      modifies this
      ensures routers == old(routers)[uri := handler] && noRoute == old(noRoute)
    {
      routers := routers[uri := handler];
    }

    /** Installs the fallback handler. */
    method NoRoute(handler: Handler)
      modifies this
      ensures noRoute == Some(handler) && routers == old(routers)
    {
      noRoute := Some(handler);
    }
  }

  class EpollServer {
    const engine: Engine
    var live: map<ConnId, Conn>
    var connectCallback: Option<Callback>
    var disconnectCallback: Option<Callback>
    /** Everything the server has done to its collaborators, oldest first. */
    var trace: seq<Event>

    ghost predicate Valid()
      reads this
    {
      KeysConsistent(live)
    }

    /** A new server: an empty registry, an empty route table, no fallback
        and no callbacks. */
    constructor ()
      ensures Valid() && fresh(engine)
      ensures engine.routers == map[] && engine.noRoute == None
      ensures live == map[] && connectCallback == None && disconnectCallback == None
      ensures trace == []
    {
      engine := new Engine();
      live := map[];
      connectCallback := None;
      disconnectCallback := None;
      trace := [];
    }

    /** Admits an upgraded connection: `added` is whether `epoller.Add`
        succeeds. A failed add closes the raw connection and leaves the
        registry alone; a successful one registers it and then runs the
        connect callback, if one is set. */
    method RegisterConn(conn: Conn, added: bool)
      requires Valid()
      modifies this
      ensures Valid()
      ensures live == if added then old(live)[conn.id := conn] else old(live)
      ensures trace == old(trace) + AdmitEvents(conn, added, connectCallback)
      ensures connectCallback == old(connectCallback) && disconnectCallback == old(disconnectCallback)
    {
      if !added {
        trace := trace + [ConnClosed(conn)];
        return;
      }
      live := live[conn.id := conn];
      if connectCallback.Some? {
        trace := trace + [ConnectNotified(connectCallback.value, conn)];
      }
    }

    /** The HTTP entry point: `upgraded` is what the upgrade step yields
        (`None` when it fails, in which case nothing happens). */
    method HandleRequest(upgraded: Option<Conn>, added: bool)
      requires Valid()
      modifies this
      ensures Valid()
      ensures upgraded.None? ==> live == old(live) && trace == old(trace)
      ensures upgraded.Some? ==>
        && live == (if added then old(live)[upgraded.value.id := upgraded.value] else old(live))
        && trace == old(trace) + AdmitEvents(upgraded.value, added, connectCallback)
      ensures connectCallback == old(connectCallback) && disconnectCallback == old(disconnectCallback)
    {
      if upgraded.None? {
        return;
      }
      RegisterConn(upgraded.value, added);
    }

    /** Replaces the connect callback slot (`None` clears it). */
    method HandleConnect(callback: Option<Callback>)
      modifies this
      ensures connectCallback == callback
      ensures disconnectCallback == old(disconnectCallback)
      ensures live == old(live) && trace == old(trace)
    {
      connectCallback := callback;
    }

    /** Replaces the disconnect callback slot (`None` clears it). */
    method HandleDisconnect(callback: Option<Callback>)
      modifies this
      ensures disconnectCallback == callback
      ensures connectCallback == old(connectCallback)
      ensures live == old(live) && trace == old(trace)
    {
      disconnectCallback := callback;
    }

    /** Delegates route registration to the engine; the server itself is
        unchanged. */
    method Route(uri: string, handler: Handler)
      modifies engine
      ensures engine.routers == old(engine.routers)[uri := handler]
      ensures engine.noRoute == old(engine.noRoute)
    {
      engine.Route(uri, handler);
    }

    /** Writes `response` to every registered connection whose identifier
        is not in `ignores`; the connections in `failing` answer the write
        with an error, which does not stop the loop. The registry is visited
        in an unspecified order, returned as `order`. */
    method Broadcast(response: Response, ignores: seq<ConnId>, failing: set<ConnId>)
      returns (ghost order: seq<ConnId>)
      requires Valid()
      modifies this
      ensures Valid() && live == old(live)
      ensures connectCallback == old(connectCallback) && disconnectCallback == old(disconnectCallback)
      ensures Enumerates(order, live.Keys)
      ensures trace == old(trace) + Fanout(order, live, response.body, ignores, failing)
    {
      var pending := live.Keys;
      order := [];
      while pending != {}
        invariant pending <= live.Keys && live == old(live)
        invariant Enumerates(order, live.Keys - pending)
        invariant trace == old(trace) + Fanout(order, live, response.body, ignores, failing)
        invariant connectCallback == old(connectCallback) && disconnectCallback == old(disconnectCallback)
        decreases pending
      {
        var k :| k in pending;
        var conn := live[k];
        var skip := Ignored(ignores, conn.id);
        if !skip {
          trace := trace + [Wrote(conn, response.body, conn.id !in failing)];
        }
        assert (order + [k])[..|order|] == order;
        pending := pending - {k};
        order := order + [k];
      }
    }

    /** Removes `conn` from the registry (`removed` is whether
        `epoller.Remove` succeeds), closes it, then runs the disconnect
        callback if one is set. A failed removal is only logged: the close
        and the callback happen all the same. */
    method Close(conn: Conn, removed: bool)
      requires Valid()
      modifies this
      ensures Valid()
      ensures live == if removed then old(live) - {conn.id} else old(live)
      ensures trace == old(trace) + CloseEvents(conn, disconnectCallback)
      ensures connectCallback == old(connectCallback) && disconnectCallback == old(disconnectCallback)
    {
      if removed {
        live := live - {conn.id};
      }
      trace := trace + [ConnClosed(conn)];
      if disconnectCallback.Some? {
        trace := trace + [DisconnectNotified(disconnectCallback.value, conn)];
      }
    }

    /** Installs the built-in 404 handler as the fallback unless one is set.
        Launching the event loop is modelled by `Poll`. */
    method Start()
      modifies engine
      ensures engine.noRoute == if old(engine.noRoute).None? then Some(NotFound) else old(engine.noRoute)
      ensures engine.routers == old(engine.routers)
    {
      if engine.noRoute.None? {
        engine.NoRoute(NotFound);
      }
    }

    /** The body of the event loop for one ready connection. */
    method Process(r: Readiness)
      requires Valid()
      modifies this
      ensures Valid()
      ensures connectCallback == old(connectCallback) && disconnectCallback == old(disconnectCallback)
      ensures live == if r.ctx.None? && r.removeOk then old(live) - {r.conn.id} else old(live)
      ensures trace == old(trace) + StepEvents(r, disconnectCallback)
    {
      match r.ctx
      case None =>
        Close(r.conn, r.removeOk);
      case Some(ctx) =>
        trace := trace + [Handled(ctx)];
    }

    /** One iteration of the event loop: a failed `Wait` does nothing; a
        batch is processed connection by connection, closing those whose
        context cannot be read and handing the others to the engine. */
    method Poll(waited: WaitOutcome)
      requires Valid()
      modifies this
      ensures Valid()
      ensures connectCallback == old(connectCallback) && disconnectCallback == old(disconnectCallback)
      ensures waited.WaitFailed? ==> live == old(live) && trace == old(trace)
      ensures waited.Ready? ==>
        && live == LiveAfter(old(live), waited.batch)
        && trace == old(trace) + BatchEvents(waited.batch, disconnectCallback)
    {
      match waited
      case WaitFailed =>
      case Ready(batch) =>
        for i := 0 to |batch|
          invariant Valid()
          invariant connectCallback == old(connectCallback) && disconnectCallback == old(disconnectCallback)
          invariant live == LiveAfter(old(live), batch[..i])
          invariant trace == old(trace) + BatchEvents(batch[..i], disconnectCallback)
        {
          assert batch[..i + 1][..i] == batch[..i];
          Process(batch[i]);
        }
        assert batch[..|batch|] == batch;
    }
  }
}
