# Epoll WebSocket server: connection lifecycle

This project models the connection-lifecycle core of an epoll-based WebSocket
server (`epollServer` in `epoll_server.go`). The server admits upgraded
connections into an epoll registry and runs the connect callback. It fans a
response out to every live connection except the ignored ones. It closes
connections and reports them to the disconnect callback. It installs a 404
fallback route. Its event loop hands each ready connection's request context
to the routing engine, or closes the connection when the context cannot be
read.

The server's collaborators are modelled by their answers and their effects:

- The epoll registry (`epoller.connections`) is the field `live`, a map from
  connection identifier to connection.
- The outcomes of `epoller.Add`, `epoller.Remove`, `conn.write` and
  `conn.context` are inputs. These are the flags `added` and `removed`, the
  set `failing` of connections whose write errors, and a `Readiness` record
  per ready connection.
- The result of `epoller.Wait` is a `WaitOutcome`: a failure, or a batch.
- `conn.close()`, `conn.write(...)`, the two callbacks and `engine.handle(ctx)`
  append an `Event` to the field `trace`.
- The routing engine is the class `Engine`, with a route table and a fallback
  slot.

Files:

- `types.dfy` (module `ServerTypes`): connections, contexts, handlers,
  callbacks, events and the collaborators' answers.
- `observations.dfy` (module `Observations`): the events each operation
  produces, as functions of its inputs. Also the lemmas that state what those
  events guarantee: exactly-once broadcast, batch processing in order, the
  registry after a batch, and double close.
- `server.dfy` (module `Server`): the classes `Engine` and `EpollServer`. Their
  methods update the registry, the callback slots, the fallback slot and the
  trace. Each method is proved against the functions above.
- `scenarios.dfy` (module `Scenarios`): three clients that run the server
  through a whole lifecycle.

The model follows the code where the code and a stronger description of the
design differ. In particular, `Close` runs the disconnect callback even when
`epoller.Remove` fails, so closing a connection twice notifies the callback
twice (`epoll_server.go:88-98`). The model does not guard the callback on a
successful removal, and it does not promise at-most-once disconnect
notification.

## Model

| member | source | states |
|---|---|---|
| `Observations.AdmitEventsKinds` | epoll_server.go:43-53 | Admission closes the raw connection exactly when `Add` fails. The connect callback runs, once and with that connection, exactly when `Add` succeeds and a callback is set. Admission never writes, handles or reports a disconnect. |
| `Server.EpollServer.RegisterConn` | epoll_server.go:43-53 | A failed `Add` leaves the registry unchanged. A successful one registers the connection under its identifier. The trace grows by exactly the admission events. Both callback slots are unchanged. |
| `Server.EpollServer.HandleRequest` | epoll_server.go:31-40 | A failed upgrade changes nothing. A successful one admits the connection as `registerConn` does. |
| `Server.EpollServer.HandleConnect` | epoll_server.go:55-57 | The connect slot becomes the given callback (last call wins, nil clears it). The disconnect slot, the registry, the trace and the engine are unchanged. |
| `Server.EpollServer.HandleDisconnect` | epoll_server.go:59-61 | The disconnect slot becomes the given callback. The connect slot, the registry, the trace and the engine are unchanged. |
| `Server.EpollServer.Route` | epoll_server.go:63-65 | Delegates to the engine: only the engine's route table changes, at `uri`. The server's own state is untouched. |
| `Server.Engine.Route` | epoll_server.go:63-65 | Registers `handler` for `uri` and keeps every other route and the fallback. |
| `Server.Engine.NoRoute` | epoll_server.go:103-105 | Sets the fallback slot and leaves the route table alone. |
| `Server.Engine.constructor` | epoll_server.go:132-135 | A new engine has an empty route table and no fallback. |
| `Server.EpollServer.constructor` | epoll_server.go:126-140 | A new server has an empty registry, no callbacks, an empty trace and a fresh engine with no routes and no fallback. |
| `Server.Ignored` | epoll_server.go:71-77 | The skip flag is true exactly when the connection's identifier occurs in `ignores`. |
| `Server.EpollServer.Broadcast` | epoll_server.go:68-84 | Visits every registered identifier exactly once, in some order. It appends exactly that order's writes and does not change the registry or the callbacks. |
| `Observations.FanoutDeliversExactly` | epoll_server.go:68-84 | In any visiting order, each owed write (one per non-ignored connection) occurs exactly once, and no other event occurs. |
| `Observations.BroadcastWritesOnlyRecipients` | epoll_server.go:72-81 | Every broadcast event is a write of `response.Byte()` to a registered connection whose `ID()` is not ignored. Each write carries its own success or failure. |
| `Observations.BroadcastWritesEachRecipientOnce` | epoll_server.go:78-82 | Every registered connection that is not ignored receives exactly one write, whichever other writes fail. |
| `Observations.BroadcastWriteCount` | epoll_server.go:68-83 | With N registered connections of which k are ignored, a broadcast makes exactly N - k writes. |
| `Observations.CloseEventsKinds` | epoll_server.go:88-98 | Close first closes the connection, exactly once. Then the disconnect callback runs once if set, and not at all otherwise. This does not depend on whether `Remove` succeeded. |
| `Server.EpollServer.Close` | epoll_server.go:88-98 | A successful `Remove` deletes the connection's entry and a failed one leaves the registry unchanged. Either way the trace grows by the close events. |
| `Observations.CloseTwiceNotifiesTwice` | epoll_server.go:88-98 | Two closes of one connection run the disconnect callback twice. |
| `Server.EpollServer.Start` | epoll_server.go:101-105 | The fallback becomes the 404 handler only if none was set; an existing fallback is kept. The route table and the server's state are unchanged. |
| `Observations.StepEventsKinds` | epoll_server.go:115-120 | Processing one ready connection either closes it (then notifies the disconnect callback if set) or hands its context to the engine once, never both. It never writes or admits. |
| `Server.EpollServer.Process` | epoll_server.go:114-121 | One ready connection: a failed context read goes through `Close`, and a successful one is handed to the engine once. |
| `Server.EpollServer.Poll` | epoll_server.go:108-121 | A failed `Wait` changes nothing. A batch leaves the batch's events in order and the registry as `LiveAfter` gives it. The callback slots are unchanged. |
| `Observations.BatchProcessesEachOnce` | epoll_server.go:114-121 | In a batch, each extracted context is handled exactly once, in batch order. Each failed connection is closed once, in order, then reported to the disconnect callback if one is set. A batch never writes and never admits. |
| `Observations.LiveAfterRemovesEvicted` | epoll_server.go:114-118 | After a batch, the registry has lost exactly the connections whose context failed and whose `Remove` succeeded. It gained nothing, the entries it kept are unchanged, and identifiers still match their connections. |
| `Scenarios.BroadcastIgnoringOne` | epoll_server.go:68-84 | With A, B and C admitted, a broadcast that ignores B writes the payload once to A and once to C, and never to B. |
| `Scenarios.ContextFailureDisconnects` | epoll_server.go:114-119 | An admitted connection whose context fails leaves the registry. It is closed once and reported to the disconnect callback once. |
| `Scenarios.CloseTwice` | epoll_server.go:88-98 | Closing one connection twice, the second removal failing, closes it twice and notifies the disconnect callback twice. |

## Left out

- `MkEpoll` and the `log.Fatalf` on its failure (epoll_server.go:127-130) are process setup and exit. The constructor starts from an empty registry.
- The goroutine and the endless `for` loop in `Start` (epoll_server.go:107-123) are concurrency. `Poll` models one iteration of the loop, and `Start` models only the fallback installation.
- Concurrency between the event loop and application calls is not modelled. This covers the engine's `sync.RWMutex` (epoll_server.go:133) and `Broadcast` or `Close` racing with the loop. Every operation runs to completion on its own.
- Logging (`log.Printf` at epoll_server.go:45, 80, 90, 111) is not modelled, because it has no effect on the state.
- The upgrade in `newConnection` is an input: either a connection or a failure. Its HTTP handling is not part of this model.
- The epoll syscalls inside `Add`, `Remove` and `Wait` are inputs: success flags and a ready batch. A successful `Add` or `Remove` updates `live` by the connection's identifier. The epoller's own source is not part of this model.
- `Server.Engine.Route`: engine.go is not part of this model. Registration is modelled as a map update where the last registration for a URI wins.
- `engine.handle`, route lookup and handler bodies are opaque. They appear only as a `Handled(ctx)` event, so handler errors or panics are not modelled.
- A callback is an opaque event. A callback that calls back into the server is not modelled.
- Wire bytes are opaque. `Response.Byte()` is a byte sequence, and `conn.write` and `conn.context` are opaque values.
- Go's map iteration order in `Broadcast` is unspecified. The model lets the method choose any order and returns the order it chose as a ghost value.
- No write deadline, no at-most-once disconnect notification and no handler panic containment. The code has none of these.
