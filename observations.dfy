/** What the server's operations leave in the trace, as functions of their
    inputs, and the properties of those traces that the server promises:
    admission fires the connect callback only for a registered connection,
    close always closes and then notifies, a broadcast writes once to every
    connection it does not ignore, and one event-loop batch handles or
    closes every ready connection exactly once, in batch order. */
module Observations {
  import opened ServerTypes

  /** The events of kind `k` in `es`, in their original order. */
  function Select(es: seq<Event>, k: EventKind): (r: seq<Event>)
    ensures |r| <= |es|
  {
    if es == [] then []
    else
      var last := es[|es| - 1];
      Select(es[..|es| - 1], k) + (if last.Kind() == k then [last] else [])
  }

  lemma {:induction false} SelectAppend(a: seq<Event>, b: seq<Event>, k: EventKind)
    ensures Select(a + b, k) == Select(a, k) + Select(b, k)
    decreases |b|
  {
    if b == [] {
      assert a + b == a;
    } else {
      assert (a + b)[..|a + b| - 1] == a + b[..|b| - 1];
      SelectAppend(a, b[..|b| - 1], k);
    }
  }

  /** The events of kind `k` in a one-event trace. */
  lemma SelectOne(e: Event, k: EventKind)
    ensures Select([e], k) == if e.Kind() == k then [e] else []
  {
    assert [e][..0] == [];
  }

  // ---------------------------------------------------------------------
  // Admission: registerConn

  /** The events of `registerConn(conn)` when `epoller.Add` succeeds (`added`)
      or fails, with connect callback slot `onConnect`. */
  function AdmitEvents(conn: Conn, added: bool, onConnect: Option<Callback>): seq<Event> {
    if !added then [ConnClosed(conn)]
    else if onConnect.Some? then [ConnectNotified(onConnect.value, conn)]
    else []
  }

  /** Admission closes the raw connection exactly when `Add` fails, and runs
      the connect callback, once, exactly when `Add` succeeds and a callback
      is set; it never writes, dispatches or reports a disconnect. */
  lemma AdmitEventsKinds(conn: Conn, added: bool, onConnect: Option<Callback>)
    ensures Select(AdmitEvents(conn, added, onConnect), CloseKind)
         == (if added then [] else [ConnClosed(conn)])
    ensures Select(AdmitEvents(conn, added, onConnect), ConnectKind)
         == (if added && onConnect.Some? then [ConnectNotified(onConnect.value, conn)] else [])
    ensures Select(AdmitEvents(conn, added, onConnect), DisconnectKind) == []
    ensures Select(AdmitEvents(conn, added, onConnect), WriteKind) == []
    ensures Select(AdmitEvents(conn, added, onConnect), HandleKind) == []
  {
    var es := AdmitEvents(conn, added, onConnect);
    if es != [] {
      forall k: EventKind ensures Select(es, k) == if es[0].Kind() == k then [es[0]] else [] {
        SelectOne(es[0], k);
      }
    }
  }

  // ---------------------------------------------------------------------
  // Close

  /** The events of `Close(conn)` with disconnect callback slot `onDisconnect`.
      They do not depend on whether `epoller.Remove` succeeded. */
  function CloseEvents(conn: Conn, onDisconnect: Option<Callback>): seq<Event> {
    [ConnClosed(conn)] + (if onDisconnect.Some? then [DisconnectNotified(onDisconnect.value, conn)] else [])
  }

  /** Close first closes the connection, exactly once, and then runs the
      disconnect callback once if one is set; it never admits, writes or
      dispatches. */
  lemma CloseEventsKinds(conn: Conn, onDisconnect: Option<Callback>)
    ensures |CloseEvents(conn, onDisconnect)| > 0 && CloseEvents(conn, onDisconnect)[0] == ConnClosed(conn)
    ensures Select(CloseEvents(conn, onDisconnect), CloseKind) == [ConnClosed(conn)]
    ensures Select(CloseEvents(conn, onDisconnect), DisconnectKind)
         == (if onDisconnect.Some? then [DisconnectNotified(onDisconnect.value, conn)] else [])
    ensures Select(CloseEvents(conn, onDisconnect), ConnectKind) == []
    ensures Select(CloseEvents(conn, onDisconnect), WriteKind) == []
    ensures Select(CloseEvents(conn, onDisconnect), HandleKind) == []
  {
    var closed := ConnClosed(conn);
    forall k: EventKind ensures Select([closed], k) == if k == CloseKind then [closed] else [] {
      SelectOne(closed, k);
    }
    if onDisconnect.Some? {
      var notice := DisconnectNotified(onDisconnect.value, conn);
      assert CloseEvents(conn, onDisconnect) == [closed] + [notice];
      forall k: EventKind
        ensures Select([closed] + [notice], k)
             == Select([closed], k) + (if k == DisconnectKind then [notice] else [])
      {
        SelectAppend([closed], [notice], k);
        SelectOne(notice, k);
      }
    } else {
      assert CloseEvents(conn, onDisconnect) == [closed];
    }
  }

  /** Closing the same connection twice notifies the disconnect callback twice:
      nothing guards the callback on a successful removal. */
  lemma CloseTwiceNotifiesTwice(conn: Conn, onDisconnect: Option<Callback>)
    requires onDisconnect.Some?
    ensures var cb := onDisconnect.value;
      Select(CloseEvents(conn, onDisconnect) + CloseEvents(conn, onDisconnect), DisconnectKind)
        == [DisconnectNotified(cb, conn), DisconnectNotified(cb, conn)]
  {
    CloseEventsKinds(conn, onDisconnect);
    SelectAppend(CloseEvents(conn, onDisconnect), CloseEvents(conn, onDisconnect), DisconnectKind);
  }

  // ---------------------------------------------------------------------
  // Broadcast

  /** The writes of a broadcast that visits the registry's identifiers in
      `order`: every visited connection whose `ID()` is not in `ignores` is
      written `payload` once; `ok` records whether its write succeeded. */
  function Fanout(order: seq<ConnId>, live: map<ConnId, Conn>, payload: Bytes,
                  ignores: seq<ConnId>, failing: set<ConnId>): seq<Event>
    requires forall k :: k in order ==> k in live
  {
    if order == [] then []
    else
      var conn := live[order[|order| - 1]];
      Fanout(order[..|order| - 1], live, payload, ignores, failing)
        + (if conn.id in ignores then [] else [Wrote(conn, payload, conn.id !in failing)])
  }

  /** `order` lists every element of `s` exactly once. */
  ghost predicate Enumerates(order: seq<ConnId>, s: set<ConnId>) {
    && (forall i, j :: 0 <= i < j < |order| ==> order[i] != order[j])
    && (forall k :: k in order <==> k in s)
  }

  /** The writes owed to the connections registered under `s`: one per
      connection whose identifier is not ignored. */
  ghost function Deliveries(s: set<ConnId>, live: map<ConnId, Conn>, payload: Bytes,
                            ignores: seq<ConnId>, failing: set<ConnId>): set<Event>
    requires s <= live.Keys
  {
    set k | k in s && live[k].id !in ignores :: Wrote(live[k], payload, live[k].id !in failing)
  }

  /** The identifiers among `s` a broadcast does not ignore. */
  ghost function Recipients(s: set<ConnId>, live: map<ConnId, Conn>, ignores: seq<ConnId>): set<ConnId>
    requires s <= live.Keys
  {
    set k | k in s && live[k].id !in ignores
  }

  /** Dropping the last identifier of an enumeration enumerates the rest. */
  lemma EnumeratesInit(order: seq<ConnId>, s: set<ConnId>)
    requires Enumerates(order, s) && order != []
    ensures Enumerates(order[..|order| - 1], s - {order[|order| - 1]})
  {
    var n := |order| - 1;
    var prefix := order[..n];
    forall k ensures k in prefix <==> k in s - {order[n]} {
      if k in prefix {
        var i :| 0 <= i < n && prefix[i] == k;
        assert order[i] == k;
      }
      if k in s - {order[n]} {
        assert k in order;
        var i :| 0 <= i < |order| && order[i] == k;
        assert prefix[i] == k;
      }
    }
  }

  /** Visiting one more connection adds its write unless it is ignored, and
      that write is not owed to any other connection. */
  lemma DeliveriesGrow(rest: set<ConnId>, x: ConnId, live: map<ConnId, Conn>, payload: Bytes,
                       ignores: seq<ConnId>, failing: set<ConnId>, e: Event)
    requires KeysConsistent(live) && rest <= live.Keys && x in live && x !in rest
    ensures Wrote(live[x], payload, live[x].id !in failing) !in Deliveries(rest, live, payload, ignores, failing)
    ensures e in Deliveries(rest + {x}, live, payload, ignores, failing)
        <==> e in Deliveries(rest, live, payload, ignores, failing)
             || (live[x].id !in ignores && e == Wrote(live[x], payload, live[x].id !in failing))
  {
  }

  /** Visiting one more connection adds it to the recipients unless it is ignored. */
  lemma RecipientsGrow(rest: set<ConnId>, x: ConnId, live: map<ConnId, Conn>, ignores: seq<ConnId>)
    requires rest <= live.Keys && x in live && x !in rest
    ensures Recipients(rest + {x}, live, ignores)
         == Recipients(rest, live, ignores) + (if live[x].id in ignores then {} else {x})
  {
  }

  /** Whatever order the registry is visited in, the broadcast performs
      each owed write exactly once and no other event. */
  lemma {:induction false} FanoutDeliversExactly(order: seq<ConnId>, s: set<ConnId>, live: map<ConnId, Conn>,
                                                 payload: Bytes, ignores: seq<ConnId>, failing: set<ConnId>,
                                                 e: Event)
    requires KeysConsistent(live) && s <= live.Keys && Enumerates(order, s)
    ensures multiset(Fanout(order, live, payload, ignores, failing))[e]
         == if e in Deliveries(s, live, payload, ignores, failing) then 1 else 0
    decreases |order|
  {
    if order == [] {
      assert s == {};
    } else {
      var n := |order| - 1;
      var x := order[n];
      var rest := s - {x};
      EnumeratesInit(order, s);
      FanoutDeliversExactly(order[..n], rest, live, payload, ignores, failing, e);
      assert s == rest + {x};
      DeliveriesGrow(rest, x, live, payload, ignores, failing, e);
      var conn := live[x];
      var w := Wrote(conn, payload, conn.id !in failing);
      var tail := if conn.id in ignores then [] else [w];
      var before := Fanout(order[..n], live, payload, ignores, failing);
      assert Fanout(order, live, payload, ignores, failing) == before + tail;
      assert multiset(before + tail)[e] == multiset(before)[e] + multiset(tail)[e];
      assert multiset(tail)[e] == if e in tail then 1 else 0;
    }
  }

  /** A broadcast makes one write per connection of `s` it does not ignore. */
  lemma {:induction false} FanoutSize(order: seq<ConnId>, s: set<ConnId>, live: map<ConnId, Conn>,
                                      payload: Bytes, ignores: seq<ConnId>, failing: set<ConnId>)
    requires KeysConsistent(live) && s <= live.Keys && Enumerates(order, s)
    ensures |Fanout(order, live, payload, ignores, failing)| == |Recipients(s, live, ignores)|
    decreases |order|
  {
    if order == [] {
      assert s == {};
      assert Recipients(s, live, ignores) == {};
    } else {
      var n := |order| - 1;
      var x := order[n];
      var rest := s - {x};
      EnumeratesInit(order, s);
      FanoutSize(order[..n], rest, live, payload, ignores, failing);
      assert s == rest + {x};
      RecipientsGrow(rest, x, live, ignores);
    }
  }

  /** Every owed write goes to a registered, non-ignored connection. */
  lemma OwedWrite(e: Event, live: map<ConnId, Conn>, payload: Bytes, ignores: seq<ConnId>, failing: set<ConnId>)
    requires KeysConsistent(live) && e in Deliveries(live.Keys, live, payload, ignores, failing)
    ensures && e.Wrote? && e.payload == payload
            && e.conn.id in live && live[e.conn.id] == e.conn
            && e.conn.id !in ignores && e.ok == (e.conn.id !in failing)
  {
    var k :| k in live && live[k].id !in ignores && e == Wrote(live[k], payload, live[k].id !in failing);
    assert e.conn.id == k;
  }

  lemma FanoutWritesOnlyOwed(order: seq<ConnId>, live: map<ConnId, Conn>, payload: Bytes,
                              ignores: seq<ConnId>, failing: set<ConnId>, e: Event)
    requires KeysConsistent(live) && Enumerates(order, live.Keys)
    requires e in Fanout(order, live, payload, ignores, failing)
    ensures e in Deliveries(live.Keys, live, payload, ignores, failing)
  {
    FanoutDeliversExactly(order, live.Keys, live, payload, ignores, failing, e);
    assert e in multiset(Fanout(order, live, payload, ignores, failing));
  }

  /** A broadcast over the registry `live` writes only the payload, only to
      registered connections outside `ignores`, and records each write's own
      outcome. */
  lemma BroadcastWritesOnlyRecipients(order: seq<ConnId>, live: map<ConnId, Conn>, payload: Bytes,
                                      ignores: seq<ConnId>, failing: set<ConnId>)
    requires KeysConsistent(live) && Enumerates(order, live.Keys)
    ensures forall e :: e in Fanout(order, live, payload, ignores, failing) ==>
              && e.Wrote? && e.payload == payload
              && e.conn.id in live && live[e.conn.id] == e.conn
              && e.conn.id !in ignores && e.ok == (e.conn.id !in failing)
  {
    forall e | e in Fanout(order, live, payload, ignores, failing)
      ensures && e.Wrote? && e.payload == payload
              && e.conn.id in live && live[e.conn.id] == e.conn
              && e.conn.id !in ignores && e.ok == (e.conn.id !in failing)
    {
      FanoutWritesOnlyOwed(order, live, payload, ignores, failing, e);
      OwedWrite(e, live, payload, ignores, failing);
    }
  }

  /** Every registered connection outside `ignores` is written exactly once,
      whichever other writes fail. */
  lemma BroadcastWritesEachRecipientOnce(order: seq<ConnId>, live: map<ConnId, Conn>, payload: Bytes,
                                         ignores: seq<ConnId>, failing: set<ConnId>)
    requires KeysConsistent(live) && Enumerates(order, live.Keys)
    ensures forall id :: id in live && id !in ignores ==>
              multiset(Fanout(order, live, payload, ignores, failing))[Wrote(live[id], payload, id !in failing)] == 1
  {
    var owed := Deliveries(live.Keys, live, payload, ignores, failing);
    forall id | id in live && id !in ignores
      ensures multiset(Fanout(order, live, payload, ignores, failing))[Wrote(live[id], payload, id !in failing)] == 1
    {
      assert live[id].id == id;
      assert Wrote(live[id], payload, live[id].id !in failing) in owed;
      FanoutDeliversExactly(order, live.Keys, live, payload, ignores, failing, Wrote(live[id], payload, id !in failing));
    }
  }

  /** With N registered connections of which k are ignored, a broadcast
      makes exactly N - k writes. */
  lemma BroadcastWriteCount(order: seq<ConnId>, live: map<ConnId, Conn>, payload: Bytes,
                            ignores: seq<ConnId>, failing: set<ConnId>)
    requires KeysConsistent(live) && Enumerates(order, live.Keys)
    ensures |Fanout(order, live, payload, ignores, failing)| == |set id | id in live && id !in ignores|
  {
    FanoutSize(order, live.Keys, live, payload, ignores, failing);
    assert Recipients(live.Keys, live, ignores) == set id | id in live && id !in ignores;
  }

  // ---------------------------------------------------------------------
  // One iteration of the event loop

  /** The events of processing one ready connection: a failed context
      extraction closes it, a successful one is handed to the engine. */
  function StepEvents(r: Readiness, onDisconnect: Option<Callback>): seq<Event> {
    match r.ctx
    case None => CloseEvents(r.conn, onDisconnect)
    case Some(ctx) => [Handled(ctx)]
  }

  /** Processing one ready connection either closes it (and reports it to
      the disconnect callback if set) or dispatches its context, never both. */
  lemma StepEventsKinds(r: Readiness, onDisconnect: Option<Callback>)
    ensures Select(StepEvents(r, onDisconnect), HandleKind)
         == (if r.ctx.Some? then [Handled(r.ctx.value)] else [])
    ensures Select(StepEvents(r, onDisconnect), CloseKind)
         == (if r.ctx.None? then [ConnClosed(r.conn)] else [])
    ensures Select(StepEvents(r, onDisconnect), DisconnectKind)
         == (if r.ctx.None? && onDisconnect.Some? then [DisconnectNotified(onDisconnect.value, r.conn)] else [])
    ensures Select(StepEvents(r, onDisconnect), WriteKind) == []
    ensures Select(StepEvents(r, onDisconnect), ConnectKind) == []
  {
    match r.ctx
    case None =>
      CloseEventsKinds(r.conn, onDisconnect);
    case Some(ctx) =>
      forall k: EventKind ensures Select([Handled(ctx)], k) == if k == HandleKind then [Handled(ctx)] else [] {
        SelectOne(Handled(ctx), k);
      }
  }

  /** The events of processing a batch, connection by connection. */
  function BatchEvents(batch: seq<Readiness>, onDisconnect: Option<Callback>): seq<Event> {
    if batch == [] then []
    else BatchEvents(batch[..|batch| - 1], onDisconnect) + StepEvents(batch[|batch| - 1], onDisconnect)
  }

  /** The registry after a batch: each connection whose context extraction
      failed is removed when its `epoller.Remove` succeeds. */
  function LiveAfter(live: map<ConnId, Conn>, batch: seq<Readiness>): map<ConnId, Conn> {
    if batch == [] then live
    else
      var r := batch[|batch| - 1];
      var before := LiveAfter(live, batch[..|batch| - 1]);
      if r.ctx.None? && r.removeOk then before - {r.conn.id} else before
  }

  /** Reference views of a batch, read off the batch alone: the contexts
      extracted, in batch order ... */
  function HandledIn(batch: seq<Readiness>): seq<Event> {
    if batch == [] then []
    else
      var r := batch[|batch| - 1];
      HandledIn(batch[..|batch| - 1]) + (if r.ctx.Some? then [Handled(r.ctx.value)] else [])
  }

  /** ... the connections whose extraction failed, as closes ... */
  function ClosedIn(batch: seq<Readiness>): seq<Event> {
    if batch == [] then []
    else
      var r := batch[|batch| - 1];
      ClosedIn(batch[..|batch| - 1]) + (if r.ctx.None? then [ConnClosed(r.conn)] else [])
  }

  /** ... and as notifications of the disconnect callback `cb`. */
  function NotifiedIn(batch: seq<Readiness>, cb: Callback): seq<Event> {
    if batch == [] then []
    else
      var r := batch[|batch| - 1];
      NotifiedIn(batch[..|batch| - 1], cb) + (if r.ctx.None? then [DisconnectNotified(cb, r.conn)] else [])
  }

  /** Every ready connection is processed exactly once, in batch order: each
      extracted context is handled once, each failed connection is closed
      once and then reported to the disconnect callback if one is set, and
      a batch neither writes nor admits. */
  lemma {:induction false} BatchProcessesEachOnce(batch: seq<Readiness>, onDisconnect: Option<Callback>)
    ensures Select(BatchEvents(batch, onDisconnect), HandleKind) == HandledIn(batch)
    ensures Select(BatchEvents(batch, onDisconnect), CloseKind) == ClosedIn(batch)
    ensures Select(BatchEvents(batch, onDisconnect), DisconnectKind)
         == (if onDisconnect.Some? then NotifiedIn(batch, onDisconnect.value) else [])
    ensures Select(BatchEvents(batch, onDisconnect), WriteKind) == []
    ensures Select(BatchEvents(batch, onDisconnect), ConnectKind) == []
    decreases |batch|
  {
    if batch != [] {
      var prefix := batch[..|batch| - 1];
      var step := StepEvents(batch[|batch| - 1], onDisconnect);
      BatchProcessesEachOnce(prefix, onDisconnect);
      StepEventsKinds(batch[|batch| - 1], onDisconnect);
      SelectAppend(BatchEvents(prefix, onDisconnect), step, HandleKind);
      SelectAppend(BatchEvents(prefix, onDisconnect), step, CloseKind);
      SelectAppend(BatchEvents(prefix, onDisconnect), step, DisconnectKind);
      SelectAppend(BatchEvents(prefix, onDisconnect), step, WriteKind);
      SelectAppend(BatchEvents(prefix, onDisconnect), step, ConnectKind);
    }
  }

  /** Some failed extraction in `batch` removed the connection registered under `id`. */
  ghost predicate Evicted(batch: seq<Readiness>, id: ConnId) {
    exists i :: 0 <= i < |batch| && batch[i].ctx.None? && batch[i].removeOk && batch[i].conn.id == id
  }

  /** A batch removes exactly the connections it closed with a successful
      `Remove`, adds nothing and changes no entry it keeps. */
  lemma {:induction false} LiveAfterRemovesEvicted(live: map<ConnId, Conn>, batch: seq<Readiness>)
    ensures forall id :: id in LiveAfter(live, batch) <==> id in live && !Evicted(batch, id)
    ensures forall id :: id in LiveAfter(live, batch) ==> LiveAfter(live, batch)[id] == live[id]
    ensures KeysConsistent(live) ==> KeysConsistent(LiveAfter(live, batch))
    decreases |batch|
  {
    if batch != [] {
      var n := |batch| - 1;
      var prefix := batch[..n];
      var r := batch[n];
      LiveAfterRemovesEvicted(live, prefix);
      forall id
        ensures Evicted(batch, id)
            <==> Evicted(prefix, id) || (r.ctx.None? && r.removeOk && r.conn.id == id)
      {
        if Evicted(prefix, id) {
          var i :| 0 <= i < n && prefix[i].ctx.None? && prefix[i].removeOk && prefix[i].conn.id == id;
          assert batch[i] == prefix[i];
        }
        if Evicted(batch, id) {
          var i :| 0 <= i < |batch| && batch[i].ctx.None? && batch[i].removeOk && batch[i].conn.id == id;
          if i < n {
            assert prefix[i] == batch[i];
          }
        }
      }
    }
  }
}
