/** Clients of the server that drive it through whole lifecycles and state
    what an application observes, using only the operations' contracts. */
module Scenarios {
  import opened ServerTypes
  import opened Observations
  import opened Server

  /** Three admitted connections A, B and C; a broadcast that ignores B
      writes the payload once to A and once to C and nothing to B. */
  method BroadcastIgnoringOne(a: Conn, b: Conn, c: Conn, response: Response) returns (written: seq<Event>)
    requires a.id != b.id && b.id != c.id && a.id != c.id
    ensures multiset(written)[Wrote(a, response.body, true)] == 1
    ensures multiset(written)[Wrote(c, response.body, true)] == 1
    ensures forall e :: e in written ==> e.Wrote? && e.conn != b
  {
    var srv := new EpollServer();
    srv.RegisterConn(a, true);
    srv.RegisterConn(b, true);
    srv.RegisterConn(c, true);
    var live := srv.live;
    assert live == map[a.id := a, b.id := b, c.id := c];
    var before := srv.trace;
    ghost var order := srv.Broadcast(response, [b.id], {});
    ghost var out := Fanout(order, live, response.body, [b.id], {});
    assert srv.trace == before + out;
    written := srv.trace[|before|..];
    assert written == out;
    assert multiset(written)[Wrote(a, response.body, true)] == 1 by {
      assert a.id in live && live[a.id] == a && a.id !in [b.id];
      BroadcastWritesEachRecipientOnce(order, live, response.body, [b.id], {});
    }
    assert multiset(written)[Wrote(c, response.body, true)] == 1 by {
      assert c.id in live && live[c.id] == c && c.id !in [b.id];
      BroadcastWritesEachRecipientOnce(order, live, response.body, [b.id], {});
    }
    BroadcastWritesOnlyRecipients(order, live, response.body, [b.id], {});
  }

  /** A registered connection D whose context cannot be read is removed
      from the registry, closed once, and reported to the disconnect
      callback once. */
  method ContextFailureDisconnects(d: Conn, cb: Callback) returns (stillLive: bool, events: seq<Event>)
    ensures !stillLive
    ensures Select(events, CloseKind) == [ConnClosed(d)]
    ensures Select(events, DisconnectKind) == [DisconnectNotified(cb, d)]
    ensures Select(events, HandleKind) == []
  {
    var srv := new EpollServer();
    srv.HandleDisconnect(Some(cb));
    srv.RegisterConn(d, true);
    var before := srv.trace;
    var batch := [Readiness(d, None, true)];
    srv.Poll(Ready(batch));
    stillLive := d.id in srv.live;
    events := srv.trace[|before|..];
    assert events == BatchEvents(batch, Some(cb));
    assert batch[..0] == [];
    BatchProcessesEachOnce(batch, Some(cb));
    assert ClosedIn(batch) == [ConnClosed(d)];
    assert NotifiedIn(batch, cb) == [DisconnectNotified(cb, d)];
  }

  /** Closing the same connection twice runs the disconnect callback twice,
      the second removal failing. */
  method CloseTwice(conn: Conn, cb: Callback) returns (events: seq<Event>)
    ensures Select(events, DisconnectKind) == [DisconnectNotified(cb, conn), DisconnectNotified(cb, conn)]
    ensures Select(events, CloseKind) == [ConnClosed(conn), ConnClosed(conn)]
  {
    var srv := new EpollServer();
    srv.HandleDisconnect(Some(cb));
    srv.RegisterConn(conn, true);
    var before := srv.trace;
    ghost var once := CloseEvents(conn, Some(cb));
    srv.Close(conn, true);
    srv.Close(conn, false);
    assert srv.trace == before + (once + once);
    events := srv.trace[|before|..];
    assert events == once + once;
    CloseTwiceNotifiesTwice(conn, Some(cb));
    SelectAppend(once, once, CloseKind);
  }
}
