/**
 The callbacks of TcpServer as one loop runs them, on the fields themselves.  With a single loop no callback
 interleaves with another, so the connection limit is never exceeded.
 */
module TcpServerLoop {
  import opened TcpServer

  datatype Status = Connected | Closed

  class SingleLoopServer {
    const maxConnections: nat
    var channels: map<Conn, Status>
    var connectionNum: int

    /** Connections dispatched to the loop whose newConnEvent has not run yet, and connections turned away. */
    ghost var posted: set<Conn>
    ghost var rejected: nat

    ghost predicate Valid()
      reads this
    {
      && |channels| <= maxConnections
      && posted !! channels.Keys
      && connectionNum == |channels| + |posted| + rejected
    }

    constructor (maxConnections: nat)
      ensures Valid() && this.maxConnections == maxConnections && channels == map[] && posted == {} && rejected == 0
    {
      this.maxConnections, channels, connectionNum, posted, rejected := maxConnections, map[], 0, {}, 0;
    }

    method OnAccept(connio: Conn)
      requires Valid() && connio !in posted && connio !in channels
      modifies this`connectionNum, this`posted
      ensures Valid() && posted == old(posted) + {connio} && connectionNum == old(connectionNum) + 1
    {
      connectionNum := connectionNum + 1;
      posted := posted + {connio};
    }

    method NewConnEvent(connio: Conn) returns (registered: bool)
      requires Valid() && connio in posted
      modifies this`channels, this`posted, this`rejected
      ensures Valid() && posted == old(posted) - {connio}
      ensures registered <==> old(|channels|) < maxConnections
      ensures channels == if registered then old(channels)[connio := Connected] else old(channels)
      ensures rejected == old(rejected) + if registered then 0 else 1
    {
      posted := posted - {connio};
      if |channels| >= maxConnections {
        rejected := rejected + 1;
        return false;
      }
      AddedKey(channels, connio, Connected);
      channels := channels[connio := Connected];
      registered := true;
    }

    method OnClose(id: Conn)
      requires Valid() && id in channels
      modifies this`channels, this`connectionNum
      ensures Valid() && channels == old(channels) - {id} && connectionNum == old(connectionNum) - 1
    {
      connectionNum := connectionNum - 1;
      channels := channels[id := Closed];
      RemovedKey(channels, id);
      channels := channels - {id};
    }
  }

  lemma AddedKey(m: map<Conn, Status>, c: Conn, st: Status)
    requires c !in m
    ensures |m[c := st]| == |m| + 1
  {
    assert m[c := st].Keys == m.Keys + {c};
  }

  lemma RemovedKey(m: map<Conn, Status>, c: Conn)
    requires c in m
    ensures |m - {c}| == |m| - 1
  {
    assert (m - {c}).Keys == m.Keys - {c};
    assert |m.Keys - {c}| == |m.Keys| - 1;
  }
}
