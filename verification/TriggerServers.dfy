/**
 * The level-triggered and the edge-triggered server as written: each method
 * does to its fields and its socket what TriggerRuns says, and the bytes sent
 * are always the prefix of the response of length `send_len`.
 */
module TriggerServers {
  import opened Bytes
  import opened Epoll
  import opened TcpEndpoint
  import opened TriggerRuns

  class LevelConnection {
    const sock: Endpoint
    const response: seq<Byte>
    var recv_len: nat
    var send_len: nat
    var enable_epollout: bool

    ghost predicate Valid()
      reads this, sock
    {
      && send_len <= |response| && sock.sent == response[..send_len]
      && enable_epollout == sock.k.interest
    }

    /** The connection as a value, for as long as it is open. */
    ghost function View(): Conn
      reads this, sock
    {
      Conn(sock.k, send_len, recv_len, true)
    }

    constructor (sock: Endpoint, response: seq<Byte>)
      requires sock.sent == [] && !sock.k.interest
      modifies sock
      ensures Valid() && this.sock == sock && this.response == response
      ensures View() == TriggerRuns.SendBuf(Level, Conn(old(sock.k), 0, 0, true), |response|).c
    {
      this.sock := sock;
      this.response := response;
      recv_len, send_len := 0, 0;
      enable_epollout := false;
      new;
      var ret := SendBuf();
    }

    method SetEpollout(flag: bool)
      modifies this`enable_epollout, sock`k
      ensures enable_epollout == flag && sock.k == old(sock.k).(interest := flag)
    {
      sock.Modify(flag);
      enable_epollout := flag;
    }

    /** Interest is changed only if it has to be. */
    method Arm(flag: bool)
      requires enable_epollout == sock.k.interest
      modifies this`enable_epollout, sock`k
      ensures enable_epollout == flag && sock.k == old(sock.k).(interest := flag)
    {
      if enable_epollout != flag {
        SetEpollout(flag);
      }
    }

    /** What follows the loop of `send_buf`. */
    method Conclude(again: bool, ghost c: Conn, ghost s: Outcome) returns (ret: int)
      requires Valid()
      requires View() == c.(k := s.k, send_len := c.send_len + s.count) && (send_len < |response| ==> again == s.again)
      modifies this`enable_epollout, sock`k
      ensures Valid() && Result(View(), ret) == Concluded(Level, c, |response|, s)
    {
      if send_len == |response| {
        Arm(false);
        return 1;
      }
      if again {
        Arm(true);
        return 0;
      }
      return -1;
    }

    method SendBuf() returns (ret: int)
      requires Valid()
      modifies this`send_len, this`enable_epollout, sock
      ensures Valid() && Result(View(), ret) == TriggerRuns.SendBuf(Level, old(View()), |response|)
    {
      ghost var c, s := View(), SendRun(sock.k, |response| - send_len);
      var tmp, again;
      send_len, tmp, again := SendLoop(sock, response, send_len);
      ret := Conclude(tmp < 0 && again, c, s);
    }

    method HandleSend() returns (ret: int)
      requires Valid()
      modifies this`send_len, this`enable_epollout, sock
      ensures Valid() && Result(View(), ret) == TriggerRuns.HandleSend(Level, old(View()), |response|)
    {
      var n := SendBuf();
      ret := if n == 0 then 0 else -1;
    }

    method HandleRecv() returns (ret: int)
      requires Valid()
      modifies this`recv_len, sock`k
      ensures Valid() && Result(View(), ret) == TriggerRuns.HandleRecv(old(View()))
    {
      var tmp, again;
      recv_len, tmp, again := RecvLoop(sock, recv_len);
      ret := if tmp < 0 && again then 0 else -1;
    }

    method Handle(ev: Events) returns (ret: int)
      requires Valid()
      modifies this`recv_len, this`send_len, this`enable_epollout, sock
      ensures Valid() && Result(View(), ret) == TriggerRuns.Handle(Level, old(View()), |response|, ev)
    {
      if ev.other {
        return -1;
      }
      if ev.writable {
        var n := HandleSend();
        if n < 0 {
          return -1;
        }
      }
      if ev.readable {
        var n := HandleRecv();
        if n < 0 {
          return -1;
        }
      }
      return 0;
    }
  }

  class EdgeConnection {
    const sock: Endpoint
    const response: seq<Byte>
    var recv_len: nat
    var send_len: nat

    ghost predicate Valid()
      reads this, sock
    {
      send_len <= |response| && sock.sent == response[..send_len]
    }

    /** The connection as a value, for as long as it is open. */
    ghost function View(): Conn
      reads this, sock
    {
      Conn(sock.k, send_len, recv_len, true)
    }

    constructor (sock: Endpoint, response: seq<Byte>)
      requires sock.sent == []
      modifies sock
      ensures Valid() && this.sock == sock && this.response == response
      ensures View() == TriggerRuns.SendBuf(Edge, Conn(old(sock.k), 0, 0, true), |response|).c
    {
      this.sock := sock;
      this.response := response;
      recv_len, send_len := 0, 0;
      new;
      var ret := SendBuf();
    }

    method SendBuf() returns (ret: int)
      requires Valid()
      modifies this`send_len, sock
      ensures Valid() && Result(View(), ret) == TriggerRuns.SendBuf(Edge, old(View()), |response|)
    {
      var tmp, again;
      send_len, tmp, again := SendLoop(sock, response, send_len);
      if send_len == |response| {
        return 1;
      }
      if tmp < 0 && again {
        return 0;
      }
      return -1;
    }

    method HandleSend() returns (ret: int)
      requires Valid()
      modifies this`send_len, sock
      ensures Valid() && Result(View(), ret) == TriggerRuns.HandleSend(Edge, old(View()), |response|)
    {
      var n := SendBuf();
      ret := if n == 0 then 0 else -1;
    }

    method HandleRecv() returns (ret: int)
      requires Valid()
      modifies this`recv_len, sock`k
      ensures Valid() && Result(View(), ret) == TriggerRuns.HandleRecv(old(View()))
    {
      var tmp, again;
      recv_len, tmp, again := RecvLoop(sock, recv_len);
      ret := if tmp < 0 && again then 0 else -1;
    }

    method Handle(ev: Events) returns (ret: int)
      requires Valid()
      modifies this`recv_len, this`send_len, sock
      ensures Valid() && Result(View(), ret) == TriggerRuns.Handle(Edge, old(View()), |response|, ev)
    {
      if ev.other {
        return -1;
      }
      if ev.writable {
        var n := HandleSend();
        if n < 0 {
          return -1;
        }
      }
      if ev.readable {
        var n := HandleRecv();
        if n < 0 {
          return -1;
        }
      }
      return 0;
    }
  }

  /** The connection after i turns. */
  ghost predicate IsLife(c: Conn, mode: Mode, k: Kernel, total: nat, ready: seq<bool>, i: nat) {
    i <= |ready| && c == Life(mode, k, total, ready[..i])
  }

  lemma LifeStarts(mode: Mode, k: Kernel, total: nat, ready: seq<bool>) returns (c: Conn)
    ensures c == Start(mode, k, total) && IsLife(c, mode, k, total, ready, 0)
  {
    c := Start(mode, k, total);
  }

  lemma LifeTurns(c: Conn, mode: Mode, k: Kernel, total: nat, ready: seq<bool>, i: nat)
    requires i < |ready| && IsLife(c, mode, k, total, ready, i)
    ensures c.send_len <= total && IsLife(Turn(mode, c, total, ready[i]), mode, k, total, ready, i + 1)
  {
    assert ready[..i + 1][..i] == ready[..i];
  }

  /** One turn of the event loop. */
  method TurnLevel(conn: LevelConnection, open: bool, read: bool) returns (still: bool)
    requires conn.Valid()
    modifies conn, conn.sock
    ensures conn.Valid()
    ensures conn.View().(open := still) == Turn(Level, old(conn.View()).(open := open), |conn.response|, read)
  {
    still := open;
    if open {
      conn.sock.Environment();
      var failed := conn.sock.k.failed;
      var writable := conn.sock.Poll(Level);
      if writable || read || failed {
        var ret := conn.Handle(Events(read, writable, failed));
        still := ret == 0;
      }
    }
  }

  /** The event loop around a level-triggered connection. */
  method ServeLevel(k: Kernel, response: seq<Byte>, ready: seq<bool>) returns (c: Conn, ghost sent: seq<Byte>)
    ensures c == Life(Level, k, |response|, ready)
    ensures sent == response[..c.send_len]
  {
    var sock := new Endpoint(k);
    sock.Register(Level);
    var conn := new LevelConnection(sock, response);
    var open, i := true, 0;
    ghost var life := LifeStarts(Level, k, |response|, ready);
    while i < |ready|
      invariant 0 <= i <= |ready|
      invariant fresh(conn) && fresh(conn.sock) && conn.Valid() && conn.response == response
      invariant conn.View().(open := open) == life && IsLife(life, Level, k, |response|, ready, i)
    {
      LifeTurns(life, Level, k, |response|, ready, i);
      open := TurnLevel(conn, open, ready[i]);
      life := Turn(Level, life, |response|, ready[i]);
      i := i + 1;
    }
    assert ready[..i] == ready;
    c := Conn(conn.sock.k, conn.send_len, conn.recv_len, open);
    sent := conn.sock.sent;
  }

  /** One turn of the event loop. */
  method TurnEdge(conn: EdgeConnection, open: bool, read: bool) returns (still: bool)
    requires conn.Valid()
    modifies conn, conn.sock
    ensures conn.Valid()
    ensures conn.View().(open := still) == Turn(Edge, old(conn.View()).(open := open), |conn.response|, read)
  {
    still := open;
    if open {
      conn.sock.Environment();
      var failed := conn.sock.k.failed;
      var writable := conn.sock.Poll(Edge);
      if writable || read || failed {
        var ret := conn.Handle(Events(read, writable, failed));
        still := ret == 0;
      }
    }
  }

  /** The event loop around an edge-triggered connection. */
  method ServeEdge(k: Kernel, response: seq<Byte>, ready: seq<bool>) returns (c: Conn, ghost sent: seq<Byte>)
    ensures c == Life(Edge, k, |response|, ready)
    ensures sent == response[..c.send_len]
  {
    var sock := new Endpoint(k);
    sock.Register(Edge);
    var conn := new EdgeConnection(sock, response);
    var open, i := true, 0;
    ghost var life := LifeStarts(Edge, k, |response|, ready);
    while i < |ready|
      invariant 0 <= i <= |ready|
      invariant fresh(conn) && fresh(conn.sock) && conn.Valid() && conn.response == response
      invariant conn.View().(open := open) == life && IsLife(life, Edge, k, |response|, ready, i)
    {
      LifeTurns(life, Edge, k, |response|, ready, i);
      open := TurnEdge(conn, open, ready[i]);
      life := Turn(Edge, life, |response|, ready[i]);
      i := i + 1;
    }
    assert ready[..i] == ready;
    c := Conn(conn.sock.k, conn.send_len, conn.recv_len, open);
    sent := conn.sock.sent;
  }
}
