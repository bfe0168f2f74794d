/**
 * The echo connection of the level-triggered server: what comes in goes out
 * again, through the ring buffer, as fast as the peer takes it.
 */
module EchoServer {
  import opened Bytes
  import opened Epoll
  import opened RingBuffer
  import opened RingIo
  import EchoRuns

  lemma MovedAcross(sent: seq<Byte>, data: seq<Byte>, left: seq<Byte>)
    ensures sent + (data + left) == (sent + data) + left
  {
  }

  lemma LongerPrefix(whole: seq<Byte>, a: seq<Byte>, b: seq<Byte>)
    requires a <= whole && b <= whole && |a| <= |b|
    ensures a <= b
  {
  }

  class Connection {
    const sock: Socket
    const ring: Buffer
    var enable_epollout: bool

    /** Conservation: sent bytes followed by stored bytes are the received bytes, in order. */
    ghost predicate Valid()
      reads this, sock, ring, ring.buf
    {
      && ring.Valid()
      && sock.received == sock.sent + ring.Contents() && ring.sends == |sock.sent|
      && enable_epollout == sock.interest
    }

    /** The connection as a value. */
    ghost function View(): EchoRuns.Conn
      reads this, sock
    {
      EchoRuns.Conn(sock.moves, sock.received, |sock.sent|, enable_epollout)
    }

    /**
     * Interest in writability is registered exactly while there is something left
     * to send, and something is left only because the kernel did not take it.
     */
    ghost predicate InterestExact()
      reads this, sock, ring
    {
      && (enable_epollout <==> ring.sends < ring.recvs)
      && (enable_epollout ==> sock.refused)
    }

    /** The kernel had no more to give, or the ring was full when `sends` stood at some value from `from` on. */
    ghost predicate ReadUp(from: nat)
      reads this, sock, ring
    {
      sock.drained || from <= ring.recvs - (MAX_PKT_SIZE - 1) <= ring.sends
    }

    constructor (moves: seq<Move>)
      ensures Valid() && InterestExact() && View() == EchoRuns.Conn(moves, [], 0, false)
      ensures fresh(sock) && fresh(ring) && fresh(ring.buf)
    {
      sock := new Socket(moves);
      ring := new Buffer();
      enable_epollout := false;
    }

    method SetEpollout(flag: bool)
      modifies this`enable_epollout, sock`interest
      ensures enable_epollout == sock.interest == flag
    {
      sock.Modify(flag);
      enable_epollout := flag;
    }

    /** Both send paths register interest when something is left, and withdraw it when nothing is. */
    method UpdateInterest(left: bool)
      requires Valid()
      modifies this`enable_epollout, sock`interest
      ensures Valid() && View() == old(View()).(interest := left)
    {
      if !left {
        if enable_epollout {
          SetEpollout(false);
        }
      } else {
        if !enable_epollout {
          SetEpollout(true);
        }
      }
    }

    /** One recv or recvmsg. */
    method Fill(iov: seq<Iovec>, ghost len: nat) returns (recv_len: int)
      requires Valid() && 0 < len < MAX_PKT_SIZE - (ring.recvs - ring.sends)
      requires Positions(iov) == Ring(ring.recvs, len)
      modifies sock`moves, sock`received, sock`drained, ring`p, ring`recvs, ring.buf
      ensures Valid() && old(sock.received) <= sock.received
      ensures recv_len == -1 || 0 <= recv_len <= len
      ensures sock.drained <==> recv_len < len
      ensures EchoRuns.Result(View(), recv_len) == EchoRuns.RecvOne(old(View()), len)
      ensures ring.recvs == old(ring.recvs) + if recv_len < 0 then 0 else recv_len
      ensures |sock.received| == |old(sock.received)| + if recv_len < 0 then 0 else recv_len
    {
      ghost var data;
      recv_len, data := ReceivePieces(sock, ring, iov, len);
    }

    /** In the loop below: the first i of the pieces for `len` bytes are full, and it comes to `goal`. */
    ghost predicate Receiving(iov: seq<Iovec>, i: nat, ret: int, len: nat, goal: EchoRuns.Result)
      reads this, sock, ring, ring.buf
    {
      && Valid() && i <= |iov| && (forall v | v in iov :: v.len > 0)
      && ret == Before(iov, i) && Before(iov, |iov|) == len == MAX_PKT_SIZE - 1 - (ring.recvs - ret - ring.sends)
      && ret <= ring.recvs && Positions(iov) == Ring(ring.recvs - ret, len)
      && EchoRuns.Receives(View(), iov, i, ret, goal)
    }

    /** The recv into the i-th free piece. */
    method RecvPiece(iov: seq<Iovec>, i: nat, ghost ret: int, ghost len: nat, ghost goal: EchoRuns.Result)
      returns (recv_len: int)
      requires Receiving(iov, i, ret, len, goal) && i < |iov|
      modifies sock`moves, sock`received, sock`drained, ring`p, ring`recvs, ring.buf
      ensures Valid()
      ensures recv_len == -1 || 0 <= recv_len <= iov[i].len
      ensures recv_len == iov[i].len ==> Receiving(iov, i + 1, ret + recv_len, len, goal)
      ensures recv_len < iov[i].len ==>
        sock.drained && goal == EchoRuns.Result(View(), if recv_len < 0 then -1 else ret + recv_len)
    {
      PieceFollows(iov, ring.recvs - ret, len, i);
      EchoRuns.ReceivesOn(View(), iov, i, ret, goal);
      recv_len := Fill([iov[i]], iov[i].len);
    }

    /** One recv per free piece, until one is not filled: afterwards the ring is full or the kernel had no more. */
    method RecvAll(iov: seq<Iovec>, ghost len: nat, ghost goal: EchoRuns.Result) returns (ret: int)
      requires Receiving(iov, 0, 0, len, goal)
      modifies sock`moves, sock`received, sock`drained, ring`p, ring`recvs, ring.buf
      ensures EchoRuns.Result(View(), ret) == goal
      ensures Valid() && ret >= -1
      ensures ret >= 0 ==> sock.drained || ring.recvs - ring.sends == MAX_PKT_SIZE - 1
    {
      ret := 0;
      var i := 0;
      while i < |iov|
        invariant i <= |iov| && Receiving(iov, i, ret, len, goal)
      {
        var recv_len := RecvPiece(iov, i, ret, len, goal);
        if recv_len < 0 {
          return -1;
        }
        ret := ret + recv_len;
        if recv_len < iov[i].len {
          break;
        }
        i := i + 1;
      }
    }

    method RecvBufNative() returns (ret: int)
      requires Valid()
      modifies sock`moves, sock`received, sock`drained, ring`p, ring`recvs, ring.buf
      ensures EchoRuns.Result(View(), ret) == EchoRuns.RecvBufNative(old(View()))
      ensures Valid()
      ensures old(sock.received) <= sock.received
      ensures ret >= 0 ==> sock.drained || ring.recvs - ring.sends == MAX_PKT_SIZE - 1
      ensures ret >= 0 ==> |sock.received| == |old(sock.received)| + ret
      ensures ret < 0 ==> ret == -1
    {
      EchoRuns.RecvGrows(View());
      if ring.GetBlankSize() <= 0 {
        return 0;
      }
      var iov := ring.GetBlankIovec();
      ghost var len := MAX_PKT_SIZE - 1 - (ring.recvs - ring.sends);
      BeforeAll(iov, ring.recvs, len);
      ret := RecvAll(iov, len, EchoRuns.RecvBufNative(View()));
    }

    /** One send or sendmsg. */
    method Transmit(iov: seq<Iovec>, size: nat) returns (send_len: int)
      requires Valid() && 0 < size <= ring.recvs - ring.sends
      requires Positions(iov) == Ring(ring.sends, size)
      modifies sock`moves, sock`sent, sock`refused, ring`f, ring`sends
      ensures Valid() && old(sock.sent) <= sock.sent
      ensures send_len == -1 || 0 <= send_len <= size
      ensures sock.refused <==> send_len < size
      ensures EchoRuns.Result(View(), send_len) == EchoRuns.SendOne(old(View()), size)
      ensures ring.sends == old(ring.sends) + if send_len < 0 then 0 else send_len
      ensures |sock.sent| == |old(sock.sent)| + if send_len < 0 then 0 else send_len
    {
      ghost var data;
      send_len, data := SendPieces(sock, ring, iov, size);
      MovedAcross(old(sock.sent), data, ring.Contents());
    }

    /** One sendmsg for everything stored. */
    method SendBuf() returns (ret: int)
      requires Valid()
      modifies sock`moves, sock`sent, sock`refused, sock`interest, ring`f, ring`sends, this`enable_epollout
      ensures EchoRuns.Result(View(), ret) == EchoRuns.SendBuf(old(View()))
      ensures Valid()
      ensures old(sock.sent) <= sock.sent && ring.sends >= old(ring.sends)
      ensures ret >= 0 ==> |sock.sent| == |old(sock.sent)| + ret
      ensures ret >= 0 && old(ring.sends) < ring.recvs ==> InterestExact()
      ensures old(ring.sends) == ring.recvs ==>
        ret == 0 && enable_epollout == old(enable_epollout) && ring.sends == ring.recvs
      ensures ret < 0 ==> ret == -1
    {
      var to_send := ring.GetExistSize();
      if to_send <= 0 {
        return 0;
      }
      var iov := ring.GetExistIovec();
      var send_len := Transmit(iov, to_send);
      if send_len < 0 {
        return -1;
      }
      UpdateInterest(send_len < to_send);
      return send_len;
    }

    /** In the loop below: the first i of the pieces for `total` bytes are out, and it comes to `goal`. */
    ghost predicate Sending(iov: seq<Iovec>, i: nat, have: int, total: nat, goal: EchoRuns.Result)
      reads this, sock, ring, ring.buf
    {
      && Valid() && i <= |iov| && (forall v | v in iov :: v.len > 0)
      && have == Before(iov, i) && Before(iov, |iov|) == total == ring.recvs - ring.sends + have
      && have <= ring.sends && Positions(iov) == Ring(ring.sends - have, total)
      && (i == |iov| ==> InterestExact())
      && EchoRuns.Sends(View(), iov, i, have, total, goal)
    }

    /** The send of the i-th of the pieces from f0 on, when those before it are out. */
    method TransmitPiece(iov: seq<Iovec>, i: nat, ghost f0: nat, ghost total: nat) returns (send_len: int)
      requires Valid() && i < |iov| && iov[i].len > 0
      requires Positions(iov) == Ring(f0, total) && ring.recvs == f0 + total && ring.sends == f0 + Before(iov, i)
      modifies sock`moves, sock`sent, sock`refused, ring`f, ring`sends
      ensures Valid()
      ensures send_len == -1 || 0 <= send_len <= iov[i].len
      ensures sock.refused <==> send_len < iov[i].len
      ensures EchoRuns.Result(View(), send_len) == EchoRuns.SendOne(old(View()), iov[i].len)
      ensures ring.sends == old(ring.sends) + if send_len < 0 then 0 else send_len
      ensures Before(iov, i + 1) == Before(iov, i) + iov[i].len <= total == Before(iov, |iov|)
    {
      PieceFollows(iov, f0, total, i);
      send_len := Transmit([iov[i]], iov[i].len);
    }

    /** The same, and the interest that follows from it. */
    method SendPiece(iov: seq<Iovec>, i: nat, ghost f0: nat, have: int, total: nat) returns (send_len: int)
      requires Valid() && i < |iov| && iov[i].len > 0 && have == Before(iov, i)
      requires Positions(iov) == Ring(f0, total) && ring.recvs == f0 + total && ring.sends == f0 + have
      modifies sock`moves, sock`sent, sock`refused, sock`interest, ring`f, ring`sends, this`enable_epollout
      ensures Valid()
      ensures send_len == -1 || 0 <= send_len <= iov[i].len
      ensures EchoRuns.Result(View(), send_len) == EchoRuns.SendPiece(old(View()), iov[i].len, have, total)
      ensures ring.sends == f0 + have + if send_len < 0 then 0 else send_len
      ensures Before(iov, i + 1) == Before(iov, i) + iov[i].len <= total == Before(iov, |iov|)
      ensures send_len >= 0 && (have + send_len == total || send_len < iov[i].len) ==> InterestExact()
    {
      send_len := TransmitPiece(iov, i, f0, total);
      if send_len < 0 {
        return;
      }
      if have + send_len == total {
        UpdateInterest(false);
      } else if send_len < iov[i].len {
        UpdateInterest(true);
      }
    }

    /** One pass of the loop below, on the way to `goal`. */
    method SendNext(iov: seq<Iovec>, i: nat, have: int, total: nat, ghost goal: EchoRuns.Result)
      returns (send_len: int)
      requires Sending(iov, i, have, total, goal) && i < |iov|
      modifies sock`moves, sock`sent, sock`refused, sock`interest, ring`f, ring`sends, this`enable_epollout
      ensures Valid()
      ensures send_len == -1 || 0 <= send_len <= iov[i].len
      ensures send_len == iov[i].len ==> Sending(iov, i + 1, have + send_len, total, goal)
      ensures 0 <= send_len < iov[i].len ==> have + send_len != total && InterestExact()
      ensures send_len < iov[i].len ==> goal == EchoRuns.Result(View(), if send_len < 0 then -1 else have + send_len)
    {
      EchoRuns.SendsOn(View(), iov, i, have, total, goal);
      send_len := SendPiece(iov, i, ring.sends - have, have, total);
    }

    /** One send per stored piece, until one is not taken whole. */
    method SendAll(iov: seq<Iovec>, to_send: nat, ghost goal: EchoRuns.Result) returns (ret: int)
      requires Sending(iov, 0, 0, to_send, goal)
      modifies sock`moves, sock`sent, sock`refused, sock`interest, ring`f, ring`sends, this`enable_epollout
      ensures EchoRuns.Result(View(), ret) == goal
      ensures Valid() && ret >= -1
      ensures ret >= 0 ==> InterestExact()
    {
      var have_send := 0;
      var i := 0;
      while i < |iov|
        invariant i <= |iov| && Sending(iov, i, have_send, to_send, goal)
      {
        var send_len := SendNext(iov, i, have_send, to_send, goal);
        if send_len < 0 {
          return -1;
        }
        have_send := have_send + send_len;
        if have_send != to_send && send_len < iov[i].len {
          break;
        }
        i := i + 1;
      }
      return have_send;
    }

    method SendBufNative() returns (ret: int)
      requires Valid()
      modifies sock`moves, sock`sent, sock`refused, sock`interest, ring`f, ring`sends, this`enable_epollout
      ensures EchoRuns.Result(View(), ret) == EchoRuns.SendBufNative(old(View()))
      ensures Valid()
      ensures old(sock.sent) <= sock.sent && ring.sends >= old(ring.sends)
      ensures ret >= 0 ==> |sock.sent| == |old(sock.sent)| + ret
      ensures ret >= 0 && old(ring.sends) < ring.recvs ==> InterestExact()
      ensures old(ring.sends) == ring.recvs ==>
        ret == 0 && enable_epollout == old(enable_epollout) && ring.sends == ring.recvs
      ensures ret < 0 ==> ret == -1
    {
      EchoRuns.SendGrows(View());
      var to_send := ring.GetExistSize();
      if to_send <= 0 {
        return 0;
      }
      var iov := ring.GetExistIovec();
      BeforeAll(iov, ring.sends, to_send);
      ret := SendAll(iov, to_send, EchoRuns.SendBufNative(View()));
      LongerPrefix(sock.received, old(sock.sent), sock.sent);
    }

    method HandleRead() returns (ret: int)
      requires Valid() && InterestExact()
      modifies this`enable_epollout, sock, ring, ring.buf
      ensures EchoRuns.Result(View(), ret) == EchoRuns.HandleRead(old(View()))
      ensures Valid() && old(sock.sent) <= sock.sent && old(sock.received) <= sock.received
      ensures ret == 0 ==> InterestExact() && ReadUp(old(ring.sends))
      ensures ret == 0 || ret == -1
    {
      var n := RecvBufNative();
      if n < 0 {
        return -1;
      }
      n := SendBufNative();
      if n < 0 {
        return -1;
      }
      return 0;
    }

    method HandleWrite() returns (ret: int)
      requires Valid() && InterestExact()
      modifies this`enable_epollout, sock, ring
      ensures EchoRuns.Result(View(), ret) == EchoRuns.Ok(EchoRuns.SendBuf(old(View())))
      ensures Valid() && old(sock.sent) <= sock.sent && old(sock.received) == sock.received
      ensures ring.sends >= old(ring.sends)
      ensures ret == 0 ==> InterestExact()
      ensures ret == 0 || ret == -1
    {
      var n := SendBuf();
      return if n < 0 then -1 else 0;
    }

    /**
     * The event handler, writing first, then reading: -1 closes the connection.
     * After 0 nothing readable was left behind without cause.
     */
    method Handle(ev: Events) returns (ret: int)
      requires Valid() && InterestExact()
      modifies this`enable_epollout, sock, ring, ring.buf
      ensures EchoRuns.Result(View(), ret) == EchoRuns.Handle(old(View()), ev)
      ensures Valid() && old(sock.sent) <= sock.sent && old(sock.received) <= sock.received
      ensures ret == 0 ==> InterestExact()
      ensures ret == 0 && ev.readable ==> ReadUp(old(ring.sends))
      ensures ev.other ==> ret == -1
      ensures ret == 0 || ret == -1
    {
      if ev.other {
        return -1;
      }
      if ev.writable {
        ret := HandleWrite();
        if ret < 0 {
          return ret;
        }
      }
      if ev.readable {
        ret := HandleRead();
        if ret < 0 {
          return ret;
        }
      }
      return 0;
    }
  }

  /**
   * A connection over its whole life, with any events in any order and any
   * behaviour of the kernel: the program ends where EchoRuns says, what was sent
   * is a prefix of what was received, the rest is stored, and an open connection
   * waits for writability exactly if something is stored.
   */
  method Serve(moves: seq<Move>, events: seq<Events>) returns (conn: Connection, open: bool)
    ensures EchoRuns.Life(conn.View(), open) == EchoRuns.Serve(moves, events)
    ensures conn.Valid() && conn.sock.sent <= conn.sock.received
    ensures conn.sock.received[|conn.sock.sent|..] == conn.ring.Contents()
    ensures open ==> conn.InterestExact() && (conn.sock.interest <==> conn.sock.sent != conn.sock.received)
  {
    conn := new Connection(moves);
    open := true;
    for k := 0 to |events|
      invariant conn.Valid() && (open ==> conn.InterestExact())
      invariant EchoRuns.Life(conn.View(), open) == EchoRuns.Serve(moves, events[..k])
      invariant fresh(conn) && fresh(conn.sock) && fresh(conn.ring) && fresh(conn.ring.buf)
    {
      assert events[..k + 1][..k] == events[..k];
      if open {
        var ret := conn.Handle(events[k]);
        open := ret >= 0;
      }
    }
    assert events[..|events|] == events;
  }
}
