/**
 * The response connection: every 8 bytes received are a request, and every
 * request is answered with one copy of a fixed 256 MiB response.
 */
module ResponseServer {
  import opened Bytes
  import opened Epoll
  import opened RingBuffer
  import opened RingIo
  import ResponseRuns

  const RESPONSE_SIZE := ResponseRuns.RESPONSE_SIZE
  const REQUEST_SIZE := ResponseRuns.REQUEST_SIZE

  /** The first n bytes of copies of the response, one after the other. */
  function Copies(response: seq<Byte>, n: nat): seq<Byte>
    requires |response| == RESPONSE_SIZE
  {
    seq(n, i requires 0 <= i < n => response[i % RESPONSE_SIZE])
  }

  /** Only responses are sent. */
  predicate Answers(response: seq<Byte>, sent: seq<Byte>) {
    |response| == RESPONSE_SIZE && sent == Copies(response, |sent|)
  }

  lemma Within(whole: nat, r: nat)
    requires r < RESPONSE_SIZE
    ensures (RESPONSE_SIZE * whole + r) % RESPONSE_SIZE == r
  {
  }

  /** Sending on from where the last send stopped continues the copies. */
  lemma AnswersContinue(response: seq<Byte>, output: seq<Byte>, whole: nat, pos: nat, n: nat)
    requires Answers(response, output) && |output| == RESPONSE_SIZE * whole + pos && pos + n <= RESPONSE_SIZE
    ensures Answers(response, output + response[pos..][..n])
  {
    var sent := |output|;
    assert response[pos..][..n] == response[pos..pos + n];
    var more := Copies(response, sent + n)[sent..];
    forall i | 0 <= i < n ensures more[i] == response[pos..pos + n][i] {
      Within(whole, pos + i);
    }
    assert more == response[pos..pos + n];
  }

  /** What has been sent is whole responses and the part of the current one. */
  lemma WholeResponses(sent: nat, cnt: nat, pos: nat, requests: nat)
    requires sent + ResponseRuns.Owed(cnt, pos) == RESPONSE_SIZE * requests && pos < RESPONSE_SIZE
    ensures requests - cnt - 1 >= 0 && sent == RESPONSE_SIZE * (requests - cnt - 1) + pos
  {
  }

  lemma WholeRequests(received: nat, taken: nat, requests: nat)
    requires taken == REQUEST_SIZE * requests && taken <= received
    ensures requests <= received / REQUEST_SIZE
    ensures received - taken < REQUEST_SIZE ==> requests == received / REQUEST_SIZE
  {
  }

  lemma GrowsBehind(received: seq<Byte>, data: seq<Byte>, from: nat)
    requires from <= |received|
    ensures (received + data)[from..] == received[from..] + data
  {
  }

  class ResponseConnection {
    const sock: Socket
    const ring: Buffer
    const response_buf: seq<Byte>
    var response_cnt: int
    var response_pos: int
    var enable_epollout: bool
    ghost var requests: nat      // requests taken from the ring so far

    /** Bytes sent and bytes owed make one response for each request taken from the ring. */
    ghost predicate Valid()
      reads this, sock, ring, ring.buf
    {
      && ring.Valid()
      && ring.recvs == |sock.received| && ring.Contents() == sock.received[ring.sends..]
      && ring.sends == REQUEST_SIZE * requests
      && |response_buf| == RESPONSE_SIZE
      && 0 <= response_cnt && 0 <= response_pos <= RESPONSE_SIZE
      && Answers(response_buf, sock.sent)
      && |sock.sent| + ResponseRuns.Owed(response_cnt, response_pos) == RESPONSE_SIZE * requests
      && enable_epollout == sock.interest
    }

    /** The connection as a value. */
    ghost function View(): ResponseRuns.Conn
      reads this, sock
    {
      ResponseRuns.Conn(sock.moves, |sock.received|, requests, |sock.sent|, response_cnt, response_pos, enable_epollout)
    }

    predicate Pending()
      reads this
    {
      response_cnt > 0 || response_pos < RESPONSE_SIZE
    }

    /**
     * Between events: no complete request lies unparsed, interest in writability
     * is registered exactly while a response is owed, and one is owed only because
     * the kernel did not take it.
     */
    ghost predicate AtRest()
      reads this, sock, ring
    {
      && ring.recvs - ring.sends < REQUEST_SIZE
      && (enable_epollout <==> Pending())
      && (Pending() ==> sock.refused)
    }

    /** The kernel had no more to give, or the ring was full when `sends` stood at some value from `from` on. */
    ghost predicate ReadUp(from: nat)
      reads this, sock, ring
    {
      sock.drained || from <= ring.recvs - (MAX_PKT_SIZE - 1) <= ring.sends
    }

    constructor (moves: seq<Move>, response: seq<Byte>)
      requires |response| == RESPONSE_SIZE
      ensures Valid() && AtRest() && response_buf == response
      ensures View() == ResponseRuns.Conn(moves, 0, 0, 0, 0, RESPONSE_SIZE, false)
      ensures fresh(sock) && fresh(ring) && fresh(ring.buf)
    {
      sock := new Socket(moves);
      ring := new Buffer();
      response_buf := response;
      enable_epollout, requests := false, 0;
      response_cnt, response_pos := 0, RESPONSE_SIZE;
    }

    /** Bytes sent and owed, in terms of the requests received. */
    lemma Accounted()
      requires Valid()
      ensures |sock.sent| <= RESPONSE_SIZE * (|sock.received| / REQUEST_SIZE)
      ensures AtRest() ==>
        |sock.sent| + ResponseRuns.Owed(response_cnt, response_pos) == RESPONSE_SIZE * (|sock.received| / REQUEST_SIZE)
      ensures AtRest() && !enable_epollout ==> |sock.sent| == RESPONSE_SIZE * (|sock.received| / REQUEST_SIZE)
    {
      WholeRequests(|sock.received|, ring.sends, requests);
    }

    method SetEpollout(flag: bool)
      modifies this`enable_epollout, sock`interest
      ensures enable_epollout == sock.interest == flag
    {
      sock.Modify(flag);
      enable_epollout := flag;
    }

    /** The recvmsg into all free pieces. */
    method Fill(iov: seq<Iovec>, ghost len: nat) returns (recv_len: int)
      requires Valid() && 0 < len == MAX_PKT_SIZE - 1 - (ring.recvs - ring.sends)
      requires Positions(iov) == Ring(ring.recvs, len)
      modifies sock`moves, sock`received, sock`drained, ring`p, ring`recvs, ring.buf
      ensures ResponseRuns.Result(View(), recv_len) == ResponseRuns.RecvBuf(old(View()))
      ensures Valid() && old(sock.received) <= sock.received
      ensures recv_len >= 0 ==> |sock.received| == |old(sock.received)| + recv_len
      ensures sock.drained <==> recv_len < len
    {
      ghost var data;
      recv_len, data := ReceivePieces(sock, ring, iov, len);
      GrowsBehind(old(sock.received), data, ring.sends);
    }

    method RecvBuf() returns (ret: int)
      requires Valid()
      modifies sock`moves, sock`received, sock`drained, ring`p, ring`recvs, ring.buf
      ensures ResponseRuns.Result(View(), ret) == ResponseRuns.RecvBuf(old(View()))
      ensures Valid() && old(sock.received) <= sock.received
      ensures ret >= 0 ==> |sock.received| == |old(sock.received)| + ret
      ensures ret >= 0 ==> sock.drained || ring.recvs - ring.sends == MAX_PKT_SIZE - 1
    {
      if ring.GetBlankSize() <= 0 {
        return 0;
      }
      var iov := ring.GetBlankIovec();
      ret := Fill(iov, MAX_PKT_SIZE - 1 - (ring.recvs - ring.sends));
    }

    /** Take one request out of the ring. */
    method TakeRequest()
      requires Valid() && ring.recvs - ring.sends >= REQUEST_SIZE
      modifies ring`f, ring`sends, this`response_cnt, this`requests
      ensures View() == old(View()).(requests := requests, cnt := response_cnt)
      ensures Valid() && ring.sends == old(ring.sends) + REQUEST_SIZE
      ensures response_cnt == old(response_cnt) + 1 && requests == old(requests) + 1
    {
      response_cnt := response_cnt + 1;
      ring.AddBlank(REQUEST_SIZE);
      requests := requests + 1;
      assert sock.received[old(ring.sends)..][REQUEST_SIZE..] == sock.received[ring.sends..];
    }

    /** Take every complete request out of the ring. */
    method ParseRequests()
      requires Valid()
      modifies ring`f, ring`sends, this`response_cnt, this`requests
      ensures View() == ResponseRuns.TakeAll(old(View()))
      ensures Valid() && ring.recvs - ring.sends < REQUEST_SIZE
      ensures response_cnt >= old(response_cnt) && requests - old(requests) == response_cnt - old(response_cnt)
    {
      while ring.GetExistSize() >= REQUEST_SIZE
        invariant Valid()
        invariant response_cnt >= old(response_cnt) && requests - old(requests) == response_cnt - old(response_cnt)
        invariant ResponseRuns.TakeAll(View()) == ResponseRuns.TakeAll(old(View()))
        decreases ring.recvs - ring.sends
      {
        TakeRequest();
      }
    }

    /** One send of the current response; -1 on an error, 0 on EAGAIN. */
    method SendSome() returns (send_len: int)
      requires Valid() && response_pos < RESPONSE_SIZE
      modifies sock`moves, sock`sent, sock`refused, this`response_pos
      ensures View() == old(View()).(moves := sock.moves, sent := |sock.sent|, pos := response_pos)
      ensures sock.moves == Later(old(sock.moves)) && |sock.sent| - |old(sock.sent)| == response_pos - old(response_pos)
      ensures send_len == SendRet(Now(old(sock.moves)), RESPONSE_SIZE - old(response_pos))
      ensures Valid() && old(sock.sent) <= sock.sent
      ensures -1 <= send_len <= RESPONSE_SIZE - old(response_pos)
      ensures response_pos == old(response_pos) + if send_len < 0 then 0 else send_len
      ensures send_len == 0 ==> sock.refused
    {
      WholeResponses(|sock.sent|, response_cnt, response_pos, requests);
      var size := RESPONSE_SIZE - response_pos;
      var again;
      send_len, again := sock.Send(response_buf[response_pos..], size);
      if send_len < 0 {
        if !again {
          return -1;
        }
        send_len := 0;
      }
      AnswersContinue(response_buf, old(sock.sent), requests - response_cnt - 1, response_pos, send_len);
      response_pos := response_pos + send_len;
    }

    /** One pass of the loop below: begin the next response if the last one is out, then send once. */
    method SendOnce() returns (send_len: int)
      requires Valid() && Pending()
      modifies sock`moves, sock`sent, sock`refused, this`response_cnt, this`response_pos
      ensures ResponseRuns.Result(View(), send_len) == ResponseRuns.SendOnce(old(View()))
      ensures Valid() && old(sock.sent) <= sock.sent
      ensures send_len >= -1 && (send_len == 0 ==> Pending() && sock.refused)
      ensures ResponseRuns.Owed(response_cnt, response_pos) >= 0
      ensures ResponseRuns.Owed(response_cnt, response_pos)
           == old(ResponseRuns.Owed(response_cnt, response_pos)) - if send_len < 0 then 0 else send_len
    {
      if response_pos == RESPONSE_SIZE {
        if response_cnt > 0 {
          response_cnt := response_cnt - 1;
          response_pos := 0;
        }
      }
      send_len := SendSome();
    }

    /** Register interest when the kernel took nothing, withdraw it when nothing is owed. */
    method UpdateInterest(send_len: nat)
      requires Valid() && (send_len == 0 ==> Pending())
      modifies this`enable_epollout, sock`interest
      ensures View() == ResponseRuns.Settled(old(View()), send_len)
      ensures Valid()
      ensures !Pending() ==> !enable_epollout
      ensures send_len == 0 ==> enable_epollout
    {
      if response_cnt == 0 && response_pos == RESPONSE_SIZE {
        if enable_epollout {
          SetEpollout(false);
        }
      } else if send_len == 0 {
        if !enable_epollout {
          SetEpollout(true);
        }
      }
    }

    /** A pass with what follows for the interest, on the way to `goal`. */
    method SendPass(ghost owed: nat, ghost goal: ResponseRuns.Result) returns (send_len: int, ghost left: nat)
      requires Valid() && Pending() && ResponseRuns.Sends(View(), goal)
      requires owed == ResponseRuns.Owed(response_cnt, response_pos)
      modifies sock`moves, sock`sent, sock`refused, sock`interest
      modifies this`response_cnt, this`response_pos, this`enable_epollout
      ensures Valid() && old(sock.sent) <= sock.sent && send_len >= -1
      ensures send_len < 0 ==> goal == ResponseRuns.Result(View(), -1)
      ensures send_len == 0 ==>
        goal == ResponseRuns.Result(View(), 0) && enable_epollout && Pending() && sock.refused
      ensures send_len > 0 ==> ResponseRuns.Sends(View(), goal) && (!Pending() ==> !enable_epollout)
      ensures send_len > 0 ==> owed > left == ResponseRuns.Owed(response_cnt, response_pos)
    {
      ResponseRuns.SendsOn(View(), goal);
      send_len := SendOnce();
      left := owed;
      if send_len >= 0 {
        left := owed - send_len;
        UpdateInterest(send_len);
      }
    }

    /**
     * Send responses until nothing is owed or the kernel takes nothing.  What is
     * owed is untouched when the next response is begun and falls with every
     * other pass, so the loop ends.
     */
    method SendResponse() returns (ret: int)
      requires Valid() && (!Pending() ==> !enable_epollout)
      modifies sock`moves, sock`sent, sock`refused, sock`interest
      modifies this`response_cnt, this`response_pos, this`enable_epollout
      ensures ResponseRuns.Result(View(), ret) == ResponseRuns.SendAll(old(View()))
      ensures Valid() && old(sock.sent) <= sock.sent
      ensures ret == 0 ==> (enable_epollout <==> Pending()) && (Pending() ==> sock.refused)
      ensures ret == 0 || ret == -1
    {
      ghost var goal := ResponseRuns.SendAll(View());
      ghost var owed: nat := ResponseRuns.Owed(response_cnt, response_pos);
      while response_cnt > 0 || response_pos < RESPONSE_SIZE
        invariant Valid() && old(sock.sent) <= sock.sent
        invariant !Pending() ==> !enable_epollout
        invariant ResponseRuns.Sends(View(), goal)
        invariant owed == ResponseRuns.Owed(response_cnt, response_pos)
        decreases owed
      {
        var send_len;
        send_len, owed := SendPass(owed, goal);
        if send_len < 0 {
          return -1;
        }
        if send_len == 0 {
          return 0;
        }
      }
      ResponseRuns.SendsNoMore(View(), goal);
      return 0;
    }

    method RecvRequest() returns (ret: int)
      requires Valid() && AtRest()
      modifies this`response_cnt, this`response_pos, this`enable_epollout, this`requests, sock, ring, ring.buf
      ensures ResponseRuns.Result(View(), ret) == ResponseRuns.RecvRequest(old(View()))
      ensures Valid() && old(sock.sent) <= sock.sent && old(sock.received) <= sock.received
      ensures ret == 0 ==> AtRest() && ReadUp(old(ring.sends))
      ensures ret == 0 || ret == -1
    {
      var n := RecvBuf();
      if n < 0 {
        return -1;
      }
      ParseRequests();
      n := SendResponse();
      return if n < 0 then -1 else 0;
    }

    method HandleWrite() returns (ret: int)
      requires Valid() && AtRest()
      modifies this`response_cnt, this`response_pos, this`enable_epollout, sock
      ensures ResponseRuns.Result(View(), ret) == ResponseRuns.SendAll(old(View()))
      ensures Valid() && old(sock.sent) <= sock.sent && old(sock.received) == sock.received
      ensures ret == 0 ==> AtRest()
      ensures ret == 0 || ret == -1
    {
      var n := SendResponse();
      return if n < 0 then -1 else 0;
    }

    /**
     * The event handler, writing first, then reading: -1 closes the connection.
     * After 0 nothing readable was left behind without cause.
     */
    method Handle(ev: Events) returns (ret: int)
      requires Valid() && AtRest()
      modifies this`response_cnt, this`response_pos, this`enable_epollout, this`requests, sock, ring, ring.buf
      ensures ResponseRuns.Result(View(), ret) == ResponseRuns.Handle(old(View()), ev)
      ensures Valid() && old(sock.sent) <= sock.sent && old(sock.received) <= sock.received
      ensures ret == 0 ==> AtRest()
      ensures ret == 0 && ev.readable ==> ReadUp(old(ring.sends))
      ensures ev.other ==> ret == -1
      ensures ret == 0 || ret == -1
    {
      if ev.other {
        return -1;
      }
      if ev.writable {
        ret := HandleWrite();
        if ret < 0 {
          return ret;
        }
      }
      if ev.readable {
        ret := RecvRequest();
        if ret < 0 {
          return ret;
        }
      }
      return 0;
    }
  }

  /**
   * A connection over its whole life, with any events and any behaviour of the
   * kernel: the program ends where ResponseRuns says, the output is a prefix of
   * copies of the response, and on an open connection the bytes sent and the bytes
   * owed make exactly one response for each complete request received.
   */
  method Serve(moves: seq<Move>, response: seq<Byte>, events: seq<Events>)
    returns (conn: ResponseConnection, open: bool)
    requires |response| == RESPONSE_SIZE
    ensures ResponseRuns.Life(conn.View(), open) == ResponseRuns.Serve(moves, events)
    ensures conn.Valid() && conn.response_buf == response
    ensures conn.sock.sent == Copies(response, |conn.sock.sent|)
    ensures |conn.sock.sent| <= RESPONSE_SIZE * (|conn.sock.received| / REQUEST_SIZE)
    ensures open ==> conn.AtRest() && |conn.sock.sent| + ResponseRuns.Owed(conn.response_cnt, conn.response_pos)
                                      == RESPONSE_SIZE * (|conn.sock.received| / REQUEST_SIZE)
    ensures open && !conn.enable_epollout ==> |conn.sock.sent| == RESPONSE_SIZE * (|conn.sock.received| / REQUEST_SIZE)
  {
    conn := new ResponseConnection(moves, response);
    open := true;
    for k := 0 to |events|
      invariant conn.Valid() && (open ==> conn.AtRest()) && conn.response_buf == response
      invariant ResponseRuns.Life(conn.View(), open) == ResponseRuns.Serve(moves, events[..k])
      invariant fresh(conn) && fresh(conn.sock) && fresh(conn.ring) && fresh(conn.ring.buf)
    {
      assert events[..k + 1][..k] == events[..k];
      if open {
        var ret := conn.Handle(events[k]);
        open := ret >= 0;
      }
    }
    assert events[..|events|] == events;
    conn.Accounted();
  }
}
