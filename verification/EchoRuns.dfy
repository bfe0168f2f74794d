/**
 * The echo connection over its whole life, as a function of what the kernel does
 * at each call and of the events.
 */
module EchoRuns {
  import opened Bytes
  import opened Epoll
  import opened RingBuffer
  import opened RingIo

  /** `sent` of the received bytes have gone out again; the rest is in the ring. */
  datatype Conn = Conn(moves: seq<Move>, received: seq<Byte>, sent: nat, interest: bool)

  datatype Result = Result(c: Conn, ret: int)

  function Stored(c: Conn): int {
    |c.received| - c.sent
  }

  /** One recv for `len` bytes. */
  function RecvOne(c: Conn, len: nat): Result {
    Result(c.(moves := Later(c.moves), received := c.received + Brought(Now(c.moves), len)),
           RecvRet(Now(c.moves), len))
  }

  /** One send of `len` bytes. */
  function SendOne(c: Conn, len: nat): Result {
    var n := SendRet(Now(c.moves), len);
    Result(c.(moves := Later(c.moves), sent := c.sent + if n > 0 then n else 0), n)
  }

  /** The loop of `recv_buf_native` from piece i on, with `ret` bytes received. */
  function RecvPieces(c: Conn, iov: seq<Iovec>, i: nat, ret: int): Result
    decreases |iov| - i
  {
    if i >= |iov| then Result(c, ret)
    else
      var r := RecvOne(c, iov[i].len);
      if r.ret < 0 then Result(r.c, -1)
      else if r.ret < iov[i].len then Result(r.c, ret + r.ret)
      else RecvPieces(r.c, iov, i + 1, ret + r.ret)
  }

  /** From piece i on, with `ret` bytes received, the loop comes to `goal`. */
  predicate Receives(c: Conn, iov: seq<Iovec>, i: nat, ret: int, goal: Result) {
    RecvPieces(c, iov, i, ret) == goal
  }

  lemma ReceivesOn(c: Conn, iov: seq<Iovec>, i: nat, ret: int, goal: Result)
    requires i < |iov| && Receives(c, iov, i, ret, goal)
    ensures var r := RecvOne(c, iov[i].len);
      if r.ret < 0 then goal == Result(r.c, -1)
      else if r.ret < iov[i].len then goal == Result(r.c, ret + r.ret)
      else Receives(r.c, iov, i + 1, ret + r.ret, goal)
  {
  }

  /** What comes in is added behind what came before; `ret` counts it. */
  lemma RecvPiecesGrow(c: Conn, iov: seq<Iovec>, i: nat, ret: int)
    ensures var r := RecvPieces(c, iov, i, ret);
      && c.received <= r.c.received && r.c.sent == c.sent && r.c.interest == c.interest
      && (r.ret == -1 || |r.c.received| == |c.received| + r.ret - ret)
    decreases |iov| - i
  {
    if i < |iov| {
      var r := RecvOne(c, iov[i].len);
      RecvPiecesGrow(r.c, iov, i + 1, ret + r.ret);
    }
  }

  lemma RecvGrows(c: Conn)
    ensures var r := RecvBufNative(c);
      && c.received <= r.c.received && r.c.sent == c.sent && r.c.interest == c.interest
      && (r.ret == -1 || |r.c.received| == |c.received| + r.ret)
  {
    RecvPiecesGrow(c, BlankIovec(Wrapped(c.sent), Wrapped(|c.received|)), 0, 0);
  }

  function RecvBufNative(c: Conn): Result {
    if MAX_PKT_SIZE - 1 - Stored(c) <= 0 then Result(c, 0)
    else RecvPieces(c, BlankIovec(Wrapped(c.sent), Wrapped(|c.received|)), 0, 0)
  }

  /** `send_buf`. */
  function SendBuf(c: Conn): Result {
    if Stored(c) <= 0 then Result(c, 0)
    else
      var r := SendOne(c, Stored(c));
      if r.ret < 0 then Result(r.c, -1) else Result(r.c.(interest := r.ret != Stored(c)), r.ret)
  }

  /** One pass of the loop of `send_buf_native`, with `have` of `total` bytes sent before it. */
  function SendPiece(c: Conn, len: nat, have: int, total: int): Result {
    var r := SendOne(c, len);
    if r.ret < 0 then r
    else if have + r.ret == total then Result(r.c.(interest := false), r.ret)
    else if r.ret < len then Result(r.c.(interest := true), r.ret)
    else r
  }

  /** The loop from piece i on. */
  function SendPieces(c: Conn, iov: seq<Iovec>, i: nat, have: int, total: int): Result
    decreases |iov| - i
  {
    if i >= |iov| then Result(c, have)
    else
      var r := SendPiece(c, iov[i].len, have, total);
      if r.ret < 0 then Result(r.c, -1)
      else if have + r.ret != total && r.ret < iov[i].len then Result(r.c, have + r.ret)
      else SendPieces(r.c, iov, i + 1, have + r.ret, total)
  }

  predicate Sends(c: Conn, iov: seq<Iovec>, i: nat, have: int, total: int, goal: Result) {
    SendPieces(c, iov, i, have, total) == goal
  }

  lemma SendsOn(c: Conn, iov: seq<Iovec>, i: nat, have: int, total: int, goal: Result)
    requires i < |iov| && Sends(c, iov, i, have, total, goal)
    ensures var r := SendPiece(c, iov[i].len, have, total);
      if r.ret < 0 then goal == Result(r.c, -1)
      else if have + r.ret != total && r.ret < iov[i].len then goal == Result(r.c, have + r.ret)
      else Sends(r.c, iov, i + 1, have + r.ret, total, goal)
  {
  }

  /** Sending only ever adds to what was sent; the result counts it. */
  lemma SendPiecesGrow(c: Conn, iov: seq<Iovec>, i: nat, have: int, total: int)
    ensures var r := SendPieces(c, iov, i, have, total);
      && c.sent <= r.c.sent && r.c.received == c.received && (r.ret == -1 || r.c.sent == c.sent + r.ret - have)
    decreases |iov| - i
  {
    if i < |iov| {
      var r := SendPiece(c, iov[i].len, have, total);
      SendPiecesGrow(r.c, iov, i + 1, have + r.ret, total);
    }
  }

  lemma SendGrows(c: Conn)
    ensures var r := SendBufNative(c);
      && c.sent <= r.c.sent && r.c.received == c.received && (r.ret == -1 || r.c.sent == c.sent + r.ret)
  {
    SendPiecesGrow(c, ExistIovec(Wrapped(c.sent), Wrapped(|c.received|)), 0, 0, Stored(c));
  }

  function SendBufNative(c: Conn): Result {
    if Stored(c) <= 0 then Result(c, 0)
    else SendPieces(c, ExistIovec(Wrapped(c.sent), Wrapped(|c.received|)), 0, 0, Stored(c))
  }

  function Ok(r: Result): Result {
    Result(r.c, if r.ret < 0 then -1 else 0)
  }

  function HandleRead(c: Conn): Result {
    var r := RecvBufNative(c);
    if r.ret < 0 then Ok(r) else Ok(SendBufNative(r.c))
  }

  function Handle(c: Conn, ev: Events): Result {
    if ev.other then Result(c, -1)
    else
      var w := if ev.writable then Ok(SendBuf(c)) else Result(c, 0);
      if w.ret == 0 && ev.readable then HandleRead(w.c) else w
  }

  datatype Life = Life(c: Conn, open: bool)

  /** The event loop: it goes on with the events until the handler fails. */
  function Serve(moves: seq<Move>, events: seq<Events>): Life {
    if events == [] then Life(Conn(moves, [], 0, false), true)
    else
      var l := Serve(moves, events[..|events| - 1]);
      if !l.open then l
      else
        var r := Handle(l.c, events[|events| - 1]);
        Life(r.c, r.ret == 0)
  }
}
