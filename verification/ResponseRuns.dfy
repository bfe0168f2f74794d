/**
 * The response connection over its whole life, as a function of what the kernel
 * does at each call and of the events.
 */
module ResponseRuns {
  import opened Bytes
  import opened Epoll
  import opened RingBuffer
  import opened RingIo

  const RESPONSE_SIZE := 256 * 1024 * 1024
  const REQUEST_SIZE := 8

  /** Numbers of bytes received, requests taken and bytes sent, beside the connection's own fields. */
  datatype Conn = Conn(moves: seq<Move>, received: nat, requests: nat, sent: nat, cnt: int, pos: int, interest: bool)

  datatype Result = Result(c: Conn, ret: int)

  predicate InRange(c: Conn) {
    0 <= c.cnt && 0 <= c.pos <= RESPONSE_SIZE
  }

  /** What is left to send, in bytes. */
  function Owed(cnt: int, pos: int): int {
    cnt * RESPONSE_SIZE + (RESPONSE_SIZE - pos)
  }

  predicate Pending(c: Conn) {
    c.cnt > 0 || c.pos < RESPONSE_SIZE
  }

  function Stored(c: Conn): int {
    c.received - REQUEST_SIZE * c.requests
  }

  /** `recv_buf`: one recvmsg for all that is free. */
  function RecvBuf(c: Conn): Result {
    var len := MAX_PKT_SIZE - 1 - Stored(c);
    if len <= 0 then Result(c, 0)
    else
      Result(c.(moves := Later(c.moves), received := c.received + |Brought(Now(c.moves), len)|),
             RecvRet(Now(c.moves), len))
  }

  /** Every complete request counts one response. */
  function TakeAll(c: Conn): Conn
    decreases Stored(c)
  {
    if Stored(c) < REQUEST_SIZE then c else TakeAll(c.(requests := c.requests + 1, cnt := c.cnt + 1))
  }

  /** One pass of the loop of `send_response`. */
  function SendOnce(c: Conn): (r: Result)
    requires InRange(c) && Pending(c)
    ensures InRange(r.c)
    ensures Owed(r.c.cnt, r.c.pos) == Owed(c.cnt, c.pos) - if r.ret < 0 then 0 else r.ret
  {
    var b := if c.pos == RESPONSE_SIZE then c.(cnt := c.cnt - 1, pos := 0) else c;
    var n := SendRet(Now(b.moves), RESPONSE_SIZE - b.pos);
    var out := if n < 0 then 0 else n;
    Result(b.(moves := Later(b.moves), sent := b.sent + out, pos := b.pos + out), n)
  }

  /** The interest after a pass that sent n bytes. */
  function Settled(c: Conn, n: int): Conn {
    c.(interest := if !Pending(c) then false else if n == 0 then true else c.interest)
  }

  /** `send_response`. */
  function SendAll(c: Conn): (r: Result)
    requires InRange(c)
    ensures InRange(r.c)
    decreases Owed(c.cnt, c.pos)
  {
    if !Pending(c) then Result(c, 0)
    else
      var r := SendOnce(c);
      if r.ret < 0 then Result(r.c, -1)
      else if r.ret == 0 then Result(Settled(r.c, 0), 0)
      else SendAll(Settled(r.c, r.ret))
  }

  /** The loop of `send_response` comes to `goal`. */
  predicate Sends(c: Conn, goal: Result) {
    InRange(c) && SendAll(c) == goal
  }

  lemma SendsOn(c: Conn, goal: Result)
    requires Sends(c, goal)
    ensures if !Pending(c) then goal == Result(c, 0)
      else
        var r := SendOnce(c);
        if r.ret < 0 then goal == Result(r.c, -1)
        else if r.ret == 0 then goal == Result(Settled(r.c, 0), 0)
        else Sends(Settled(r.c, r.ret), goal)
  {
  }

  lemma SendsNoMore(c: Conn, goal: Result)
    requires Sends(c, goal) && !Pending(c)
    ensures goal == Result(c, 0)
  {
  }

  lemma TakeAllInRange(c: Conn)
    requires InRange(c)
    ensures InRange(TakeAll(c))
    decreases Stored(c)
  {
    if Stored(c) >= REQUEST_SIZE { TakeAllInRange(c.(requests := c.requests + 1, cnt := c.cnt + 1)); }
  }

  /** `recv_request`. */
  function RecvRequest(c: Conn): (r: Result)
    requires InRange(c)
    ensures InRange(r.c)
  {
    var r := RecvBuf(c);
    if r.ret < 0 then Result(r.c, -1)
    else
      TakeAllInRange(r.c);
      SendAll(TakeAll(r.c))
  }

  function Handle(c: Conn, ev: Events): (r: Result)
    requires InRange(c)
    ensures InRange(r.c)
  {
    if ev.other then Result(c, -1)
    else
      var w := if ev.writable then SendAll(c) else Result(c, 0);
      if w.ret == 0 && ev.readable then RecvRequest(w.c) else w
  }

  datatype Life = Life(c: Conn, open: bool)

  /** The event loop: it goes on with the events until the handler fails. */
  function Serve(moves: seq<Move>, events: seq<Events>): (l: Life)
    ensures InRange(l.c)
  {
    if events == [] then Life(Conn(moves, 0, 0, 0, 0, RESPONSE_SIZE, false), true)
    else
      var l := Serve(moves, events[..|events| - 1]);
      if !l.open then l
      else
        var r := Handle(l.c, events[|events| - 1]);
        Life(r.c, r.ret == 0)
  }
}
