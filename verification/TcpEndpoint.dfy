/**
 * The kernel's side of a connection whose peer reads at its own pace, as an
 * adversary: a send buffer with some room, readiness events, and a list of moves
 * that says what happens before each call and how much the call transfers.
 * With the list used up the peer is still and calls transfer all they can.
 */
module TcpEndpoint {
  import opened Bytes

  const BUF_SIZE := 4096

  /** What happens between two calls, and how far the next call falls short of what it could do. */
  datatype Move = Move(
    drained: nat,       // bytes the peer has taken out of the send buffer
    spurious: bool,     // an edge is queued for no reason
    arrived: nat,       // bytes from the peer, unless it has closed its end
    closes: bool,       // the peer closes its end
    resets: bool,       // from now on every call fails
    short: nat,         // the next call transfers this many bytes fewer, but at least one
    zero: bool)         // the next call, if it fails, returns 0 instead of -1

  const STILL := Move(0, false, 0, false, false, 0, false)

  datatype Kernel = Kernel(
    room: nat,          // free bytes of the send buffer
    waiting: bool,      // found full, and nobody has been told of room since
    edge: bool,         // an edge is queued for the next epoll_wait
    interest: bool,     // EPOLLOUT is registered (level-triggered use)
    failed: bool,       // every call fails with an error other than EAGAIN
    inbox: nat,         // bytes that have arrived and were not received
    hangup: bool,       // the peer has closed its end
    move: Move,         // the move under way
    moves: seq<Move>)   // the moves to come

  function Min(a: nat, b: nat): nat {
    if a < b then a else b
  }

  /** A transfer of at most n bytes, n > 0, that falls short. */
  function Part(n: nat, short: nat): (p: nat)
    requires n > 0
    ensures 0 < p <= n && (short == 0 ==> p == n)
  {
    if short < n then n - short else 1
  }

  /** Between two calls.  Room that appears after the buffer was found full queues an edge. */
  function Pass(k: Kernel): Kernel {
    var m := if k.moves == [] then STILL else k.moves[0];
    k.(room := k.room + m.drained,
       waiting := k.waiting && m.drained == 0,
       edge := k.edge || m.spurious || (k.waiting && m.drained > 0),
       failed := k.failed || m.resets,
       inbox := k.inbox + if k.hangup then 0 else m.arrived,
       hangup := k.hangup || m.closes,
       move := m,
       moves := if k.moves == [] then [] else k.moves[1..])
  }

  /** What a call that fails for good returns. */
  function Failure(k: Kernel): int {
    if k.move.zero then 0 else -1
  }

  /** The return value of a send of `size` bytes. */
  function Accepts(k: Kernel, size: nat): (n: int)
    requires size > 0
    ensures -1 <= n <= size && n <= k.room
    ensures n > 0 <==> !k.failed && k.room > 0
  {
    if k.failed then Failure(k) else if k.room == 0 then -1 else Part(Min(size, k.room), k.move.short)
  }

  function AfterSend(k: Kernel, size: nat): Kernel
    requires size > 0
  {
    var n := Accepts(k, size);
    if n > 0 then k.(room := k.room - n) else if k.failed then k else k.(waiting := true)
  }

  /** The return value of a receive: 0 at the end of the peer's stream. */
  function Delivers(k: Kernel): (n: int)
    ensures -1 <= n <= BUF_SIZE && n <= k.inbox
    ensures n > 0 <==> !k.failed && k.inbox > 0
  {
    if k.failed then Failure(k)
    else if k.inbox > 0 then Part(Min(BUF_SIZE, k.inbox), k.move.short)
    else if k.hangup then 0
    else -1
  }

  // ---- epoll --------------------------------------------------------------------------------

  datatype Mode = Level | Edge

  /** The registration: EPOLLIN alone, or EPOLLIN | EPOLLOUT | EPOLLET, when a socket with room queues an edge. */
  function Registered(mode: Mode, k: Kernel): Kernel {
    if mode.Level? then k.(interest := false)
    else if k.room > 0 then k.(edge := true)
    else k.(waiting := true)
  }

  /** What `epoll_wait` reports: room as long as there is interest, or as a queued edge. */
  predicate Writable(mode: Mode, k: Kernel) {
    k.room > 0 && (if mode.Level? then k.interest else k.edge)
  }

  /** `epoll_wait` takes the queued edge; a full buffer is watched. */
  function Wait(mode: Mode, k: Kernel): Kernel {
    if mode.Level? then k else k.(edge := false, waiting := k.waiting || (k.edge && k.room == 0))
  }

  /** With edge-triggered registration: room is announced, or will be when it appears. */
  predicate Announced(k: Kernel) {
    if k.room == 0 then k.waiting || k.edge else k.edge
  }

  // ---- What the loops do ------------------------------------------------------------------

  /** How a loop of calls ended: the bytes moved, and whether its last call said EAGAIN. */
  datatype Outcome = Outcome(k: Kernel, count: nat, again: bool)

  /** Send on until `left` bytes are out or a call takes nothing. */
  function SendRun(k: Kernel, left: nat): (r: Outcome)
    ensures r.count <= left
    decreases left
  {
    if left == 0 then Outcome(k, 0, false)
    else
      var k1 := Pass(k);
      var n := Accepts(k1, left);
      if n <= 0 then Outcome(AfterSend(k1, left), 0, !k1.failed)
      else
        var r := SendRun(AfterSend(k1, left), left - n);
        r.(count := n + r.count)
  }

  /** Receive until a call brings nothing.  It ends because the moves to come are finitely many. */
  function RecvRun(k: Kernel): Outcome
    decreases |k.moves|, k.inbox
  {
    var k1 := Pass(k);
    var n := Delivers(k1);
    if n <= 0 then Outcome(k1, 0, n < 0 && !k1.failed)
    else
      var r := RecvRun(k1.(inbox := k1.inbox - n));
      r.(count := n + r.count)
  }

  /** What no call and no move undoes. */
  predicate Onward(k: Kernel, k': Kernel) {
    && (k.failed ==> k'.failed) && (k.hangup ==> k'.hangup)
    && k'.interest == k.interest
    && (Announced(k) ==> Announced(k'))
  }

  lemma PassOnward(k: Kernel)
    ensures Onward(k, Pass(k)) && Pass(k).room >= k.room
  {
  }

  /** The send loop ends with everything out, with the buffer found full, or with a failure. */
  lemma {:induction false} SendRunEnds(k: Kernel, left: nat)
    ensures var r := SendRun(k, left);
      && Onward(k, r.k)
      && (r.count < left && r.again ==> r.k.room == 0 && r.k.waiting && !r.k.failed)
      && (r.count < left && !r.again ==> r.k.failed)
      && (left > 0 && k.room > 0 && r.count == 0 ==> r.k.failed)
    decreases left
  {
    if left > 0 {
      PassOnward(k);
      var k1 := Pass(k);
      var n := Accepts(k1, left);
      if n > 0 {
        SendRunEnds(AfterSend(k1, left), left - n);
      }
    }
  }

  lemma {:induction false} SendRunLeaves(k: Kernel, left: nat)
    ensures SendRun(k, left).again ==> SendRun(k, left).count < left
    ensures SendRun(k, left).k.interest == k.interest
    decreases left
  {
    if left > 0 {
      var n := Accepts(Pass(k), left);
      if n > 0 { SendRunLeaves(AfterSend(Pass(k), left), left - n); }
    }
  }

  /**
   * The receive loop leaves the send side's news intact, takes all that has come
   * in unless it fails, and ends with EAGAIN exactly if the socket has neither
   * failed nor reached the end of the peer's stream.
   */
  lemma {:induction false} RecvRunEnds(k: Kernel)
    ensures var r := RecvRun(k);
      && Onward(k, r.k) && r.k.room >= k.room
      && (r.again <==> !r.k.failed && !r.k.hangup)
      && (!r.k.failed ==> r.k.inbox == 0)
    decreases |k.moves|, k.inbox
  {
    PassOnward(k);
    var k1 := Pass(k);
    var n := Delivers(k1);
    if n > 0 {
      RecvRunEnds(k1.(inbox := k1.inbox - n));
    }
  }

  /** The bytes that come from the peer with these moves. */
  function Arrivals(moves: seq<Move>, hangup: bool): nat {
    if moves == [] then 0
    else (if hangup then 0 else moves[0].arrived) + Arrivals(moves[1..], hangup || moves[0].closes)
  }

  /** All bytes not received yet: those that have arrived, and those still to come. */
  function Incoming(k: Kernel): nat {
    k.inbox + Arrivals(k.moves, k.hangup)
  }

  lemma PassConserves(k: Kernel)
    ensures Incoming(Pass(k)) == Incoming(k)
  {
  }

  lemma {:induction false} SendRunConserves(k: Kernel, left: nat)
    ensures Incoming(SendRun(k, left).k) == Incoming(k)
    decreases left
  {
    if left > 0 {
      var k1 := Pass(k);
      var n := Accepts(k1, left);
      PassConserves(k);
      if n > 0 { SendRunConserves(AfterSend(k1, left), left - n); }
    }
  }

  /** What the receive loop counts is exactly what it takes of the peer's bytes. */
  lemma {:induction false} RecvRunConserves(k: Kernel)
    ensures RecvRun(k).count + Incoming(RecvRun(k).k) == Incoming(k)
    decreases |k.moves|, k.inbox
  {
    var k1 := Pass(k);
    var n := Delivers(k1);
    PassConserves(k);
    if n > 0 { RecvRunConserves(k1.(inbox := k1.inbox - n)); }
  }

  // ---- The object -------------------------------------------------------------------------

  class Endpoint {
    var k: Kernel
    ghost var sent: seq<Byte>     // every byte accepted from the program, in order

    constructor (k: Kernel)
      ensures this.k == k && sent == []
    {
      this.k := k;
      sent := [];
    }

    method Environment()
      modifies this`k
      ensures k == Pass(old(k))
    {
      k := Pass(k);
    }

    method Send(ghost bytes: seq<Byte>, size: nat) returns (n: int, again: bool)
      requires |bytes| == size > 0
      modifies this
      ensures k == AfterSend(old(k), size) && n == Accepts(old(k), size) && again == !old(k).failed
      ensures sent == old(sent) + if n > 0 then bytes[..n] else []
    {
      n, again := Accepts(k, size), !k.failed;
      k := AfterSend(k, size);
      sent := sent + if n > 0 then bytes[..n] else [];
    }

    method Receive() returns (n: int, again: bool)
      modifies this`k
      ensures n == Delivers(old(k)) && again == !old(k).failed
      ensures k == if n > 0 then old(k).(inbox := old(k).inbox - n) else old(k)
    {
      n, again := Delivers(k), !k.failed;
      if n > 0 {
        k := k.(inbox := k.inbox - n);
      }
    }

    /** epoll_ctl with EPOLL_CTL_ADD. */
    method Register(mode: Mode)
      modifies this`k
      ensures k == Registered(mode, old(k))
    {
      k := Registered(mode, k);
    }

    /** epoll_wait. */
    method Poll(mode: Mode) returns (writable: bool)
      modifies this`k
      ensures writable == Writable(mode, old(k)) && k == Wait(mode, old(k))
    {
      writable := Writable(mode, k);
      k := Wait(mode, k);
    }

    /** epoll_ctl with EPOLL_CTL_MOD (level-triggered). */
    method Modify(epollout: bool)
      modifies this`k
      ensures k == old(k).(interest := epollout)
    {
      k := k.(interest := epollout);
    }
  }

  lemma PrefixGrows(s: seq<Byte>, i: nat, n: nat)
    requires i + n <= |s|
    ensures s[..i] + s[i..][..n] == s[..i + n]
  {
  }

  /** `total` is what remains to happen, after `done` bytes. */
  predicate Continues(total: Outcome, rest: Outcome, done: nat) {
    total == rest.(count := done + rest.count)
  }

  lemma SendStep(total: Outcome, k: Kernel, left: nat, done: nat)
    requires left > 0 && Continues(total, SendRun(k, left), done)
    ensures var k1 := Pass(k);
      var n := Accepts(k1, left);
      if n > 0 then Continues(total, SendRun(AfterSend(k1, left), left - n), done + n)
      else total == Outcome(AfterSend(k1, left), done, !k1.failed)
  {
  }

  /** A return value read as a number of bytes. */
  function Gain(n: int): nat {
    if n > 0 then n else 0
  }

  /** One call of send, after what happens before it. */
  method SendOn(sock: Endpoint, response: seq<Byte>, send_len: nat) returns (n: int, again: bool)
    requires send_len < |response| && sock.sent == response[..send_len]
    modifies sock
    ensures var k1, left := Pass(old(sock.k)), |response| - send_len;
      sock.k == AfterSend(k1, left) && n == Accepts(k1, left) && again == !k1.failed
    ensures n <= |response| - send_len && sock.sent == response[..send_len + Gain(n)]
  {
    sock.Environment();
    n, again := sock.Send(response[send_len..], |response| - send_len);
    if n > 0 {
      PrefixGrows(response, send_len, n);
    }
  }

  method SendCounted(sock: Endpoint, response: seq<Byte>, start: nat, send_len: nat, ghost total: Outcome)
    returns (n: int, again: bool)
    requires start <= send_len < |response| && sock.sent == response[..send_len]
    requires Continues(total, SendRun(sock.k, |response| - send_len), send_len - start)
    modifies sock
    ensures n <= |response| - send_len && sock.sent == response[..send_len + Gain(n)]
    ensures n > 0 ==> Continues(total, SendRun(sock.k, |response| - send_len - n), send_len + n - start)
    ensures n <= 0 ==> total == Outcome(sock.k, send_len - start, n < 0 && again)
  {
    SendStep(total, sock.k, |response| - send_len, send_len - start);
    n, again := SendOn(sock, response, send_len);
  }

  lemma SendDone(total: Outcome, k: Kernel, done: nat)
    requires Continues(total, SendRun(k, 0), done)
    ensures total == Outcome(k, done, false)
  {
  }

  method SendUntil(sock: Endpoint, response: seq<Byte>, start: nat, ghost total: Outcome)
    returns (send_len: nat, tmp: int, again: bool)
    requires start <= |response| && sock.sent == response[..start]
    requires Continues(total, SendRun(sock.k, |response| - start), 0)
    modifies sock
    ensures sock.k == total.k && send_len == start + total.count <= |response|
    ensures send_len < |response| ==> (total.again <==> tmp < 0 && again)
    ensures sock.sent == response[..send_len]
  {
    send_len, tmp, again := start, 0, false;
    while send_len < |response|
      invariant start <= send_len <= |response| && sock.sent == response[..send_len]
      invariant Continues(total, SendRun(sock.k, |response| - send_len), send_len - start)
    {
      tmp, again := SendCounted(sock, response, start, send_len, total);
      if tmp <= 0 {
        return;
      }
      send_len := send_len + tmp;
    }
    SendDone(total, sock.k, send_len - start);
  }

  /** The loop of `send_buf`.  The kernel's side moves on between the calls. */
  method SendLoop(sock: Endpoint, response: seq<Byte>, start: nat) returns (send_len: nat, tmp: int, again: bool)
    requires start <= |response| && sock.sent == response[..start]
    modifies sock
    ensures var r := SendRun(old(sock.k), |response| - start);
      && sock.k == r.k && send_len == start + r.count
      && (send_len < |response| ==> (r.again <==> tmp < 0 && again))
    ensures sock.sent == response[..send_len] && sock.k.interest == old(sock.k.interest)
  {
    SendRunLeaves(sock.k, |response| - start);
    send_len, tmp, again := SendUntil(sock, response, start, SendRun(sock.k, |response| - start));
  }

  /** The loop of `handle_recv`: count and drop what has come in. */
  method RecvLoop(sock: Endpoint, start: nat) returns (recv_len: nat, tmp: int, again: bool)
    modifies sock`k
    ensures var r := RecvRun(old(sock.k));
      sock.k == r.k && recv_len == start + r.count && (r.again <==> tmp < 0 && again)
    ensures sock.k.interest == old(sock.k.interest)
  {
    RecvRunEnds(sock.k);
    recv_len := start;
    ghost var total := RecvRun(sock.k);
    while true
      invariant recv_len >= start
      invariant Continues(total, RecvRun(sock.k), recv_len - start)
      decreases |sock.k.moves|, sock.k.inbox
    {
      sock.Environment();
      tmp, again := sock.Receive();
      if tmp <= 0 {
        break;
      }
      recv_len := recv_len + tmp;
    }
  }
}
