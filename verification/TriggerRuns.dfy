/**
 * A connection that sends a response and closes, over its whole life, as a
 * function of the kernel it meets, the kernel's moves and the events: the
 * level-triggered server, which registers interest in writability as needed, and
 * the edge-triggered one, which registers it once and for all.
 */
module TriggerRuns {
  import opened Epoll
  import opened TcpEndpoint

  datatype Conn = Conn(k: Kernel, send_len: nat, recv_len: nat, open: bool)

  datatype Result = Result(c: Conn, ret: int)

  // ---- What each function does --------------------------------------------------------------

  /** The end of `send_buf`: 1 when all is sent, 0 when the kernel takes no more for now, -1 on an error. */
  function Concluded(mode: Mode, c: Conn, total: nat, s: Outcome): Result
  {
    var c' := c.(k := s.k, send_len := c.send_len + s.count);
    if c'.send_len == total then
      Result(if mode.Level? then c'.(k := s.k.(interest := false)) else c', 1)
    else if s.again then
      Result(if mode.Level? then c'.(k := s.k.(interest := true)) else c', 0)
    else
      Result(c', -1)
  }

  /** `send_buf`. */
  function SendBuf(mode: Mode, c: Conn, total: nat): (r: Result)
    requires c.send_len <= total
    ensures r.c.send_len <= total
  {
    Concluded(mode, c, total, SendRun(c.k, total - c.send_len))
  }

  /** `handle_send`: a finished response ends the connection. */
  function HandleSend(mode: Mode, c: Conn, total: nat): (r: Result)
    requires c.send_len <= total
    ensures r.c.send_len <= total
  {
    var s := SendBuf(mode, c, total);
    Result(s.c, if s.ret == 0 then 0 else -1)
  }

  /** `handle_recv`. */
  function HandleRecv(c: Conn): Result {
    var r := RecvRun(c.k);
    Result(c.(k := r.k, recv_len := c.recv_len + r.count), if r.again then 0 else -1)
  }

  /** `handle`. */
  function Handle(mode: Mode, c: Conn, total: nat, ev: Events): (r: Result)
    requires c.send_len <= total
    ensures r.c.send_len <= total
  {
    if ev.other then Result(c, -1)
    else
      var s := if ev.writable then HandleSend(mode, c, total) else Result(c, 0);
      if s.ret == 0 && ev.readable then HandleRecv(s.c) else s
  }

  function Reported(mode: Mode, k: Kernel, read: bool): Events {
    Events(read, Writable(mode, k), k.failed)
  }

  /** One turn of the event loop for this connection; `read` says whether it is readable. */
  function Turn(mode: Mode, c: Conn, total: nat, read: bool): (c': Conn)
    requires c.send_len <= total
    ensures c'.send_len <= total
  {
    if !c.open then c
    else
      var k := Pass(c.k);
      var ev := Reported(mode, k, read);
      var c1 := c.(k := Wait(mode, k));
      if ev == Events(false, false, false) then c1
      else
        var r := Handle(mode, c1, total, ev);
        r.c.(open := r.ret == 0)
  }

  /** The constructor sends what it can and ignores what `send_buf` returns. */
  function Start(mode: Mode, k: Kernel, total: nat): (c: Conn)
    ensures c.send_len <= total
  {
    SendBuf(mode, Conn(Registered(mode, k), 0, 0, true), total).c
  }

  function Life(mode: Mode, k: Kernel, total: nat, ready: seq<bool>): (c: Conn)
    ensures c.send_len <= total
  {
    if ready == [] then Start(mode, k, total)
    else Turn(mode, Life(mode, k, total, ready[..|ready| - 1]), total, ready[|ready| - 1])
  }

  /** The bytes the constructor got out. */
  function Born(mode: Mode, k: Kernel, total: nat): nat {
    Start(mode, k, total).send_len
  }

  /** How many turns of the open connection found room in the send buffer. */
  function Chances(mode: Mode, k: Kernel, total: nat, ready: seq<bool>): nat {
    if ready == [] then 0
    else
      var before := ready[..|ready| - 1];
      var c := Life(mode, k, total, before);
      Chances(mode, k, total, before) + if c.open && Pass(c.k).room > 0 then 1 else 0
  }

  // ---- No writability is lost ------------------------------------------------------------------

  /**
   * Level: unless the socket has failed, EPOLLOUT is armed exactly while bytes
   * are unsent.  Edge: an edge is queued, or the buffer is full and watched.
   */
  predicate NothingLost(mode: Mode, c: Conn, total: nat)
    requires c.send_len <= total
  {
    match mode
    case Level =>
      && (c.k.interest ==> c.send_len < total)
      && (c.send_len < total ==> c.k.interest || c.k.failed)
    case Edge => c.open && !c.k.failed ==> Announced(c.k)
  }

  /** What one send does for the connection. */
  lemma SendBufEffect(mode: Mode, c: Conn, total: nat)
    requires c.send_len <= total
    ensures var r := SendBuf(mode, c, total);
      && r.c.send_len >= c.send_len && r.c.open == c.open
      && (c.k.failed ==> r.c.k.failed) && (c.k.hangup ==> r.c.k.hangup)
      && (r.ret == 1 <==> r.c.send_len == total)
      && (r.ret == 0 ==> r.c.k.room == 0 && r.c.k.waiting)
      && (r.ret != 1 && r.ret != 0 ==> r.c.k.failed)
      && (mode.Edge? && Announced(c.k) ==> Announced(r.c.k))
      && (mode.Level? && (c.k.interest ==> c.send_len < total) ==> NothingLost(mode, r.c, total))
      && (c.k.room > 0 && r.c.send_len == c.send_len < total ==> r.c.k.failed)
  {
    SendRunEnds(c.k, total - c.send_len);
  }

  lemma HandleRecvEffect(mode: Mode, c: Conn, total: nat)
    requires c.send_len <= total
    ensures var r := HandleRecv(c);
      && r.c.send_len == c.send_len && r.c.open == c.open
      && (c.k.failed ==> r.c.k.failed) && (c.k.hangup ==> r.c.k.hangup)
      && (NothingLost(mode, c, total) ==> NothingLost(mode, r.c, total))
      && (r.ret == 0 || r.c.k.failed || r.c.k.hangup)
  {
    RecvRunEnds(c.k);
  }

  /** One turn: what it keeps, what it achieves, and why it may end the connection. */
  predicate GoodTurn(mode: Mode, c: Conn, total: nat, c': Conn)
    requires c.send_len <= total && c'.send_len <= total
  {
    && NothingLost(mode, c', total)
    && c'.send_len >= c.send_len
    && (c.k.failed ==> c'.k.failed) && (c.k.hangup ==> c'.k.hangup)
    && (c'.open ==> c.open)
    && (!c'.open && c.open ==> c'.send_len == total || c'.k.failed || c'.k.hangup)
    && (c.open && Pass(c.k).room == 0 && !c'.open ==> c'.k.failed || c'.k.hangup)
    && (mode.Level? && c.open && c.send_len == total && !c'.open ==> c'.k.failed || c'.k.hangup)
    && (c'.open && c'.send_len == total ==> c.send_len == total)
    && (mode.Edge? && c.open && Pass(c.k).room > 0 && c'.open && !c'.k.failed ==> c'.send_len < total)
    && (c.open && Pass(c.k).room > 0 && c'.open && !c'.k.failed ==> c'.send_len > c.send_len || c.send_len == total)
  }

  lemma TurnIsGood(mode: Mode, c: Conn, total: nat, read: bool)
    requires c.send_len <= total && NothingLost(mode, c, total)
    ensures GoodTurn(mode, c, total, Turn(mode, c, total, read))
  {
    if c.open {
      PassOnward(c.k);
      var k := Pass(c.k);
      var ev := Reported(mode, k, read);
      var c1 := c.(k := Wait(mode, k));
      if !ev.other && ev.writable {
        SendBufEffect(mode, c1, total);
        var s := HandleSend(mode, c1, total);
        if s.ret == 0 && read { HandleRecvEffect(mode, s.c, total); }
      } else if !ev.other && read {
        HandleRecvEffect(mode, c1, total);
      }
    }
  }

  lemma StartIsGood(mode: Mode, k: Kernel, total: nat)
    ensures NothingLost(mode, Start(mode, k, total), total) && Start(mode, k, total).open
  {
    SendBufEffect(mode, Conn(Registered(mode, k), 0, 0, true), total);
  }

  // ---- When a turn ends the connection ------------------------------------------------------------

  /** `send_buf` returns 0 exactly if something is left and the socket has not failed. */
  lemma SendBufReturns(mode: Mode, c: Conn, total: nat)
    requires c.send_len <= total
    ensures var r := SendBuf(mode, c, total);
      && (r.ret == 0 <==> r.c.send_len < total && !r.c.k.failed)
      && (c.k.failed ==> r.c.k.failed) && (c.k.hangup ==> r.c.k.hangup)
  {
    SendRunEnds(c.k, total - c.send_len);
    SendRunLeaves(c.k, total - c.send_len);
  }

  lemma HandleRecvReturns(c: Conn)
    ensures var r := HandleRecv(c);
      && (r.ret == 0 <==> !r.c.k.failed && !r.c.k.hangup) && r.c.send_len == c.send_len
      && (c.k.failed ==> r.c.k.failed) && (c.k.hangup ==> r.c.k.hangup)
  {
    RecvRunEnds(c.k);
  }

  /**
   * Exactly when an open connection outlives a turn: the socket had not failed,
   * if room was reported the send left something and did not fail, and if the
   * connection was readable the peer has neither reset it nor closed its end.
   */
  lemma TurnOutlived(mode: Mode, c: Conn, total: nat, read: bool)
    requires c.send_len <= total && c.open
    ensures var k, c' := Pass(c.k), Turn(mode, c, total, read);
      c'.open <==>
        && !k.failed
        && (Writable(mode, k) ==> c'.send_len < total && !c'.k.failed)
        && (read ==> !c'.k.failed && !c'.k.hangup)
  {
    var k := Pass(c.k);
    var c1 := c.(k := Wait(mode, k));
    SendBufReturns(mode, c1, total);
    HandleRecvReturns(c1);
    HandleRecvReturns(HandleSend(mode, c1, total).c);
  }

  /** A readable turn ends a connection whose peer has closed its end, and any turn one whose socket has failed. */
  lemma DeadTurnCloses(mode: Mode, c: Conn, total: nat, read: bool)
    requires c.send_len <= total && c.open
    ensures Pass(c.k).failed ==> !Turn(mode, c, total, read).open
    ensures Pass(c.k).hangup && read ==> !Turn(mode, c, total, read).open
  {
    var k := Pass(c.k);
    var c1 := c.(k := Wait(mode, k));
    TurnOutlived(mode, c, total, read);
    SendBufReturns(mode, c1, total);
    HandleRecvReturns(c1);
    HandleRecvReturns(HandleSend(mode, c1, total).c);
  }

  // ---- Whole lives -----------------------------------------------------------------------------

  /** What the number of chances and the constructor's send say about a life so far. */
  predicate Fate(mode: Mode, c: Conn, total: nat, born: nat, chances: nat) {
    && born <= c.send_len <= total && NothingLost(mode, c, total)
    && (c.open && !c.k.failed ==> c.send_len >= Min(born + chances, total))
    && (!c.open ==> c.send_len == total || c.k.failed || c.k.hangup)
    && match mode
       case Level =>
         && (c.open && c.send_len == total ==> born == total)
         && (born == total && !c.open ==> c.k.failed || c.k.hangup)
       case Edge =>
         && (c.open && !c.k.failed && c.send_len == total ==> chances == 0)
         && (!c.open && chances == 0 ==> c.k.failed || c.k.hangup)
  }

  lemma FateGoesOn(mode: Mode, c: Conn, c': Conn, total: nat, born: nat, chances: nat)
    requires Fate(mode, c, total, born, chances) && c'.send_len <= total
    requires GoodTurn(mode, c, total, c') && (!c.open ==> c' == c)
    ensures Fate(mode, c', total, born, chances + if c.open && Pass(c.k).room > 0 then 1 else 0)
  {
  }

  lemma FateTurns(mode: Mode, c: Conn, total: nat, read: bool, born: nat, chances: nat)
    requires c.send_len <= total && Fate(mode, c, total, born, chances)
    ensures Fate(mode, Turn(mode, c, total, read), total, born,
                 chances + if c.open && Pass(c.k).room > 0 then 1 else 0)
  {
    TurnIsGood(mode, c, total, read);
    FateGoesOn(mode, c, Turn(mode, c, total, read), total, born, chances);
  }

  lemma FateStarts(mode: Mode, k: Kernel, total: nat)
    ensures Fate(mode, Start(mode, k, total), total, Born(mode, k, total), 0)
  {
    StartIsGood(mode, k, total);
  }

  lemma {:induction false} FateOf(mode: Mode, k: Kernel, total: nat, ready: seq<bool>)
    ensures Fate(mode, Life(mode, k, total, ready), total, Born(mode, k, total), Chances(mode, k, total, ready))
  {
    if ready == [] {
      FateStarts(mode, k, total);
    } else {
      var before, read := ready[..|ready| - 1], ready[|ready| - 1];
      FateOf(mode, k, total, before);
      FateTurns(mode, Life(mode, k, total, before), total, read, Born(mode, k, total), Chances(mode, k, total, before));
    }
  }

  /** At every moment of every life, no writability has been lost. */
  lemma NeverLost(mode: Mode, k: Kernel, total: nat, ready: seq<bool>)
    ensures NothingLost(mode, Life(mode, k, total, ready), total)
  {
    FateOf(mode, k, total, ready);
  }

  /**
   * The level-triggered connection, as long as the peer neither resets nor
   * closes: it stays open exactly while bytes are unsent, or for ever if the
   * constructor had sent the whole response.
   */
  lemma LevelCloses(k: Kernel, total: nat, ready: seq<bool>)
    ensures var c := Life(Level, k, total, ready);
      !c.k.failed && !c.k.hangup ==> (c.open <==> c.send_len < total || Born(Level, k, total) == total)
  {
    FateOf(Level, k, total, ready);
  }

  /**
   * The edge-triggered connection: it stays open exactly while bytes are unsent
   * or the send buffer was never seen with room.
   */
  lemma EdgeCloses(k: Kernel, total: nat, ready: seq<bool>)
    ensures var c := Life(Edge, k, total, ready);
      !c.k.failed && !c.k.hangup ==> (c.open <==> c.send_len < total || Chances(Edge, k, total, ready) == 0)
  {
    FateOf(Edge, k, total, ready);
  }

  /** The peer's bytes, received or not. */
  function AllBytes(c: Conn): nat {
    c.recv_len + Incoming(c.k)
  }

  lemma HandleSendConserves(mode: Mode, c: Conn, total: nat)
    requires c.send_len <= total
    ensures AllBytes(HandleSend(mode, c, total).c) == AllBytes(c)
  {
    SendRunConserves(c.k, total - c.send_len);
  }

  lemma HandleRecvConserves(c: Conn)
    ensures AllBytes(HandleRecv(c).c) == AllBytes(c)
  {
    RecvRunConserves(c.k);
  }

  lemma HandleConserves(mode: Mode, c: Conn, total: nat, ev: Events)
    requires c.send_len <= total
    ensures AllBytes(Handle(mode, c, total, ev).c) == AllBytes(c)
  {
    HandleSendConserves(mode, c, total);
    HandleRecvConserves(c);
    HandleRecvConserves(HandleSend(mode, c, total).c);
  }

  lemma {:induction false} TurnConserves(mode: Mode, c: Conn, total: nat, read: bool)
    requires c.send_len <= total
    ensures AllBytes(Turn(mode, c, total, read)) == AllBytes(c)
  {
    var k := Pass(c.k);
    PassConserves(c.k);
    HandleConserves(mode, c.(k := Wait(mode, k)), total, Reported(mode, k, read));
  }

  /** Every byte the peer ever sends has been counted in recv_len, lies in the inbox, or is still to come. */
  lemma {:induction false} ReceivedIsCounted(mode: Mode, k: Kernel, total: nat, ready: seq<bool>)
    ensures var c := Life(mode, k, total, ready);
      c.recv_len + Incoming(c.k) == Incoming(k)
  {
    if ready == [] {
      SendRunConserves(Registered(mode, k), total);
    } else {
      var before := ready[..|ready| - 1];
      ReceivedIsCounted(mode, k, total, before);
      TurnConserves(mode, Life(mode, k, total, before), total, ready[|ready| - 1]);
    }
  }

  /** The peer is gone when turn i comes: the socket has failed, or a readable turn meets the end of the stream. */
  predicate GoneAt(mode: Mode, k: Kernel, total: nat, ready: seq<bool>, i: nat)
    requires i < |ready|
  {
    var k1 := Pass(Life(mode, k, total, ready[..i]).k);
    k1.failed || (k1.hangup && ready[i])
  }

  lemma ClosedForGood(mode: Mode, k: Kernel, total: nat, ready: seq<bool>)
    requires ready != [] && !Life(mode, k, total, ready[..|ready| - 1]).open
    ensures !Life(mode, k, total, ready).open
  {
  }

  lemma LastTurnCloses(mode: Mode, k: Kernel, total: nat, ready: seq<bool>)
    requires ready != [] && GoneAt(mode, k, total, ready, |ready| - 1)
    ensures !Life(mode, k, total, ready).open
  {
    var c := Life(mode, k, total, ready[..|ready| - 1]);
    if c.open { DeadTurnCloses(mode, c, total, ready[|ready| - 1]); }
  }

  /** No connection outlives its peer: once that has gone, the next turn that can tell closes it for good. */
  lemma {:induction false} NoneOutlivesItsPeer(mode: Mode, k: Kernel, total: nat, ready: seq<bool>, i: nat)
    requires i < |ready| && GoneAt(mode, k, total, ready, i)
    ensures !Life(mode, k, total, ready).open
  {
    if i < |ready| - 1 {
      var before := ready[..|ready| - 1];
      assert before[..i] == ready[..i];
      NoneOutlivesItsPeer(mode, k, total, before, i);
      ClosedForGood(mode, k, total, ready);
    } else {
      LastTurnCloses(mode, k, total, ready);
    }
  }

  /** What has been sent keeps up with the chances, unless something went wrong. */
  predicate KeepsUp(c: Conn, total: nat, born: nat, chances: nat) {
    !c.k.failed && !c.k.hangup ==> c.send_len >= Min(born + chances, total)
  }

  lemma FateKeepsUp(mode: Mode, c: Conn, total: nat, born: nat, chances: nat)
    requires Fate(mode, c, total, born, chances)
    ensures KeepsUp(c, total, born, chances)
  {
  }

  /**
   * Each turn that finds room gets a byte out, or more: as many of them as the
   * constructor left bytes unsent complete the response.
   */
  lemma DeliveryKeepsUp(mode: Mode, k: Kernel, total: nat, ready: seq<bool>)
    ensures KeepsUp(Life(mode, k, total, ready), total, Born(mode, k, total), Chances(mode, k, total, ready))
  {
    FateOf(mode, k, total, ready);
    FateKeepsUp(mode, Life(mode, k, total, ready), total, Born(mode, k, total), Chances(mode, k, total, ready));
  }

  // ---- The two servers apart ------------------------------------------------------------------

  /** The peer neither resets the connection nor closes its end, now or later. */
  predicate Gentle(k: Kernel) {
    !k.failed && !k.hangup && forall i | 0 <= i < |k.moves| :: !k.moves[i].resets && !k.moves[i].closes
  }

  lemma PassGentle(k: Kernel)
    requires Gentle(k)
    ensures Gentle(Pass(k))
  {
  }

  lemma {:induction false} SendRunGentle(k: Kernel, left: nat)
    requires Gentle(k)
    ensures Gentle(SendRun(k, left).k)
    decreases left
  {
    if left > 0 {
      PassGentle(k);
      var n := Accepts(Pass(k), left);
      if n > 0 { SendRunGentle(AfterSend(Pass(k), left), left - n); }
    }
  }

  lemma {:induction false} RecvRunGentle(k: Kernel)
    requires Gentle(k)
    ensures Gentle(RecvRun(k).k)
    decreases |k.moves|, k.inbox
  {
    PassGentle(k);
    var k1 := Pass(k);
    var n := Delivers(k1);
    if n > 0 { RecvRunGentle(k1.(inbox := k1.inbox - n)); }
  }

  lemma HandleGentle(mode: Mode, c: Conn, total: nat, ev: Events)
    requires c.send_len <= total && Gentle(c.k)
    ensures Gentle(Handle(mode, c, total, ev).c.k)
  {
    SendRunGentle(c.k, total - c.send_len);
    RecvRunGentle(c.k);
    RecvRunGentle(HandleSend(mode, c, total).c.k);
  }

  lemma {:induction false} LifeGentle(mode: Mode, k: Kernel, total: nat, ready: seq<bool>)
    requires Gentle(k)
    ensures Gentle(Life(mode, k, total, ready).k)
  {
    if ready == [] {
      SendRunGentle(Registered(mode, k), total);
    } else {
      var before, read := ready[..|ready| - 1], ready[|ready| - 1];
      LifeGentle(mode, k, total, before);
      var c := Life(mode, k, total, before);
      PassGentle(c.k);
      var k1 := Pass(c.k);
      HandleGentle(mode, c.(k := Wait(mode, k1)), total, Reported(mode, k1, read));
    }
  }

  /** Room for all the bytes and one more, or a peer that makes some before every call. */
  predicate Takes(k: Kernel, left: nat) {
    && Gentle(k)
    && ((k.moves == [] && k.room > left) ||
        (|k.moves| > left && forall i | 0 <= i < |k.moves| :: k.moves[i].drained > 0))
  }

  /** All the bytes go out at once, and there will be room again. */
  lemma {:induction false} TakesAll(k: Kernel, left: nat)
    requires Takes(k, left)
    ensures SendRun(k, left).count == left && Takes(SendRun(k, left).k, 0)
    decreases left
  {
    if left > 0 {
      PassGentle(k);
      var k1 := Pass(k);
      var n := Accepts(k1, left);
      assert k.moves == [] ==> n == left;
      TakesAll(AfterSend(k1, left), left - n);
    }
  }

  lemma StartTakes(mode: Mode, k: Kernel, total: nat)
    requires Takes(k, total)
    ensures Born(mode, k, total) == total
    ensures Takes(Start(mode, k, total).k, 0) && Pass(Start(mode, k, total).k).room > 0
  {
    TakesAll(Registered(mode, k), total);
  }

  lemma EdgeShuts(c: Conn, total: nat, read: bool)
    requires c.open && c.send_len == total && Pass(c.k).room > 0 && Announced(c.k)
    ensures !Turn(Edge, c, total, read).open
  {
    PassOnward(c.k);
  }

  /**
   * With such a peer the constructor sends the whole response.  However often
   * the event loop turns, the level-triggered connection is then never closed,
   * while the first turn closes the edge-triggered one.
   */
  lemma {:induction false} SentAtOnce(k: Kernel, total: nat, ready: seq<bool>)
    requires Takes(k, total)
    ensures Born(Level, k, total) == Born(Edge, k, total) == total
    ensures Life(Level, k, total, ready).open
    ensures Life(Edge, k, total, ready).open <==> ready == []
  {
    StartTakes(Level, k, total);
    StartTakes(Edge, k, total);
    LifeGentle(Level, k, total, ready);
    LevelCloses(k, total, ready);
    StartIsGood(Edge, k, total);
    if ready != [] {
      var before, read := ready[..|ready| - 1], ready[|ready| - 1];
      SentAtOnce(k, total, before);
      if before == [] {
        EdgeShuts(Start(Edge, k, total), total, read);
      }
    }
  }
}
