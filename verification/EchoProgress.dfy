/**
 * Which calls of the kernel end an echo connection, and that every event gets on
 * with the work it announces.
 */
module EchoProgress {
  import opened Bytes
  import opened Epoll
  import opened RingBuffer
  import opened RingIo
  import opened EchoRuns

  /** What the ring can hold. */
  predicate Sane(c: Conn) {
    0 <= Stored(c) <= MAX_PKT_SIZE - 1
  }

  predicate NonEmpty(iov: seq<Iovec>) {
    forall j | 0 <= j < |iov| :: iov[j].len > 0
  }

  // ---- Receiving -------------------------------------------------------------------------------

  /** Receives that lead from c to r fail exactly if one of them meets an error or the end of the stream. */
  predicate Received(c: Conn, r: Result) {
    && Follows(c.moves, r.c.moves) && r.ret >= -1
    && (r.ret < 0 <==> Breaks(Used(c.moves, r.c.moves)))
  }

  lemma ReceivedOn(c: Conn, r: Result, r': Result)
    requires Received(c, r) && r.ret >= 0 && Received(r.c, r')
    ensures Received(c, r')
  {
    BreaksJoins(c.moves, r.c.moves, r'.c.moves);
  }

  lemma RecvOneBreaks(c: Conn, len: nat)
    requires len > 0
    ensures var r := RecvOne(c, len);
      && Received(c, r) && r.ret <= len && r.c.sent == c.sent
      && Stored(r.c) == Stored(c) + if r.ret < 0 then 0 else r.ret
  {
    UsedOne(c.moves);
  }

  lemma {:induction false} RecvPiecesBreak(c: Conn, iov: seq<Iovec>, i: nat, ret: nat)
    requires NonEmpty(iov)
    ensures Received(c, RecvPieces(c, iov, i, ret))
    decreases |iov| - i
  {
    if i < |iov| {
      var r, goal := RecvOne(c, iov[i].len), RecvPieces(c, iov, i, ret);
      RecvOneBreaks(c, iov[i].len);
      ReceivesOn(c, iov, i, ret, goal);
      if r.ret == iov[i].len {
        RecvPiecesBreak(r.c, iov, i + 1, ret + r.ret);
        ReceivedOn(c, r, goal);
      }
    }
  }

  /** It never brings more than the pieces hold. */
  lemma {:induction false} RecvPiecesFit(c: Conn, iov: seq<Iovec>, i: nat, ret: int)
    requires i <= |iov| && NonEmpty(iov)
    ensures var r := RecvPieces(c, iov, i, ret);
      && Stored(c) <= Stored(r.c) <= Stored(c) + Before(iov, |iov|) - Before(iov, i)
    decreases |iov| - i
  {
    if i < |iov| {
      var r := RecvOne(c, iov[i].len);
      RecvOneBreaks(c, iov[i].len);
      RecvPiecesFit(r.c, iov, i + 1, ret + r.ret);
    }
  }

  lemma RecvBufBreaks(c: Conn)
    requires Sane(c)
    ensures var r := RecvBufNative(c);
      Sane(r.c) && r.c.sent == c.sent && Stored(c) <= Stored(r.c) && Received(c, r)
  {
    RecvGrows(c);
    if Stored(c) < MAX_PKT_SIZE - 1 {
      var iov, p, len := BlankIovec(Wrapped(c.sent), Wrapped(|c.received|)), |c.received|, MAX_PKT_SIZE - 1 - Stored(c);
      BlankTiles(c.sent, p);
      BeforeAll(iov, p, len);
      RecvPiecesBreak(c, iov, 0, 0);
      RecvPiecesFit(c, iov, 0, 0);
    }
  }

  // ---- Sending ---------------------------------------------------------------------------------

  /** Sends that lead from c to r fail exactly if one of them meets an error. */
  predicate Sent(c: Conn, r: Result) {
    && Follows(c.moves, r.c.moves) && r.ret >= -1
    && (r.ret < 0 <==> Fails(Used(c.moves, r.c.moves)))
  }

  lemma SentOn(c: Conn, r: Result, r': Result)
    requires Sent(c, r) && r.ret >= 0 && Sent(r.c, r')
    ensures Sent(c, r')
  {
    BreaksJoins(c.moves, r.c.moves, r'.c.moves);
  }

  lemma SendOneFails(c: Conn, len: nat)
    ensures var r := SendOne(c, len);
      && Sent(c, r) && r.ret <= len && r.c.received == c.received
      && r.c.sent == c.sent + if r.ret < 0 then 0 else r.ret
  {
    UsedOne(c.moves);
  }

  lemma {:induction false} SendPiecesFail(c: Conn, iov: seq<Iovec>, i: nat, have: nat, total: int)
    ensures Sent(c, EchoRuns.SendPieces(c, iov, i, have, total))
    decreases |iov| - i
  {
    if i < |iov| {
      var r, goal := SendPiece(c, iov[i].len, have, total), EchoRuns.SendPieces(c, iov, i, have, total);
      SendOneFails(c, iov[i].len);
      SendsOn(c, iov, i, have, total, goal);
      if r.ret >= 0 && (have + r.ret == total || r.ret == iov[i].len) {
        SendPiecesFail(r.c, iov, i + 1, have + r.ret, total);
        SentOn(c, r, goal);
      }
    }
  }

  lemma {:induction false} SendPiecesFit(c: Conn, iov: seq<Iovec>, i: nat, have: int, total: int)
    requires i <= |iov|
    ensures var r := EchoRuns.SendPieces(c, iov, i, have, total);
      c.sent <= r.c.sent <= c.sent + Before(iov, |iov|) - Before(iov, i) && r.c.received == c.received
    decreases |iov| - i
  {
    if i < |iov| {
      var r := SendPiece(c, iov[i].len, have, total);
      SendOneFails(c, iov[i].len);
      SendPiecesFit(r.c, iov, i + 1, have + r.ret, total);
      BeforeGrows(iov, i + 1, |iov|);
    }
  }

  lemma {:induction false} BeforeGrows(iov: seq<Iovec>, i: nat, n: nat)
    requires i <= n <= |iov|
    ensures Before(iov, i) <= Before(iov, n)
    decreases n
  {
    if i < n { BeforeGrows(iov, i, n - 1); }
  }

  lemma SendBufNativeFails(c: Conn)
    requires Sane(c)
    ensures var r := SendBufNative(c); Sent(c, r) && Sane(r.c) && r.c.received == c.received && c.sent <= r.c.sent
  {
    if Stored(c) > 0 {
      var iov := ExistIovec(Wrapped(c.sent), Wrapped(|c.received|));
      ExistTiles(c.sent, |c.received|);
      BeforeAll(iov, c.sent, Stored(c));
      SendPiecesFail(c, iov, 0, 0, Stored(c));
      SendPiecesFit(c, iov, 0, 0, Stored(c));
    }
  }

  lemma SendBufFails(c: Conn)
    requires Sane(c)
    ensures var r := SendBuf(c); Sent(c, r) && Sane(r.c) && r.c.received == c.received && c.sent <= r.c.sent
  {
    if Stored(c) > 0 { SendOneFails(c, Stored(c)); }
  }

  // ---- One event -------------------------------------------------------------------------------

  /** The connection when the writing that an event asks for is done. */
  function Written(c: Conn, ev: Events): Conn {
    if ev.writable then SendBuf(c).c else c
  }

  /** The moves that the event's writing, receiving and sending use. */
  function WriteMoves(c: Conn, ev: Events): seq<Move>
    requires Sane(c)
  {
    SendBufFails(c);
    Used(c.moves, Written(c, ev).moves)
  }

  function ReadMoves(c: Conn, ev: Events): seq<Move>
    requires Sane(c)
  {
    SendBufFails(c);
    RecvBufBreaks(Written(c, ev));
    if ev.readable then Used(Written(c, ev).moves, RecvBufNative(Written(c, ev)).c.moves) else []
  }

  function EchoMoves(c: Conn, ev: Events): seq<Move>
    requires Sane(c)
  {
    SendBufFails(c);
    RecvBufBreaks(Written(c, ev));
    var r := RecvBufNative(Written(c, ev)).c;
    SendBufNativeFails(r);
    if ev.readable then Used(r.moves, SendBufNative(r).c.moves) else []
  }

  /**
   * What ends the connection: an event that is not asked for, an error of a send
   * for a writable event, an error or the end of the stream at a receive for a
   * readable one, or an error when what was received is sent on.
   */
  predicate Fatal(c: Conn, ev: Events)
    requires Sane(c)
  {
    || ev.other
    || Fails(WriteMoves(c, ev))
    || Breaks(ReadMoves(c, ev))
    || Fails(EchoMoves(c, ev))
  }

  lemma HandleSplits(c: Conn, ev: Events)
    ensures var w := Written(c, ev);
      var r := RecvBufNative(w);
      Handle(c, ev) ==
        if ev.other then Result(c, -1)
        else if ev.writable && SendBuf(c).ret < 0 then Result(w, -1)
        else if !ev.readable then Result(w, 0)
        else if r.ret < 0 then Result(r.c, -1)
        else Result(SendBufNative(r.c).c, if SendBufNative(r.c).ret < 0 then -1 else 0)
  {
  }

  lemma WriteMovesFail(c: Conn, ev: Events)
    requires Sane(c)
    ensures Fails(WriteMoves(c, ev)) <==> ev.writable && SendBuf(c).ret < 0
  {
    SendBufFails(c);
  }

  lemma ReadMovesBreak(c: Conn, ev: Events)
    requires Sane(c)
    ensures Breaks(ReadMoves(c, ev)) <==> ev.readable && RecvBufNative(Written(c, ev)).ret < 0
  {
    SendBufFails(c);
    RecvBufBreaks(Written(c, ev));
  }

  lemma EchoMovesFail(c: Conn, ev: Events)
    requires Sane(c)
    ensures Fails(EchoMoves(c, ev)) <==> ev.readable && SendBufNative(RecvBufNative(Written(c, ev)).c).ret < 0
  {
    SendBufFails(c);
    RecvBufBreaks(Written(c, ev));
    SendBufNativeFails(RecvBufNative(Written(c, ev)).c);
  }

  /** The handler returns -1 for these causes and no other, and 0 otherwise. */
  lemma HandlerFails(c: Conn, ev: Events)
    requires Sane(c)
    ensures Handle(c, ev).ret == if Fatal(c, ev) then -1 else 0
  {
    HandleSplits(c, ev);
    WriteMovesFail(c, ev);
    ReadMovesBreak(c, ev);
    EchoMovesFail(c, ev);
  }

  lemma {:induction false} HandlerKeeps(c: Conn, ev: Events)
    requires Sane(c)
    ensures var c' := Handle(c, ev).c; Sane(c') && Follows(c.moves, c'.moves) && c.sent <= c'.sent
  {
    var w := Written(c, ev);
    var r := RecvBufNative(w).c;
    HandleSplits(c, ev);
    SendBufFails(c);
    RecvBufBreaks(w);
    SendBufNativeFails(r);
    UsedJoins(c.moves, w.moves, r.moves);
    UsedJoins(c.moves, r.moves, SendBufNative(r).c.moves);
  }

  lemma {:induction false} MovesInOrder(c: Conn, ev: Events)
    requires Sane(c)
    ensures var w := Written(c, ev).moves;
      var r := if ev.readable then RecvBufNative(Written(c, ev)).c.moves else w;
      var s := if ev.readable then SendBufNative(RecvBufNative(Written(c, ev)).c).c.moves else r;
      && Follows(c.moves, w) && Follows(w, r) && Follows(r, s)
      && WriteMoves(c, ev) == Used(c.moves, w) && ReadMoves(c, ev) == Used(w, r) && EchoMoves(c, ev) == Used(r, s)
  {
    SendBufFails(c);
    RecvBufBreaks(Written(c, ev));
    SendBufNativeFails(RecvBufNative(Written(c, ev)).c);
  }

  lemma {:induction false} EndsWith(c: Conn, ev: Events)
    requires Handle(c, ev).ret == 0
    ensures Handle(c, ev).c.moves ==
      if ev.readable then SendBufNative(RecvBufNative(Written(c, ev)).c).c.moves else Written(c, ev).moves
  {
    HandleSplits(c, ev);
  }

  /** A connection that goes on has used the moves of its calls, in this order: writing, receiving, sending on. */
  lemma {:induction false} HandlerUses(c: Conn, ev: Events)
    requires Sane(c) && Handle(c, ev).ret == 0
    ensures var rest := Handle(c, ev).c.moves;
      Follows(c.moves, rest) && Used(c.moves, rest) == WriteMoves(c, ev) + ReadMoves(c, ev) + EchoMoves(c, ev)
  {
    MovesInOrder(c, ev);
    EndsWith(c, ev);
    var w := Written(c, ev).moves;
    var r := if ev.readable then RecvBufNative(Written(c, ev)).c.moves else w;
    UsedThrice(c.moves, w, r, Handle(c, ev).c.moves);
  }

  lemma GoesOnWithoutError(c: Conn, ev: Events)
    requires Sane(c) && Handle(c, ev).ret == 0
    ensures Follows(c.moves, Handle(c, ev).c.moves) && !Fails(Used(c.moves, Handle(c, ev).c.moves))
  {
    HandlerFails(c, ev);
    HandlerUses(c, ev);
  }

  // ---- Events get on with their work -------------------------------------------------------------

  /** Something is stored, the event says there is room, and the kernel is about to take bytes. */
  predicate CanSend(c: Conn, ev: Events) {
    ev.writable && !ev.other && Stored(c) > 0 && c.moves != [] && c.moves[0].Bytes? && c.moves[0].data != []
  }

  lemma {:induction false} SendBufGoesOn(c: Conn)
    requires Stored(c) > 0 && c.moves != []
    ensures SendBuf(c).c.moves == c.moves[1..] && SendBuf(c).c.sent == c.sent + Taken(c.moves[0], Stored(c))
  {
  }

  lemma {:induction false} KeepsWhatWasWritten(c: Conn, ev: Events)
    requires Sane(c) && !ev.other
    ensures Handle(c, ev).c.sent >= Written(c, ev).sent
  {
    HandleSplits(c, ev);
    SendBufFails(c);
    RecvBufBreaks(Written(c, ev));
    SendBufNativeFails(RecvBufNative(Written(c, ev)).c);
  }

  /** A writable event sends: its first call is a send, and what the kernel takes of all that is stored goes out. */
  lemma {:induction false} WriteGoesOn(c: Conn, ev: Events)
    requires Sane(c) && ev.writable && !ev.other && Stored(c) > 0 && c.moves != []
    ensures WriteMoves(c, ev) == [c.moves[0]]
    ensures Handle(c, ev).c.sent >= c.sent + Taken(c.moves[0], Stored(c))
  {
    SendBufGoesOn(c);
    KeepsWhatWasWritten(c, ev);
  }

  lemma {:induction false} RecvOneGoesOn(c: Conn, len: nat)
    requires len > 0 && c.moves != []
    ensures var c' := RecvOne(c, len).c;
      && c.received <= c'.received && c'.moves == c.moves[1..]
      && (c.moves[0].Bytes? && c.moves[0].data != [] ==> c.received + [c.moves[0].data[0]] <= c'.received)
  {
  }

  /** The loop starts with a receive into the first piece. */
  lemma {:induction false} RecvPiecesGoOn(c: Conn, iov: seq<Iovec>, goal: Result)
    requires NonEmpty(iov) && iov != [] && c.moves != [] && Receives(c, iov, 0, 0, goal)
    ensures |goal.c.moves| < |c.moves|
    ensures c.moves[0].Bytes? && c.moves[0].data != [] ==> c.received + [c.moves[0].data[0]] <= goal.c.received
  {
    var r := RecvOne(c, iov[0].len);
    RecvOneGoesOn(c, iov[0].len);
    RecvOneBreaks(c, iov[0].len);
    ReceivesOn(c, iov, 0, 0, goal);
    if r.ret == iov[0].len {
      RecvPiecesGrow(r.c, iov, 1, r.ret);
      RecvPiecesBreak(r.c, iov, 1, r.ret);
    }
  }

  lemma {:induction false} RecvBufGoesOn(c: Conn)
    requires Sane(c) && Stored(c) < MAX_PKT_SIZE - 1 && c.moves != []
    ensures var c' := RecvBufNative(c).c;
      && |c'.moves| < |c.moves|
      && (c.moves[0].Bytes? && c.moves[0].data != [] ==> c.received + [c.moves[0].data[0]] <= c'.received)
  {
    var iov, p, len := BlankIovec(Wrapped(c.sent), Wrapped(|c.received|)), |c.received|, MAX_PKT_SIZE - 1 - Stored(c);
    BlankTiles(c.sent, p);
    BeforeAll(iov, p, len);
    RecvPiecesGoOn(c, iov, RecvBufNative(c));
  }

  /** A readable event receives, after the writing, unless the ring is full: what the kernel has comes in. */
  lemma {:induction false} ReadGoesOn(c: Conn, ev: Events)
    requires Sane(c) && ev.readable && !Fatal(c, ev)
    requires Stored(Written(c, ev)) < MAX_PKT_SIZE - 1 && Written(c, ev).moves != []
    ensures var w, c' := Written(c, ev), Handle(c, ev).c;
      && |ReadMoves(c, ev)| > 0 && ReadMoves(c, ev)[0] == w.moves[0]
      && (w.moves[0].Bytes? ==> w.moves[0].data != [] && w.received + [w.moves[0].data[0]] <= c'.received)
  {
    var w := Written(c, ev);
    SendBufFails(c);
    HandleSplits(c, ev);
    HandlerFails(c, ev);
    RecvBufBreaks(w);
    RecvBufGoesOn(w);
    SendBufNativeFails(RecvBufNative(w).c);
  }

  /**
   * The loop asks again after a piece that was filled.  If the peer has closed its
   * end right behind those bytes, the connection is closed with the bytes unsent:
   * here 54 of them fill the first of two pieces.
   */
  lemma {:induction false} LastBytesUnsent(c: Conn, d: seq<Byte>)
    requires |c.received| == c.sent == 10 && |d| == 54 && c.moves == [Bytes(d), Bytes([])]
    ensures Handle(c, Events(true, false, false)) == Result(c.(moves := [], received := c.received + d), -1)
  {
    var iov := BlankIovec(Wrapped(10), Wrapped(10));
    assert iov == [Iovec(10, 54), Iovec(0, 9)];
    var goal := RecvBufNative(c);
    ReceivesOn(c, iov, 0, 0, goal);
    ReceivesOn(RecvOne(c, 54).c, iov, 1, 54, goal);
  }

  // ---- Whole lives -------------------------------------------------------------------------------

  lemma {:induction false} LifeSane(moves: seq<Move>, events: seq<Events>)
    ensures var l := Serve(moves, events); Sane(l.c) && Follows(moves, l.c.moves)
  {
    if events != [] {
      var before, ev := events[..|events| - 1], events[|events| - 1];
      LifeSane(moves, before);
      var l := Serve(moves, before);
      HandlerKeeps(l.c, ev);
      UsedJoins(moves, l.c.moves, Handle(l.c, ev).c.moves);
    }
  }

  /** Event k meets a cause to end the connection. */
  predicate FatalAt(moves: seq<Move>, events: seq<Events>, k: nat)
    requires k < |events|
  {
    LifeSane(moves, events[..k]);
    Fatal(Serve(moves, events[..k]).c, events[k])
  }

  lemma {:induction false} LastEvent(moves: seq<Move>, events: seq<Events>)
    requires events != []
    ensures Serve(moves, events).open <==>
      Serve(moves, events[..|events| - 1]).open && !FatalAt(moves, events, |events| - 1)
  {
    var before, ev := events[..|events| - 1], events[|events| - 1];
    LifeSane(moves, before);
    HandlerFails(Serve(moves, before).c, ev);
  }

  /** A connection is open if and only if no event so far has met such a cause. */
  lemma {:induction false} OpenExactly(moves: seq<Move>, events: seq<Events>)
    ensures Serve(moves, events).open <==> forall k | 0 <= k < |events| :: !FatalAt(moves, events, k)
  {
    if events != [] {
      var n := |events| - 1;
      OpenExactly(moves, events[..n]);
      LastEvent(moves, events);
      forall k | 0 <= k < n ensures FatalAt(moves, events[..n], k) <==> FatalAt(moves, events, k) {
        assert events[..n][..k] == events[..k];
      }
    }
  }

  lemma {:induction false} Harmless(moves: seq<Move>, c: Conn, ev: Events)
    requires Sane(c) && Follows(moves, c.moves) && !Breaks(moves) && !ev.other
    ensures !Fatal(c, ev)
  {
    MovesInOrder(c, ev);
    var w := Written(c, ev).moves;
    var r := if ev.readable then RecvBufNative(Written(c, ev)).c.moves else w;
    var s := if ev.readable then SendBufNative(RecvBufNative(Written(c, ev)).c).c.moves else r;
    UsedWithinAll(moves, c.moves, w, r, s);
  }

  /** With nothing but bytes and EAGAIN from the kernel, a connection stays open. */
  lemma {:induction false} StaysOpen(moves: seq<Move>, events: seq<Events>)
    requires !Breaks(moves) && forall k | 0 <= k < |events| :: !events[k].other
    ensures Serve(moves, events).open
  {
    forall k | 0 <= k < |events| ensures !FatalAt(moves, events, k) {
      LifeSane(moves, events[..k]);
      Harmless(moves, Serve(moves, events[..k]).c, events[k]);
    }
    OpenExactly(moves, events);
  }

  /** No open connection has met an error. */
  lemma {:induction false} ErrorCloses(moves: seq<Move>, events: seq<Events>)
    ensures var l := Serve(moves, events);
      Follows(moves, l.c.moves) && (l.open ==> !Fails(Used(moves, l.c.moves)))
  {
    LifeSane(moves, events);
    if events != [] {
      var before, ev := events[..|events| - 1], events[|events| - 1];
      ErrorCloses(moves, before);
      var l := Serve(moves, before);
      LifeSane(moves, before);
      if l.open && Handle(l.c, ev).ret == 0 {
        GoesOnWithoutError(l.c, ev);
        BreaksJoins(moves, l.c.moves, Handle(l.c, ev).c.moves);
      }
    }
  }

  /** How many events found something stored and a kernel about to take bytes. */
  function Chances(moves: seq<Move>, events: seq<Events>): nat {
    if events == [] then 0
    else
      var before := events[..|events| - 1];
      var l := Serve(moves, before);
      Chances(moves, before) + if l.open && CanSend(l.c, events[|events| - 1]) then 1 else 0
  }

  /** Every such event gets a byte out, or more. */
  lemma {:induction false} DeliveryKeepsUp(moves: seq<Move>, events: seq<Events>)
    ensures Serve(moves, events).c.sent >= Chances(moves, events)
  {
    if events != [] {
      var before, ev := events[..|events| - 1], events[|events| - 1];
      DeliveryKeepsUp(moves, before);
      LifeSane(moves, before);
      var c := Serve(moves, before).c;
      HandlerKeeps(c, ev);
      if CanSend(c, ev) { WriteGoesOn(c, ev); }
    }
  }
}
