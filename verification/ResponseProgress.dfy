/**
 * Which calls of the kernel end a response connection, and that every event gets
 * on with what is owed.
 */
module ResponseProgress {
  import opened Bytes
  import opened Epoll
  import opened RingBuffer
  import opened RingIo
  import opened ResponseRuns

  /** What the ring can hold, and a response begun or finished. */
  predicate Sane(c: Conn) {
    InRange(c) && 0 <= Stored(c) <= MAX_PKT_SIZE - 1
  }

  // ---- Receiving -------------------------------------------------------------------------------

  /** A receive fails exactly if it meets an error or the end of the stream. */
  lemma RecvBufBreaks(c: Conn)
    requires Sane(c)
    ensures var r := RecvBuf(c);
      && Sane(r.c) && Follows(c.moves, r.c.moves) && r.c.sent == c.sent
      && (r.ret < 0 <==> Breaks(Used(c.moves, r.c.moves)))
  {
    UsedOne(c.moves);
  }

  /** A receive brings all that the kernel has, as far as there is room. */
  lemma {:induction false} RecvBufGoesOn(c: Conn)
    requires Sane(c)
    ensures var r := RecvBuf(c);
      r.c.received == c.received + if c.moves == [] then 0 else Taken(c.moves[0], MAX_PKT_SIZE - 1 - Stored(c))
  {
  }

  /** Taking requests leaves less than one, and counts one response for each. */
  lemma {:induction false} TakeAllTakes(c: Conn)
    requires Sane(c)
    ensures var t := TakeAll(c);
      && Sane(t) && Stored(t) < REQUEST_SIZE && t.requests - c.requests == t.cnt - c.cnt >= 0
      && t == c.(requests := t.requests, cnt := t.cnt)
    decreases Stored(c)
  {
    if Stored(c) >= REQUEST_SIZE { TakeAllTakes(c.(requests := c.requests + 1, cnt := c.cnt + 1)); }
  }

  // ---- Sending ---------------------------------------------------------------------------------

  /**
   * Sends that lead from c to r fail exactly if one of them meets an error, and
   * otherwise leave something owed only if the last one moved nothing.
   */
  predicate Sent(c: Conn, r: Result) {
    && InRange(r.c) && (r.ret == 0 || r.ret == -1) && Follows(c.moves, r.c.moves)
    && c.sent <= r.c.sent && r.c.received == c.received && r.c.requests == c.requests
    && (r.ret < 0 <==> Fails(Used(c.moves, r.c.moves)))
    && (r.ret == 0 && Pending(r.c) ==> Stalled(c.moves, r.c.moves))
  }

  /** What is left of the response under way, or a whole one if the next is to begin. */
  function Size(c: Conn): nat
    requires InRange(c)
  {
    if c.pos == RESPONSE_SIZE then RESPONSE_SIZE else RESPONSE_SIZE - c.pos
  }

  lemma {:induction false} SendOnceFails(c: Conn)
    requires InRange(c) && Pending(c)
    ensures var r := SendOnce(c);
      && r.c.moves == Later(c.moves) && (r.ret < 0 <==> c.moves != [] && c.moves[0] == Error)
      && r.c.sent == c.sent + (if c.moves == [] then 0 else Taken(c.moves[0], Size(c)))
      && r.c.received == c.received && r.c.requests == c.requests
      && (r.ret == 0 ==> Stalled(c.moves, r.c.moves) && Pending(r.c))
  {
  }

  lemma SentOn(c: Conn, c1: Conn, r: Result)
    requires Follows(c.moves, c1.moves) && !Fails(Used(c.moves, c1.moves)) && Sent(c1, r)
    requires c.sent <= c1.sent && c1.received == c.received && c1.requests == c.requests
    ensures Sent(c, r)
  {
    BreaksJoins(c.moves, c1.moves, r.c.moves);
  }

  lemma {:induction false} LastSend(c: Conn, goal: Result)
    requires Sends(c, goal) && Pending(c) && SendOnce(c).ret <= 0
    ensures Sent(c, goal)
  {
    SendOnceFails(c);
    SendsOn(c, goal);
    UsedOne(c.moves);
  }

  /** The connection after a send that moved something. */
  function SentSome(c: Conn): (c': Conn)
    requires InRange(c) && Pending(c)
    ensures InRange(c')
  {
    Settled(SendOnce(c).c, SendOnce(c).ret)
  }

  lemma {:induction false} FurtherSend(c: Conn, goal: Result)
    requires Sends(c, goal) && Pending(c) && SendOnce(c).ret > 0
    ensures Sends(SentSome(c), goal) && 0 <= Owed(SentSome(c).cnt, SentSome(c).pos) < Owed(c.cnt, c.pos)
  {
    SendsOn(c, goal);
  }

  lemma {:induction false} SentFurther(c: Conn, goal: Result)
    requires InRange(c) && Pending(c) && SendOnce(c).ret > 0 && Sent(SentSome(c), goal)
    ensures Sent(c, goal)
  {
    SendOnceFails(c);
    UsedOne(c.moves);
    SentOn(c, SentSome(c), goal);
  }

  lemma {:induction false} SendsFail(c: Conn, goal: Result)
    requires Sends(c, goal)
    ensures Sent(c, goal)
    decreases Owed(c.cnt, c.pos)
  {
    if !Pending(c) {
      SendsNoMore(c, goal);
    } else if SendOnce(c).ret <= 0 {
      LastSend(c, goal);
    } else {
      FurtherSend(c, goal);
      SendsFail(SentSome(c), goal);
      SentFurther(c, goal);
    }
  }

  lemma {:induction false} SendAllFails(c: Conn)
    requires InRange(c)
    ensures Sent(c, SendAll(c))
  {
    SendsFail(c, SendAll(c));
  }

  /** While something is owed, the first call is a send of what is left of the response under way. */
  lemma {:induction false} SendAllGoesOn(c: Conn)
    requires InRange(c) && Pending(c) && c.moves != []
    ensures SendAll(c).c.sent >= c.sent + Taken(c.moves[0], Size(c))
    ensures |SendAll(c).c.moves| < |c.moves|
  {
    var r, goal := SendOnce(c), SendAll(c);
    SendOnceFails(c);
    SendsOn(c, goal);
    if r.ret > 0 { SendAllFails(Settled(r.c, r.ret)); }
  }

  // ---- One event -------------------------------------------------------------------------------

  /** The connection when the writing that an event asks for is done. */
  function Written(c: Conn, ev: Events): Conn
    requires InRange(c)
  {
    if ev.writable then SendAll(c).c else c
  }

  /** The connection when it has received and taken the requests. */
  function Asked(c: Conn, ev: Events): (a: Conn)
    requires Sane(c)
    ensures InRange(a)
  {
    SendAllFails(c);
    RecvBufBreaks(Written(c, ev));
    TakeAllInRange(RecvBuf(Written(c, ev)).c);
    TakeAll(RecvBuf(Written(c, ev)).c)
  }

  lemma {:induction false} MovesInOrder(c: Conn, ev: Events)
    requires Sane(c)
    ensures var w, a := Written(c, ev), Asked(c, ev);
      && Sane(w) && Sane(a) && Sane(SendAll(a).c)
      && Follows(c.moves, w.moves) && Follows(w.moves, a.moves) && Follows(a.moves, SendAll(a).c.moves)
      && a.moves == RecvBuf(w).c.moves && c.sent <= w.sent == a.sent <= SendAll(a).c.sent
  {
    SendAllFails(c);
    var w := Written(c, ev);
    RecvBufBreaks(w);
    TakeAllTakes(RecvBuf(w).c);
    SendAllFails(Asked(c, ev));
  }

  lemma {:induction false} AskedTakes(c: Conn, ev: Events)
    requires Sane(c)
    ensures var r, a := RecvBuf(Written(c, ev)).c, Asked(c, ev);
      Stored(a) < REQUEST_SIZE && a.received == r.received
  {
    SendAllFails(c);
    RecvBufBreaks(Written(c, ev));
    TakeAllTakes(RecvBuf(Written(c, ev)).c);
  }

  /** The moves that the event's writing, receiving and answering use. */
  function WriteMoves(c: Conn, ev: Events): seq<Move>
    requires Sane(c)
  {
    MovesInOrder(c, ev);
    Used(c.moves, Written(c, ev).moves)
  }

  function ReadMoves(c: Conn, ev: Events): seq<Move>
    requires Sane(c)
  {
    MovesInOrder(c, ev);
    if ev.readable then Used(Written(c, ev).moves, Asked(c, ev).moves) else []
  }

  function AnswerMoves(c: Conn, ev: Events): seq<Move>
    requires Sane(c)
  {
    MovesInOrder(c, ev);
    if ev.readable then Used(Asked(c, ev).moves, SendAll(Asked(c, ev)).c.moves) else []
  }

  /**
   * What ends the connection: an event that is not asked for, an error of a send
   * for a writable event, an error or the end of the stream at the receive for a
   * readable one, or an error when the new requests are answered.
   */
  predicate Fatal(c: Conn, ev: Events)
    requires Sane(c)
  {
    || ev.other
    || Fails(WriteMoves(c, ev))
    || Breaks(ReadMoves(c, ev))
    || Fails(AnswerMoves(c, ev))
  }

  lemma {:induction false} HandleSplits(c: Conn, ev: Events)
    requires Sane(c)
    ensures var w := Written(c, ev);
      Handle(c, ev) ==
        if ev.other then Result(c, -1)
        else if ev.writable && SendAll(c).ret != 0 then SendAll(c)
        else if !ev.readable then Result(w, 0)
        else if RecvBuf(w).ret < 0 then Result(RecvBuf(w).c, -1)
        else SendAll(Asked(c, ev))
  {
  }

  lemma {:induction false} MovesNamed(c: Conn, ev: Events)
    requires Sane(c)
    ensures var w, a := Written(c, ev).moves, Asked(c, ev).moves;
      var s := SendAll(Asked(c, ev)).c.moves;
      && Follows(c.moves, w) && Follows(w, a) && Follows(a, s) && WriteMoves(c, ev) == Used(c.moves, w)
      && ReadMoves(c, ev) == (if ev.readable then Used(w, a) else [])
      && AnswerMoves(c, ev) == (if ev.readable then Used(a, s) else [])
  {
    MovesInOrder(c, ev);
  }

  lemma {:induction false} WriteMovesFail(c: Conn, ev: Events)
    requires Sane(c)
    ensures Fails(WriteMoves(c, ev)) <==> ev.writable && SendAll(c).ret < 0
  {
    SendAllFails(c);
  }

  lemma {:induction false} ReadMovesBreak(c: Conn, ev: Events)
    requires Sane(c)
    ensures Breaks(ReadMoves(c, ev)) <==> ev.readable && RecvBuf(Written(c, ev)).ret < 0
  {
    MovesInOrder(c, ev);
    RecvBufBreaks(Written(c, ev));
  }

  lemma {:induction false} AnswerMovesFail(c: Conn, ev: Events)
    requires Sane(c)
    ensures Fails(AnswerMoves(c, ev)) <==> ev.readable && SendAll(Asked(c, ev)).ret < 0
  {
    MovesInOrder(c, ev);
    SendAllFails(Asked(c, ev));
  }

  /** The handler returns -1 for these causes and no other, and 0 otherwise. */
  lemma {:induction false} HandlerFails(c: Conn, ev: Events)
    requires Sane(c)
    ensures Handle(c, ev).ret == if Fatal(c, ev) then -1 else 0
  {
    HandleSplits(c, ev);
    WriteMovesFail(c, ev);
    ReadMovesBreak(c, ev);
    AnswerMovesFail(c, ev);
    SendAllFails(c);
    SendAllFails(Asked(c, ev));
  }

  lemma {:induction false} HandlerKeeps(c: Conn, ev: Events)
    requires Sane(c)
    ensures var c' := Handle(c, ev).c; Sane(c') && Follows(c.moves, c'.moves) && c.sent <= c'.sent
  {
    var w, a := Written(c, ev), Asked(c, ev);
    HandleSplits(c, ev);
    MovesInOrder(c, ev);
    RecvBufBreaks(w);
    UsedJoins(c.moves, w.moves, a.moves);
    UsedJoins(c.moves, a.moves, SendAll(a).c.moves);
  }

  lemma {:induction false} EndsWith(c: Conn, ev: Events)
    requires Sane(c) && Handle(c, ev).ret == 0
    ensures Handle(c, ev) == if ev.readable then SendAll(Asked(c, ev)) else Result(Written(c, ev), 0)
  {
    HandleSplits(c, ev);
  }

  /** A connection that goes on has used the moves of its calls, in this order: writing, receiving, answering. */
  lemma {:induction false} HandlerUses(c: Conn, ev: Events)
    requires Sane(c) && Handle(c, ev).ret == 0
    ensures var rest := Handle(c, ev).c.moves;
      Follows(c.moves, rest) && Used(c.moves, rest) == WriteMoves(c, ev) + ReadMoves(c, ev) + AnswerMoves(c, ev)
  {
    MovesNamed(c, ev);
    EndsWith(c, ev);
    var w := Written(c, ev).moves;
    var a := if ev.readable then Asked(c, ev).moves else w;
    UsedThrice(c.moves, w, a, Handle(c, ev).c.moves);
  }

  lemma {:induction false} GoesOnWithoutError(c: Conn, ev: Events)
    requires Sane(c) && Handle(c, ev).ret == 0
    ensures Follows(c.moves, Handle(c, ev).c.moves) && !Fails(Used(c.moves, Handle(c, ev).c.moves))
  {
    HandlerFails(c, ev);
    HandlerUses(c, ev);
  }

  // ---- Events get on with their work -------------------------------------------------------------

  /** Something is owed, the event says there is room, and the kernel is about to take bytes. */
  predicate CanSend(c: Conn, ev: Events) {
    ev.writable && !ev.other && Pending(c) && c.moves != [] && c.moves[0].Bytes? && c.moves[0].data != []
  }

  /** A writable event sends: its first call is a send, and what the kernel takes of the response goes out. */
  lemma {:induction false} WriteGoesOn(c: Conn, ev: Events)
    requires Sane(c) && ev.writable && !ev.other && Pending(c) && c.moves != []
    ensures |WriteMoves(c, ev)| > 0 && WriteMoves(c, ev)[0] == c.moves[0]
    ensures Handle(c, ev).c.sent >= c.sent + Taken(c.moves[0], Size(c))
  {
    SendAllGoesOn(c);
    MovesInOrder(c, ev);
    HandleSplits(c, ev);
    RecvBufBreaks(Written(c, ev));
  }

  /**
   * A readable event receives, after the writing: what the kernel has, as far as
   * there is room, comes in, and every complete request of it is counted.
   */
  lemma {:induction false} ReadGoesOn(c: Conn, ev: Events)
    requires Sane(c) && ev.readable && !Fatal(c, ev)
    ensures Sane(Written(c, ev))
    ensures var w, c' := Written(c, ev), Handle(c, ev).c;
      && Stored(c') < REQUEST_SIZE
      && c'.received == w.received + if w.moves == [] then 0 else Taken(w.moves[0], MAX_PKT_SIZE - 1 - Stored(w))
  {
    MovesInOrder(c, ev);
    HandlerFails(c, ev);
    EndsWith(c, ev);
    RecvBufGoesOn(Written(c, ev));
    AskedTakes(c, ev);
    SendAllFails(Asked(c, ev));
  }

  /** When the handler is done, something is owed only if the last send moved nothing. */
  lemma {:induction false} SendsAllItCan(c: Conn, ev: Events)
    requires Sane(c) && Handle(c, ev).ret == 0 && (ev.writable || ev.readable)
    ensures var c' := Handle(c, ev).c;
      Follows(c.moves, c'.moves) && (Pending(c') ==> Stalled(c.moves, c'.moves))
  {
    HandlerKeeps(c, ev);
    MovesInOrder(c, ev);
    EndsWith(c, ev);
    SendAllFails(c);
    if ev.readable {
      var a := Asked(c, ev);
      SendAllFails(a);
      UsedJoins(c.moves, Written(c, ev).moves, a.moves);
      if Pending(SendAll(a).c) { StalledEarlier(c.moves, a.moves, SendAll(a).c.moves); }
    }
  }

  // ---- Whole lives -------------------------------------------------------------------------------

  lemma {:induction false} LifeSane(moves: seq<Move>, events: seq<Events>)
    ensures var l := Serve(moves, events); Sane(l.c) && Follows(moves, l.c.moves)
  {
    if events != [] {
      var before, ev := events[..|events| - 1], events[|events| - 1];
      LifeSane(moves, before);
      var l := Serve(moves, before);
      HandlerKeeps(l.c, ev);
      UsedJoins(moves, l.c.moves, Handle(l.c, ev).c.moves);
    }
  }

  /** Event k meets a cause to end the connection. */
  predicate FatalAt(moves: seq<Move>, events: seq<Events>, k: nat)
    requires k < |events|
  {
    LifeSane(moves, events[..k]);
    Fatal(Serve(moves, events[..k]).c, events[k])
  }

  lemma {:induction false} LastEvent(moves: seq<Move>, events: seq<Events>)
    requires events != []
    ensures Serve(moves, events).open <==>
      Serve(moves, events[..|events| - 1]).open && !FatalAt(moves, events, |events| - 1)
  {
    var before, ev := events[..|events| - 1], events[|events| - 1];
    LifeSane(moves, before);
    HandlerFails(Serve(moves, before).c, ev);
  }

  /** A connection is open if and only if no event so far has met such a cause. */
  lemma {:induction false} OpenExactly(moves: seq<Move>, events: seq<Events>)
    ensures Serve(moves, events).open <==> forall k | 0 <= k < |events| :: !FatalAt(moves, events, k)
  {
    if events != [] {
      var n := |events| - 1;
      OpenExactly(moves, events[..n]);
      LastEvent(moves, events);
      forall k | 0 <= k < n ensures FatalAt(moves, events[..n], k) <==> FatalAt(moves, events, k) {
        assert events[..n][..k] == events[..k];
      }
    }
  }

  lemma {:induction false} Harmless(moves: seq<Move>, c: Conn, ev: Events)
    requires Sane(c) && Follows(moves, c.moves) && !Breaks(moves) && !ev.other
    ensures !Fatal(c, ev)
  {
    MovesNamed(c, ev);
    UsedWithinAll(moves, c.moves, Written(c, ev).moves, Asked(c, ev).moves, SendAll(Asked(c, ev)).c.moves);
  }

  /** With nothing but bytes and EAGAIN from the kernel, a connection stays open. */
  lemma {:induction false} StaysOpen(moves: seq<Move>, events: seq<Events>)
    requires !Breaks(moves) && forall k | 0 <= k < |events| :: !events[k].other
    ensures Serve(moves, events).open
  {
    forall k | 0 <= k < |events| ensures !FatalAt(moves, events, k) {
      LifeSane(moves, events[..k]);
      Harmless(moves, Serve(moves, events[..k]).c, events[k]);
    }
    OpenExactly(moves, events);
  }

  /** No open connection has met an error. */
  lemma {:induction false} ErrorCloses(moves: seq<Move>, events: seq<Events>)
    ensures var l := Serve(moves, events);
      Follows(moves, l.c.moves) && (l.open ==> !Fails(Used(moves, l.c.moves)))
  {
    LifeSane(moves, events);
    if events != [] {
      var before, ev := events[..|events| - 1], events[|events| - 1];
      ErrorCloses(moves, before);
      var l := Serve(moves, before);
      LifeSane(moves, before);
      if l.open && Handle(l.c, ev).ret == 0 {
        GoesOnWithoutError(l.c, ev);
        BreaksJoins(moves, l.c.moves, Handle(l.c, ev).c.moves);
      }
    }
  }

  /** How many events found something owed and a kernel about to take bytes. */
  function Chances(moves: seq<Move>, events: seq<Events>): nat {
    if events == [] then 0
    else
      var before := events[..|events| - 1];
      var l := Serve(moves, before);
      Chances(moves, before) + if l.open && CanSend(l.c, events[|events| - 1]) then 1 else 0
  }

  /** Every such event gets a byte out, or more. */
  lemma {:induction false} DeliveryKeepsUp(moves: seq<Move>, events: seq<Events>)
    ensures Serve(moves, events).c.sent >= Chances(moves, events)
  {
    if events != [] {
      var before, ev := events[..|events| - 1], events[|events| - 1];
      DeliveryKeepsUp(moves, before);
      LifeSane(moves, before);
      var c := Serve(moves, before).c;
      HandlerKeeps(c, ev);
      if CanSend(c, ev) { WriteGoesOn(c, ev); }
    }
  }

  /** On an open connection something is owed only if the last call moved nothing: everything possible has gone out. */
  lemma {:induction false} OwedOnlyWhenStalled(moves: seq<Move>, events: seq<Events>)
    ensures var l := Serve(moves, events);
      Follows(moves, l.c.moves) && (l.open && Pending(l.c) ==> Stalled(moves, l.c.moves))
  {
    LifeSane(moves, events);
    if events != [] {
      var before, ev := events[..|events| - 1], events[|events| - 1];
      var l := Serve(moves, before);
      OwedOnlyWhenStalled(moves, before);
      LifeSane(moves, before);
      var r := Handle(l.c, ev);
      if l.open && r.ret == 0 && Pending(r.c) {
        if ev.writable || ev.readable {
          SendsAllItCan(l.c, ev);
          StalledEarlier(moves, l.c.moves, r.c.moves);
        } else {
          EndsWith(l.c, ev);
        }
      }
    }
  }
}
