/**
 * The kernel's side of a connection, and the transfers between it and the ring
 * buffer.  The kernel may transfer any number of bytes, or fail, at every call:
 * a list of moves says what each call does.
 */
module RingIo {
  import opened Bytes
  import opened RingBuffer

  /** Offsets that lie in the buffer, each once. */
  predicate GoodPositions(pos: seq<nat>, size: nat) {
    && (forall i | 0 <= i < |pos| :: pos[i] < size)
    && (forall i, j | 0 <= i < j < |pos| :: pos[i] != pos[j])
  }

  /**
   * What the kernel does at a call: a receive gets the first of these bytes, none
   * at the end of the stream, and a send gets as many taken; or the call fails,
   * with EAGAIN or otherwise.
   */
  datatype Move = Bytes(data: seq<Byte>) | Again | Error

  /** The move of the next call; without any the kernel says EAGAIN. */
  function Now(moves: seq<Move>): Move {
    if moves == [] then Again else moves[0]
  }

  function Later(moves: seq<Move>): seq<Move> {
    if moves == [] then [] else moves[1..]
  }

  /** How many bytes a call for `len` bytes moves, or -1. */
  function Count(m: Move, len: nat): (n: int)
    ensures -1 <= n <= len
  {
    match m
    case Bytes(data) => if |data| < len then |data| else len
    case _ => -1
  }

  /** The bytes a receive of `len` bytes brings. */
  function Brought(m: Move, len: nat): (d: seq<Byte>)
    ensures |d| == if m.Bytes? then Count(m, len) else 0
  {
    if m.Bytes? then m.data[..Count(m, len)] else []
  }

  /** What the program makes of a receive: no bytes after EAGAIN, -1 for an error or the end of the stream. */
  function RecvRet(m: Move, len: nat): int {
    match m
    case Bytes(_) => if Count(m, len) == 0 then -1 else Count(m, len)
    case Again => 0
    case Error => -1
  }

  /** What the program makes of a send: no bytes after EAGAIN, -1 for an error. */
  function SendRet(m: Move, len: nat): int {
    match m
    case Bytes(_) => Count(m, len)
    case Again => 0
    case Error => -1
  }

  /** What one call for `size` bytes moves. */
  function Taken(m: Move, size: nat): nat {
    if !m.Bytes? then 0 else if |m.data| < size then |m.data| else size
  }

  // ---- Which moves have been used -------------------------------------------------------------

  /** `rest` is what is left of the moves after some calls. */
  predicate Follows(moves: seq<Move>, rest: seq<Move>) {
    |rest| <= |moves| && moves[|moves| - |rest|..] == rest
  }

  /** The moves of those calls. */
  function Used(moves: seq<Move>, rest: seq<Move>): seq<Move>
    requires |rest| <= |moves|
  {
    moves[..|moves| - |rest|]
  }

  lemma UsedJoins(moves: seq<Move>, mid: seq<Move>, rest: seq<Move>)
    requires Follows(moves, mid) && Follows(mid, rest)
    ensures Follows(moves, rest) && Used(moves, rest) == Used(moves, mid) + Used(mid, rest)
  {
    var n, m := |moves| - |mid|, |moves| - |rest|;
    assert moves[m..] == moves[n..][m - n..];
  }

  lemma UsedThrice(moves: seq<Move>, one: seq<Move>, two: seq<Move>, rest: seq<Move>)
    requires Follows(moves, one) && Follows(one, two) && Follows(two, rest)
    ensures Follows(moves, rest) && Used(moves, rest) == Used(moves, one) + Used(one, two) + Used(two, rest)
  {
    UsedJoins(moves, one, two);
    UsedJoins(moves, two, rest);
  }

  lemma UsedOne(moves: seq<Move>)
    ensures Follows(moves, Later(moves))
    ensures Used(moves, Later(moves)) == if moves == [] then [] else [moves[0]]
  {
  }

  /** A receive meets an error or the end of the stream. */
  predicate Breaks(used: seq<Move>) {
    Error in used || Bytes([]) in used
  }

  /** A send meets an error. */
  predicate Fails(used: seq<Move>) {
    Error in used
  }

  lemma BreaksJoins(moves: seq<Move>, mid: seq<Move>, rest: seq<Move>)
    requires Follows(moves, mid) && Follows(mid, rest)
    ensures Follows(moves, rest)
    ensures Breaks(Used(moves, rest)) <==> Breaks(Used(moves, mid)) || Breaks(Used(mid, rest))
    ensures Fails(Used(moves, rest)) <==> Fails(Used(moves, mid)) || Fails(Used(mid, rest))
  {
    UsedJoins(moves, mid, rest);
  }

  /** What the calls meet is among the moves. */
  lemma UsedWithin(moves: seq<Move>, mid: seq<Move>, rest: seq<Move>)
    requires Follows(moves, mid) && Follows(mid, rest) && !Breaks(moves)
    ensures !Breaks(Used(mid, rest)) && !Fails(Used(mid, rest))
  {
    forall m | m in Used(mid, rest) ensures m in moves {
      assert m in mid;
    }
  }

  lemma UsedWithinAll(moves: seq<Move>, from: seq<Move>, one: seq<Move>, two: seq<Move>, rest: seq<Move>)
    requires Follows(moves, from) && Follows(from, one) && Follows(one, two) && Follows(two, rest) && !Breaks(moves)
    ensures !Fails(Used(from, one)) && !Breaks(Used(one, two)) && !Fails(Used(two, rest))
  {
    UsedJoins(moves, from, one);
    UsedJoins(moves, one, two);
    UsedWithin(moves, from, one);
    UsedWithin(moves, one, two);
    UsedWithin(moves, two, rest);
  }

  /** The last call moved nothing, or there was none left to say so. */
  predicate Stalled(moves: seq<Move>, rest: seq<Move>)
    requires |rest| <= |moves|
  {
    rest == [] || (|rest| < |moves| && var m := moves[|moves| - |rest| - 1]; m == Again || m == Bytes([]))
  }

  lemma StalledEarlier(moves: seq<Move>, mid: seq<Move>, rest: seq<Move>)
    requires Follows(moves, mid) && Follows(mid, rest) && Stalled(mid, rest)
    ensures Stalled(moves, rest)
  {
    if rest != [] {
      assert mid[|mid| - |rest| - 1] == moves[|moves| - |rest| - 1];
    }
  }

  class Socket {
    var moves: seq<Move>              // what the kernel does at the calls to come
    ghost var received: seq<Byte>     // every byte handed to the program, in order
    ghost var sent: seq<Byte>         // every byte accepted from the program, in order
    ghost var drained: bool           // the last receive did not fill what it was given
    ghost var refused: bool           // the last send did not take what it was given
    var interest: bool                // whether the epoll set has EPOLLOUT for this socket

    constructor (moves: seq<Move>)
      ensures this.moves == moves && received == [] && sent == [] && !interest
    {
      this.moves := moves;
      received, sent := [], [];
      drained, refused := false, false;
      interest := false;
    }

    /** recv and recvmsg: fill a prefix of the pieces, or return -1 with `again` telling EAGAIN from an error. */
    method Receive(buf: array<Byte>, iov: seq<Iovec>) returns (n: int, again: bool)
      requires GoodPositions(Positions(iov), buf.Length)
      modifies this`moves, this`received, this`drained, buf
      ensures moves == Later(old(moves)) && again == Now(old(moves)).Again?
      ensures n == Count(Now(old(moves)), |Positions(iov)|) && (drained <==> n < |Positions(iov)|)
      ensures n < 0 ==> received == old(received) && buf[..] == old(buf[..])
      ensures n >= 0 ==> Gather(buf[..], Positions(iov)[..n]) == Brought(Now(old(moves)), |Positions(iov)|)
      ensures n >= 0 ==> received == old(received) + Gather(buf[..], Positions(iov)[..n])
      ensures forall i | 0 <= i < buf.Length && i !in Positions(iov) :: buf[i] == old(buf[i])
    {
      var pos, m := Positions(iov), Now(moves);
      moves := Later(moves);
      n, again := Count(m, |pos|), m.Again?;
      drained := n < |pos|;
      if n >= 0 {
        var data := Brought(m, |pos|);
        var k := 0;
        while k < n
          invariant 0 <= k <= n && received == old(received) && drained == (n < |pos|) && moves == Later(old(moves))
          invariant forall i | 0 <= i < k :: buf[pos[i]] == data[i]
          invariant forall i | 0 <= i < buf.Length && i !in pos :: buf[i] == old(buf[i])
        {
          buf[pos[k]] := data[k];
          k := k + 1;
        }
        assert data == Gather(buf[..], pos[..n]);
        received := received + Gather(buf[..], pos[..n]);
      }
    }

    /** send and sendmsg: accept a prefix of the bytes, or return -1. */
    method Send(ghost bytes: seq<Byte>, size: nat) returns (n: int, again: bool)
      requires |bytes| == size
      modifies this`moves, this`sent, this`refused
      ensures moves == Later(old(moves)) && again == Now(old(moves)).Again?
      ensures n == Count(Now(old(moves)), size) && (refused <==> n < size)
      ensures sent == old(sent) + if n < 0 then [] else bytes[..n]
    {
      n, again := Count(Now(moves), size), Now(moves).Again?;
      moves := Later(moves);
      refused := n < size;
      if n >= 0 {
        sent := sent + bytes[..n];
      }
    }

    /** epoll_ctl with EPOLL_CTL_MOD. */
    method Modify(epollout: bool)
      modifies this`interest
      ensures interest == epollout
    {
      interest := epollout;
    }
  }

  lemma RingIsGood(start: nat, n: nat)
    requires n <= MAX_PKT_SIZE
    ensures GoodPositions(Ring(start, n), MAX_PKT_SIZE)
  {
    forall i, j | 0 <= i < j < n ensures Ring(start, n)[i] != Ring(start, n)[j] {
      RingDistinct(start, n, i, j);
    }
  }

  /** Bytes written to free positions do not touch the stored ones. */
  lemma StoredUntouched(before: seq<Byte>, after: seq<Byte>, f: nat, stored: nat, len: nat)
    requires |before| == |after| == MAX_PKT_SIZE && stored + len <= MAX_PKT_SIZE
    requires forall i | 0 <= i < MAX_PKT_SIZE && i !in Ring(f + stored, len) :: after[i] == before[i]
    ensures Gather(after, Ring(f, stored)) == Gather(before, Ring(f, stored))
  {
    var r := Ring(f, stored);
    forall k | 0 <= k < stored ensures after[r[k]] == before[r[k]] {
      assert r[k] in r;
      HalvesDisjoint(f, stored, len, r[k]);
    }
  }

  /** Receive into pieces that are the next `len` free positions. */
  method ReceiveInto(sock: Socket, ring: Buffer, iov: seq<Iovec>, ghost len: nat) returns (n: int, again: bool)
    requires ring.Valid() && ring.recvs - ring.sends + len < MAX_PKT_SIZE
    requires Positions(iov) == Ring(ring.recvs, len)
    modifies sock`moves, sock`received, sock`drained, ring.buf
    ensures sock.moves == Later(old(sock.moves)) && again == Now(old(sock.moves)).Again?
    ensures n == Count(Now(old(sock.moves)), len) && (sock.drained <==> n < len)
    ensures ring.Contents() == old(ring.Contents())
    ensures n < 0 ==> sock.received == old(sock.received)
    ensures n >= 0 ==> Gather(ring.buf[..], Ring(ring.recvs, n)) == Brought(Now(old(sock.moves)), len)
    ensures n >= 0 ==> sock.received == old(sock.received) + Gather(ring.buf[..], Ring(ring.recvs, n))
  {
    ghost var before := ring.buf[..];
    RingIsGood(ring.recvs, len);
    n, again := sock.Receive(ring.buf, iov);
    StoredUntouched(before, ring.buf[..], ring.sends, ring.recvs - ring.sends, len);
    if n >= 0 {
      assert Ring(ring.recvs, len)[..n] == Ring(ring.recvs, n);
    }
  }

  /** Send from pieces that are the first `len` stored positions. */
  method SendFrom(sock: Socket, ring: Buffer, iov: seq<Iovec>, size: nat) returns (n: int, again: bool)
    requires ring.Valid() && size <= ring.recvs - ring.sends
    requires Positions(iov) == Ring(ring.sends, size)
    modifies sock`moves, sock`sent, sock`refused
    ensures sock.moves == Later(old(sock.moves)) && again == Now(old(sock.moves)).Again?
    ensures n == Count(Now(old(sock.moves)), size) && (sock.refused <==> n < size)
    ensures sock.sent == old(sock.sent) + if n < 0 then [] else ring.Contents()[..n]
  {
    ghost var bytes := Gather(ring.buf[..], Positions(iov));
    n, again := sock.Send(bytes, size);
    assert bytes == ring.Contents()[..size];
  }

  /**
   * The receiving step both servers share: nothing received or an error is -1,
   * EAGAIN counts as no bytes, and what came in is added to the ring.
   */
  method ReceivePieces(sock: Socket, ring: Buffer, iov: seq<Iovec>, ghost len: nat)
    returns (recv_len: int, ghost data: seq<Byte>)
    requires ring.Valid() && 0 < len < MAX_PKT_SIZE - (ring.recvs - ring.sends)
    requires Positions(iov) == Ring(ring.recvs, len)
    modifies sock`moves, sock`received, sock`drained, ring`p, ring`recvs, ring.buf
    ensures ring.Valid() && recv_len <= len && (sock.drained <==> recv_len < len)
    ensures sock.moves == Later(old(sock.moves))
    ensures recv_len == RecvRet(Now(old(sock.moves)), len) && data == Brought(Now(old(sock.moves)), len)
    ensures recv_len < 0 ==> recv_len == -1 && data == []
    ensures recv_len >= 0 ==> |data| == recv_len
    ensures recv_len < 0 <==> Now(old(sock.moves)) == Error || Now(old(sock.moves)) == Bytes([])
    ensures ring.recvs == old(ring.recvs) + |data|
    ensures sock.received == old(sock.received) + data
    ensures ring.Contents() == old(ring.Contents()) + data
  {
    var again;
    recv_len, again := ReceiveInto(sock, ring, iov, len);
    data := [];
    if recv_len == 0 || (recv_len < 0 && !again) {
      return -1, [];
    }
    if recv_len < 0 {
      recv_len := 0;
    }
    data := Gather(ring.buf[..], Ring(ring.recvs, recv_len));
    ring.AddExist(recv_len);
  }

  /** The sending step: EAGAIN counts as no bytes, any other failure is -1, and what went out leaves the ring. */
  method SendPieces(sock: Socket, ring: Buffer, iov: seq<Iovec>, size: nat)
    returns (send_len: int, ghost data: seq<Byte>)
    requires ring.Valid() && 0 < size <= ring.recvs - ring.sends
    requires Positions(iov) == Ring(ring.sends, size)
    modifies sock`moves, sock`sent, sock`refused, ring`f, ring`sends
    ensures ring.Valid() && send_len <= size && (sock.refused <==> send_len < size)
    ensures sock.moves == Later(old(sock.moves)) && send_len == SendRet(Now(old(sock.moves)), size)
    ensures send_len < 0 ==> send_len == -1 && data == []
    ensures send_len >= 0 ==> |data| == send_len == Taken(Now(old(sock.moves)), size)
    ensures send_len < 0 <==> Now(old(sock.moves)) == Error
    ensures ring.sends == old(ring.sends) + |data|
    ensures sock.sent == old(sock.sent) + data
    ensures old(ring.Contents()) == data + ring.Contents()
  {
    ghost var before := ring.Contents();
    var again;
    send_len, again := SendFrom(sock, ring, iov, size);
    data := [];
    if send_len < 0 && !again {
      return -1, [];
    }
    if send_len < 0 {
      send_len := 0;
    }
    data := before[..send_len];
    ring.AddBlank(send_len);
  }

  /** Total length of the first i pieces. */
  function Before(iov: seq<Iovec>, i: nat): nat
    requires i <= |iov|
  {
    if i == 0 then 0 else Before(iov, i - 1) + iov[i - 1].len
  }

  lemma {:induction false} PositionsAppend(a: seq<Iovec>, v: Iovec)
    ensures Positions(a + [v]) == Positions(a) + Span(v)
  {
    if a == [] {
      PositionsOfOne(v);
      assert a + [v] == [v];
    } else {
      assert (a + [v])[1..] == a[1..] + [v];
      PositionsAppend(a[1..], v);
    }
  }

  lemma {:induction false} BeforeIsLength(iov: seq<Iovec>, i: nat)
    requires i <= |iov|
    ensures Before(iov, i) == |Positions(iov[..i])|
  {
    if i > 0 {
      BeforeIsLength(iov, i - 1);
      assert iov[..i] == iov[..i - 1] + [iov[i - 1]];
      PositionsAppend(iov[..i - 1], iov[i - 1]);
    }
  }

  lemma BeforeAll(iov: seq<Iovec>, start: nat, n: nat)
    requires Positions(iov) == Ring(start, n)
    ensures Before(iov, |iov|) == n
  {
    BeforeIsLength(iov, |iov|);
    assert iov[..|iov|] == iov;
  }

  /** If the pieces are a run of the ring, each piece is the run that follows those before it. */
  lemma {:induction false} PieceFollows(iov: seq<Iovec>, start: nat, n: nat, i: nat)
    requires Positions(iov) == Ring(start, n) && i < |iov|
    ensures Before(iov, i) + iov[i].len <= n == Before(iov, |iov|)
    ensures Positions([iov[i]]) == Ring(start + Before(iov, i), iov[i].len)
    decreases |iov|
  {
    var m := |iov| - 1;
    var front, v := iov[..m], iov[m];
    assert iov == front + [v];
    PositionsAppend(front, v);
    BeforeIsLength(iov, m);
    BeforeIsLength(iov, |iov|);
    assert iov[..|iov|] == iov;
    var a := |Positions(front)|;
    RingSplits(start, a, v.len);
    PositionsOfOne(v);
    assert Positions(front) == Positions(iov)[..a] == Ring(start, a);
    assert Span(v) == Positions(iov)[a..] == Ring(start + a, v.len);
    if i < m {
      PieceFollows(front, start, a, i);
      BeforeOfPrefix(iov, m, i);
      BeforeOfPrefix(iov, m, m);
    }
  }

  lemma {:induction false} BeforeOfPrefix(iov: seq<Iovec>, m: nat, i: nat)
    requires i <= m <= |iov|
    ensures Before(iov[..m], i) == Before(iov, i)
  {
    if i > 0 { BeforeOfPrefix(iov, m, i - 1); }
  }
}
