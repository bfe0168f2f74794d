/**
 * The ring buffer of the echo and response servers: 64 bytes, two counters that
 * wrap at 2^64, and the pieces of memory handed to the kernel.
 */
module RingBuffer {
  import opened Bytes

  const MAX_PKT_SIZE := 64
  const WRAP := 0x1_0000_0000_0000_0000

  /** A piece of the buffer: `base` is the offset from its beginning. */
  datatype Iovec = Iovec(base: nat, len: nat)

  // ---- Positions ---------------------------------------------------------------------

  function Span(v: Iovec): seq<nat> {
    seq(v.len, i requires 0 <= i < v.len => v.base + i)
  }

  /** The offsets an array of pieces stands for, in order. */
  function Positions(iov: seq<Iovec>): seq<nat> {
    if iov == [] then [] else Span(iov[0]) + Positions(iov[1..])
  }

  /** n consecutive positions of the ring from counter value `start` on. */
  function Ring(start: nat, n: nat): seq<nat> {
    seq(n, i requires 0 <= i < n => (start + i) % MAX_PKT_SIZE)
  }

  /** The bytes at the given offsets. */
  function Gather(bytes: seq<Byte>, pos: seq<nat>): seq<Byte>
    requires forall i | 0 <= i < |pos| :: pos[i] < |bytes|
  {
    seq(|pos|, i requires 0 <= i < |pos| => bytes[pos[i]])
  }

  // ---- The pieces ---------------------------------------------------------------------

  /** Where the stored bytes are, by the counters' remainders: one piece, or two if they run over the end. */
  function ExistPieces(mf: nat, mp: nat): seq<Iovec>
    requires mf < MAX_PKT_SIZE && mp < MAX_PKT_SIZE
  {
    if mf <= mp then [Iovec(mf, mp - mf)]
    else if mp == 0 then [Iovec(mf, MAX_PKT_SIZE - mf)]
    else [Iovec(mf, MAX_PKT_SIZE - mf), Iovec(0, mp)]
  }

  /** The free bytes but one, so that a full buffer differs from an empty one. */
  function BlankPieces(mf: nat, mp: nat): seq<Iovec>
    requires mf < MAX_PKT_SIZE && mp < MAX_PKT_SIZE
  {
    if mp < mf then [Iovec(mp, mf - mp - 1)]
    else if mf == 0 then [Iovec(mp, MAX_PKT_SIZE - mp - 1)]
    else if mf == 1 then [Iovec(mp, MAX_PKT_SIZE - mp)]
    else [Iovec(mp, MAX_PKT_SIZE - mp), Iovec(0, mf - 1)]
  }

  function ExistIovec(f: nat, p: nat): seq<Iovec> {
    ExistPieces(f % MAX_PKT_SIZE, p % MAX_PKT_SIZE)
  }

  function BlankIovec(f: nat, p: nat): seq<Iovec> {
    BlankPieces(f % MAX_PKT_SIZE, p % MAX_PKT_SIZE)
  }

  /** The counters as the program holds them. */
  function Wrapped(x: nat): nat {
    x % WRAP
  }

  /** Wrapping does not disturb positions, because 64 divides 2^64. */
  lemma WrapKeepsPosition(x: nat)
    ensures Wrapped(x) % MAX_PKT_SIZE == x % MAX_PKT_SIZE
  {
    assert x == (x / WRAP) * WRAP + Wrapped(x);
    assert WRAP == 0x400_0000_0000_0000 * MAX_PKT_SIZE;
  }

  lemma PositionsOfOne(v: Iovec)
    ensures Positions([v]) == Span(v)
  {
    assert Positions([]) == [];
  }

  lemma PositionsOfTwo(v: Iovec, w: Iovec)
    ensures Positions([v, w]) == Span(v) + Span(w)
  {
    assert [v, w][1..] == [w];
    PositionsOfOne(w);
  }

  /** A run of positions that does not cross the end of the buffer. */
  lemma SpanIsRing(start: nat, n: nat)
    requires start % MAX_PKT_SIZE + n <= MAX_PKT_SIZE
    ensures Span(Iovec(start % MAX_PKT_SIZE, n)) == Ring(start, n)
  {
    forall i | 0 <= i < n ensures Ring(start, n)[i] == start % MAX_PKT_SIZE + i {
    }
  }

  lemma RingSplits(start: nat, a: nat, b: nat)
    ensures Ring(start, a + b) == Ring(start, a) + Ring(start + a, b)
  {
  }

  lemma ExistPiecesTile(f: nat, p: nat)
    requires f <= p < f + MAX_PKT_SIZE
    ensures Positions(ExistPieces(f % MAX_PKT_SIZE, p % MAX_PKT_SIZE)) == Ring(f, p - f)
    ensures f < p ==> forall v | v in ExistPieces(f % MAX_PKT_SIZE, p % MAX_PKT_SIZE) :: v.len > 0
  {
    var mf, mp := f % MAX_PKT_SIZE, p % MAX_PKT_SIZE;
    if mf <= mp {
      assert p - f == mp - mf;
      SpanIsRing(f, p - f);
      PositionsOfOne(Iovec(mf, mp - mf));
    } else {
      var a := MAX_PKT_SIZE - mf;
      assert p - f == a + mp && (f + a) % MAX_PKT_SIZE == 0;
      RingSplits(f, a, mp);
      SpanIsRing(f, a);
      SpanIsRing(f + a, mp);
      PositionsOfOne(Iovec(mf, a));
      PositionsOfTwo(Iovec(mf, a), Iovec(0, mp));
    }
  }

  lemma BlankPiecesTile(f: nat, p: nat)
    requires f <= p < f + MAX_PKT_SIZE
    ensures Positions(BlankPieces(f % MAX_PKT_SIZE, p % MAX_PKT_SIZE)) == Ring(p, MAX_PKT_SIZE - 1 - (p - f))
    ensures p - f < MAX_PKT_SIZE - 1 ==> forall v | v in BlankPieces(f % MAX_PKT_SIZE, p % MAX_PKT_SIZE) :: v.len > 0
  {
    var mf, mp, n := f % MAX_PKT_SIZE, p % MAX_PKT_SIZE, MAX_PKT_SIZE - 1 - (p - f);
    if mp < mf {
      assert n == mf - mp - 1;
      SpanIsRing(p, n);
      PositionsOfOne(Iovec(mp, n));
    } else if mf <= 1 {
      assert n == MAX_PKT_SIZE - mp - 1 + mf;
      SpanIsRing(p, n);
      PositionsOfOne(Iovec(mp, n));
    } else {
      var a := MAX_PKT_SIZE - mp;
      assert n == a + (mf - 1) && (p + a) % MAX_PKT_SIZE == 0;
      RingSplits(p, a, mf - 1);
      SpanIsRing(p, a);
      SpanIsRing(p + a, mf - 1);
      PositionsOfTwo(Iovec(mp, a), Iovec(0, mf - 1));
    }
  }

  /** The stored pieces list exactly the stored bytes, in order; none is empty unless nothing is stored. */
  lemma ExistTiles(f: nat, p: nat)
    requires f <= p < f + MAX_PKT_SIZE
    ensures Positions(ExistIovec(Wrapped(f), Wrapped(p))) == Ring(f, p - f)
    ensures f < p ==> forall v | v in ExistIovec(Wrapped(f), Wrapped(p)) :: v.len > 0
  {
    WrapKeepsPosition(f);
    WrapKeepsPosition(p);
    ExistPiecesTile(f, p);
  }

  /** The free pieces list the bytes behind the stored ones, all but one; none is empty unless the buffer is full. */
  lemma BlankTiles(f: nat, p: nat)
    requires f <= p < f + MAX_PKT_SIZE
    ensures Positions(BlankIovec(Wrapped(f), Wrapped(p))) == Ring(p, MAX_PKT_SIZE - 1 - (p - f))
    ensures p - f < MAX_PKT_SIZE - 1 ==> forall v | v in BlankIovec(Wrapped(f), Wrapped(p)) :: v.len > 0
  {
    WrapKeepsPosition(f);
    WrapKeepsPosition(p);
    BlankPiecesTile(f, p);
  }

  lemma RingDistinct(start: nat, n: nat, i: nat, j: nat)
    requires i < j < n <= MAX_PKT_SIZE
    ensures Ring(start, n)[i] != Ring(start, n)[j]
  {
  }

  /** 63 consecutive positions are all but one. */
  lemma RingCovers(start: nat, x: nat)
    requires x < MAX_PKT_SIZE
    ensures x in Ring(start, MAX_PKT_SIZE - 1) <==> x != (start + MAX_PKT_SIZE - 1) % MAX_PKT_SIZE
  {
    var r, k := Ring(start, MAX_PKT_SIZE - 1), (x - start) % MAX_PKT_SIZE;
    assert (start + k) % MAX_PKT_SIZE == x;
    if k < MAX_PKT_SIZE - 1 {
      assert r[k] == x;
    }
    if x in r {
      var i :| 0 <= i < |r| && r[i] == x;
      assert x == (start + i) % MAX_PKT_SIZE;
    }
  }

  lemma HalvesDisjoint(start: nat, a: nat, b: nat, x: nat)
    requires a + b <= MAX_PKT_SIZE
    ensures !(x in Ring(start, a) && x in Ring(start + a, b))
  {
    if x in Ring(start, a) && x in Ring(start + a, b) {
      var i :| 0 <= i < a && Ring(start, a)[i] == x;
      var j :| 0 <= j < b && Ring(start + a, b)[j] == x;
      RingDistinct(start, a + b, i, a + j);
    }
  }

  /** Stored and free pieces together cover 63 different bytes: exactly one byte of the buffer is in neither. */
  lemma PiecesTileTheRing(f: nat, p: nat, x: nat)
    requires f <= p < f + MAX_PKT_SIZE && x < MAX_PKT_SIZE
    ensures var exist := Positions(ExistIovec(Wrapped(f), Wrapped(p)));
      var blank := Positions(BlankIovec(Wrapped(f), Wrapped(p)));
      && |exist| == p - f && |exist| + |blank| == MAX_PKT_SIZE - 1
      && !(x in exist && x in blank)
      && (x in exist || x in blank <==> x != (f + MAX_PKT_SIZE - 1) % MAX_PKT_SIZE)
  {
    var exist, blank := Positions(ExistIovec(Wrapped(f), Wrapped(p))), Positions(BlankIovec(Wrapped(f), Wrapped(p)));
    var a, b := p - f, MAX_PKT_SIZE - 1 - (p - f);
    assert exist == Ring(f, a) by { ExistTiles(f, p); }
    assert blank == Ring(p, b) by { BlankTiles(f, p); }
    assert Ring(f, MAX_PKT_SIZE - 1) == exist + blank by { RingSplits(f, a, b); }
    RingCovers(f, x);
    HalvesDisjoint(f, a, b, x);
  }

  // ---- The object -----------------------------------------------------------------------

  /** Unsigned 64-bit subtraction. */
  function Sub64(a: nat, b: nat): nat {
    (a - b) % WRAP
  }

  lemma WrapAdds(x: nat, v: nat)
    ensures (Wrapped(x) + v) % WRAP == Wrapped(x + v)
  {
  }

  class Buffer {
    var f: nat
    var p: nat
    const buf: array<Byte>
    ghost var sends: nat      // what f would be if it did not wrap
    ghost var recvs: nat      // what p would be if it did not wrap

    ghost predicate Valid()
      reads this
    {
      && buf.Length == MAX_PKT_SIZE
      && f == Wrapped(sends) && p == Wrapped(recvs)
      && sends <= recvs < sends + MAX_PKT_SIZE
    }

    ghost function Contents(): (c: seq<Byte>)
      reads this, buf
      requires Valid()
      ensures |c| == recvs - sends
    {
      Gather(buf[..], Ring(sends, recvs - sends))
    }

    constructor ()
      ensures Valid() && Contents() == [] && sends == recvs == 0 && fresh(buf)
    {
      f, p := 0, 0;
      sends, recvs := 0, 0;
      buf := new Byte[MAX_PKT_SIZE];
    }

    function GetBlankSize(): (n: int)
      reads this
      requires Valid()
      ensures n == MAX_PKT_SIZE - 1 - (recvs - sends)
    {
      MAX_PKT_SIZE - 1 - Sub64(p, f)
    }

    function GetExistSize(): (n: int)
      reads this
      requires Valid()
      ensures n == recvs - sends
    {
      Sub64(p, f)
    }

    method GetBlankIovec() returns (iov: seq<Iovec>)
      requires Valid()
      ensures iov == BlankIovec(Wrapped(sends), Wrapped(recvs))
      ensures Positions(iov) == Ring(recvs, MAX_PKT_SIZE - 1 - (recvs - sends))
      ensures recvs - sends < MAX_PKT_SIZE - 1 ==> forall v | v in iov :: v.len > 0
    {
      BlankTiles(sends, recvs);
      iov := BlankIovec(f, p);
    }

    method GetExistIovec() returns (iov: seq<Iovec>)
      requires Valid()
      ensures iov == ExistIovec(Wrapped(sends), Wrapped(recvs))
      ensures Positions(iov) == Ring(sends, recvs - sends)
      ensures sends < recvs ==> forall v | v in iov :: v.len > 0
    {
      ExistTiles(sends, recvs);
      iov := ExistIovec(f, p);
    }

    /** Bytes have been sent from the front. */
    method AddBlank(v: nat)
      requires Valid() && v <= recvs - sends
      modifies this`f, this`sends
      ensures Valid() && sends == old(sends) + v
      ensures Contents() == old(Contents())[v..]
    {
      ghost var before := Contents();
      RingSplits(sends, v, recvs - sends - v);
      WrapAdds(sends, v);
      f := (f + v) % WRAP;
      sends := sends + v;
      assert before == Gather(buf[..], Ring(old(sends), v)) + Contents();
    }

    /** Bytes have been received behind the stored ones. */
    method AddExist(v: nat)
      requires Valid() && recvs - sends + v < MAX_PKT_SIZE
      modifies this`p, this`recvs
      ensures Valid() && recvs == old(recvs) + v
      ensures Contents() == old(Contents()) + Gather(buf[..], Ring(old(recvs), v))
    {
      RingSplits(sends, recvs - sends, v);
      WrapAdds(recvs, v);
      p := (p + v) % WRAP;
      recvs := recvs + v;
    }
  }
}
