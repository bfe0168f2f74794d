/**
 * What the drained part of the latency ring amounts to, as a function of the
 * samples and of when the network thread pushes them.
 */
module LatencyRuns {

  const SIZE := 0x4_0000      // 2^18
  const BLOCK := 256

  /** `coming` lists what the network thread pushes before each step of the main thread, until nothing more comes. */
  datatype Ring = Ring(
    f: nat,
    samples: seq<int>,        // everything pushed so far
    coming: seq<seq<int>>,
    over: bool)               // at some moment more than SIZE samples were undrained

  function Flat(parts: seq<seq<int>>): seq<int> {
    if parts == [] then [] else parts[0] + Flat(parts[1..])
  }

  /** The network thread's turn. */
  function Arrive(r: Ring): Ring {
    if r.coming == [] then r
    else
      var s := r.samples + r.coming[0];
      r.(samples := s, coming := r.coming[1..], over := r.over || |s| - r.f > SIZE)
  }

  /** The last index below p that shares its slot with index f. */
  function LastOver(f: nat, p: nat): (i: nat)
    requires f < p
    ensures f <= i < p && (i == f <==> p - f <= SIZE)
  {
    f + SIZE * ((p - 1 - f) / SIZE)
  }

  lemma LastOverSlot(f: nat, p: nat)
    requires f < p
    ensures p - SIZE <= LastOver(f, p) && LastOver(f, p) % SIZE == f % SIZE
  {
  }

  /** What stands in the slot of index f. */
  function SlotOf(samples: seq<int>, f: nat): int
    requires f < |samples|
  {
    samples[LastOver(f, |samples|)]
  }

  /** The state after n samples have been taken. */
  function Taken(r: Ring, n: nat): (t: Ring)
    requires r.f + n <= |r.samples|
    ensures t.f == r.f + n && |r.samples| <= |t.samples|
    decreases r, n, 0
  {
    if n == 0 then r
    else
      var s := Moment(r, n - 1);
      s.(f := s.f + 1)
  }

  /** The state in which the sample after n others is read. */
  function Moment(r: Ring, n: nat): (s: Ring)
    requires r.f + n <= |r.samples|
    ensures s.f == r.f + n && |r.samples| <= |s.samples|
    decreases r, n, 1
  {
    Arrive(Taken(r, n))
  }

  lemma ArriveKeeps(r: Ring)
    ensures Arrive(r).samples + Flat(Arrive(r).coming) == r.samples + Flat(r.coming)
  {
    if r.coming != [] {
      assert r.samples + (r.coming[0] + Flat(r.coming[1..])) == (r.samples + r.coming[0]) + Flat(r.coming[1..]);
    }
  }

  /** No sample is forgotten on the way, and every one was pushed or is still to come. */
  lemma {:induction false} TakenKeeps(r: Ring, n: nat)
    requires r.f + n <= |r.samples|
    ensures var t := Taken(r, n);
      && r.samples <= t.samples && (r.over ==> t.over)
      && t.samples + Flat(t.coming) == r.samples + Flat(r.coming)
      && |t.samples| + |Flat(t.coming)| == |r.samples| + |Flat(r.coming)|
    decreases n
  {
    if n > 0 {
      TakenKeeps(r, n - 1);
      var t := Taken(r, n - 1);
      ArriveKeeps(t);
      assert |t.samples + Flat(t.coming)| == |Arrive(t).samples + Flat(Arrive(t).coming)|;
    }
  }

  /** The samples taken, as read from the ring. */
  function Read(r: Ring, n: nat): (s: seq<int>)
    requires r.f + n <= |r.samples|
    ensures |s| == n
  {
    if n == 0 then []
    else
      var s := Moment(r, n - 1);
      Read(r, n - 1) + [SlotOf(s.samples, s.f)]
  }

  /** After n samples of a block, with `recorded` before it. */
  predicate Through(r: Ring, recorded: seq<int>, n: nat, now: Ring, all: seq<int>) {
    r.f + n <= |r.samples| && now == Taken(r, n) && all == recorded + Read(r, n)
  }

  lemma OneMore(r: Ring, recorded: seq<int>, n: nat, now: Ring, all: seq<int>)
    requires Through(r, recorded, n, now, all) && r.f + n + 1 <= |r.samples|
    ensures now.f < |now.samples|
    ensures var s := Arrive(now); Through(r, recorded, n + 1, s.(f := s.f + 1), all + [SlotOf(s.samples, s.f)])
  {
    assert Moment(r, n) == Arrive(now);
  }

  /** f is at the beginning of a block. */
  predicate Aligned(f: nat) {
    f == 0 || (f >= BLOCK && Aligned(f - BLOCK))
  }

  lemma BlockOn(f: nat)
    requires Aligned(f)
    ensures Aligned(f + BLOCK)
  {
  }

  lemma {:induction false} AlignedIsMultiple(f: nat)
    requires Aligned(f)
    ensures f % BLOCK == 0
  {
    if f > 0 { AlignedIsMultiple(f - BLOCK); }
  }

  /** With f at the beginning of a block, the test on block numbers asks for a whole block. */
  lemma BlockTest(p: nat, f: nat)
    requires Aligned(f)
    ensures p / BLOCK - f / BLOCK > 0 <==> p - f >= BLOCK
  {
    AlignedIsMultiple(f);
  }

  /** `report`: whole blocks, until less than one is left.  The network thread has its turn before each test. */
  function Drain(r: Ring): (d: Ring)
    requires r.f <= |r.samples|
    ensures d.f <= |d.samples| && |d.samples| - d.f < BLOCK
    ensures d.f >= r.f && r.samples <= d.samples && (r.over ==> d.over)
    ensures |d.samples| + |Flat(d.coming)| == |r.samples| + |Flat(r.coming)|
    decreases |r.samples| + |Flat(r.coming)| - r.f
  {
    var a := Arrive(r);
    if |a.samples| - a.f >= BLOCK then
      TakenKeeps(a, BLOCK);
      Drain(Taken(a, BLOCK))
    else a
  }

  function Drained(r: Ring): (s: seq<int>)
    requires r.f <= |r.samples|
    ensures |s| == Drain(r).f - r.f
    decreases |r.samples| + |Flat(r.coming)| - r.f
  {
    var a := Arrive(r);
    if |a.samples| - a.f >= BLOCK then
      TakenKeeps(a, BLOCK);
      Read(a, BLOCK) + Drained(Taken(a, BLOCK))
    else []
  }

  /** Everything that is still to be drained, at most. */
  function Left(r: Ring): int {
    |r.samples| + |Flat(r.coming)| - r.f
  }

  /** In the middle of a report that will end with `end` and `all`: r is what is left to drain. */
  predicate Heading(end: Ring, all: seq<int>, r: Ring, recorded: seq<int>) {
    r.f <= |r.samples| && Drain(r) == end && recorded + Drained(r) == all
  }

  lemma NextBlock(end: Ring, all: seq<int>, r: Ring, recorded: seq<int>)
    requires Heading(end, all, r, recorded)
    ensures var a := Arrive(r);
      if |a.samples| - a.f >= BLOCK
      then Heading(end, all, Taken(a, BLOCK), recorded + Read(a, BLOCK)) && Left(Taken(a, BLOCK)) < Left(r)
      else end == a && all == recorded
  {
    var a := Arrive(r);
    if |a.samples| - a.f >= BLOCK {
      TakenKeeps(a, BLOCK);
      assert Drained(r) == Read(a, BLOCK) + Drained(Taken(a, BLOCK));
    }
  }

  lemma {:induction false} DrainKeeps(r: Ring)
    requires r.f <= |r.samples|
    ensures Drain(r).samples + Flat(Drain(r).coming) == r.samples + Flat(r.coming)
    decreases |r.samples| + |Flat(r.coming)| - r.f
  {
    var a := Arrive(r);
    ArriveKeeps(r);
    if |a.samples| - a.f >= BLOCK {
      TakenKeeps(a, BLOCK);
      DrainKeeps(Taken(a, BLOCK));
    }
  }

  // ---- When the drained samples are the pushed ones --------------------------------------------

  /** After the network thread's turn the next sample is still the right one. */
  lemma NextExact(t: Ring, s: Ring, f0: nat)
    requires f0 <= t.f < |t.samples| <= |s.samples| && t.samples <= s.samples && s.f == t.f
    requires |s.samples| - t.f <= SIZE
    ensures t.samples[f0..t.f] + [SlotOf(s.samples, s.f)] == s.samples[f0..s.f + 1]
  {
    assert SlotOf(s.samples, s.f) == s.samples[s.f];
    assert s.samples[..|t.samples|] == t.samples;
  }

  lemma {:induction false} ReadExact(r: Ring, n: nat)
    requires r.f + n <= |r.samples| && !Taken(r, n).over && |r.samples| - r.f <= SIZE
    ensures Read(r, n) == Taken(r, n).samples[r.f..r.f + n]
    ensures |Taken(r, n).samples| - (r.f + n) <= SIZE
  {
    if n > 0 {
      ReadExact(r, n - 1);
      NextExact(Taken(r, n - 1), Moment(r, n - 1), r.f);
    }
  }

  lemma Join(t: seq<int>, s: seq<int>, i: nat, j: nat, k: nat)
    requires t <= s && i <= j <= |t| && j <= k <= |s|
    ensures t[i..j] + s[j..k] == s[i..k]
  {
  }

  /** Each sample read is the last one pushed into its slot at that moment. */
  lemma {:induction false} ReadAt(r: Ring, n: nat, i: nat)
    requires r.f + n <= |r.samples| && i < n
    ensures Read(r, n)[i] == SlotOf(Moment(r, i).samples, r.f + i)
  {
    if i < n - 1 { ReadAt(r, n - 1, i); }
  }

  lemma FirstRead(a: Ring)
    requires a.f + BLOCK <= |a.samples| && a.coming == []
    ensures Read(a, BLOCK)[0] == SlotOf(a.samples, a.f)
  {
    ReadAt(a, BLOCK, 0);
  }

  /** An overrun does lose samples: pushed into an empty ring at one go, the first of too many is never seen. */
  lemma FirstLost(s: seq<int>)
    requires |s| > SIZE
    ensures var r := Ring(0, [], [s], false);
      Drain(r).over && |Drained(r)| > 0 && Drained(r)[0] == s[LastOver(0, |s|)] && LastOver(0, |s|) != 0
  {
    var r := Ring(0, [], [s], false);
    var a := Arrive(r);
    assert a.samples == s && a.coming == [] && a.over;
    FirstRead(a);
    TakenKeeps(a, BLOCK);
    assert Drain(r) == Drain(Taken(a, BLOCK));
    assert Drained(r) == Read(a, BLOCK) + Drained(Taken(a, BLOCK));
  }

  /**
   * If the ring is never overrun, exactly the samples from the old f to the new
   * f are drained, in order.
   */
  lemma {:induction false} DrainedExact(r: Ring)
    requires r.f <= |r.samples|
    requires |r.samples| - r.f <= SIZE && !Drain(r).over
    ensures Drained(r) == Drain(r).samples[r.f..Drain(r).f]
    decreases |r.samples| + |Flat(r.coming)| - r.f
  {
    var a := Arrive(r);
    if |a.samples| - a.f >= BLOCK {
      var t := Taken(a, BLOCK);
      assert Drain(r) == Drain(t) && Drained(r) == Read(a, BLOCK) + Drained(t);
      TakenKeeps(a, BLOCK);
      BlockExact(a, t);
      DrainedExact(t);
      Join(t.samples, Drain(t).samples, a.f, t.f, Drain(t).f);
    }
  }

  lemma BlockExact(a: Ring, t: Ring)
    requires a.f + BLOCK <= |a.samples| && t == Taken(a, BLOCK) && !t.over && |a.samples| - a.f <= SIZE
    ensures Read(a, BLOCK) == t.samples[a.f..t.f] && |t.samples| - t.f <= SIZE
  {
    ReadExact(a, BLOCK);
  }

  // ---- Which samples are drained ------------------------------------------------------------------

  /** The indices of the n samples that Read takes. */
  function Indices(r: Ring, n: nat): (s: seq<nat>)
    requires r.f + n <= |r.samples|
    ensures |s| == n
  {
    if n == 0 then [] else Indices(r, n - 1) + [LastOver(r.f + n - 1, |Moment(r, n - 1).samples|)]
  }

  /** The indices of all samples a report takes. */
  function DrainedAt(r: Ring): (s: seq<nat>)
    requires r.f <= |r.samples|
    ensures |s| == Drain(r).f - r.f
    decreases |r.samples| + |Flat(r.coming)| - r.f
  {
    var a := Arrive(r);
    if |a.samples| - a.f >= BLOCK then
      TakenKeeps(a, BLOCK);
      Indices(a, BLOCK) + DrainedAt(Taken(a, BLOCK))
    else []
  }

  /** Each index is where it belongs: f and those that follow it. */
  predicate InPlace(s: seq<nat>, f: nat) {
    forall i | 0 <= i < |s| :: s[i] == f + i
  }

  lemma InPlaceJoins(s: seq<nat>, t: seq<nat>, f: nat)
    ensures InPlace(s + t, f) <==> InPlace(s, f) && InPlace(t, f + |s|)
  {
    if InPlace(s + t, f) {
      forall i | 0 <= i < |s| ensures s[i] == f + i { assert (s + t)[i] == s[i]; }
      forall i | 0 <= i < |t| ensures t[i] == f + |s| + i { assert (s + t)[|s| + i] == t[i]; }
    }
  }

  /** At this moment the flag says exactly that too many samples are undrained. */
  predicate FlagRight(r: Ring) {
    r.over <==> |r.samples| - r.f > SIZE
  }

  lemma NextInPlace(r: Ring, n: nat)
    requires r.f + n < |r.samples| && FlagRight(Taken(r, n))
    ensures var s := Moment(r, n);
      FlagRight(s) && (s.over <==> LastOver(r.f + n, |s.samples|) != r.f + n)
  {
  }

  /** A block is read in place if and only if the ring is not overrun by the time it has been read. */
  lemma {:induction false} BlockInPlace(r: Ring, n: nat)
    requires r.f + n <= |r.samples| && FlagRight(r)
    ensures n > 0 ==> (Taken(r, n).over <==> !InPlace(Indices(r, n), r.f))
    ensures !Taken(r, n).over ==> FlagRight(Taken(r, n))
    ensures n == 0 ==> Taken(r, n) == r
  {
    if n > 0 {
      BlockInPlace(r, n - 1);
      var t, last := Taken(r, n - 1), LastOver(r.f + n - 1, |Moment(r, n - 1).samples|);
      InPlaceJoins(Indices(r, n - 1), [last], r.f);
      assert [last][0] == last && (InPlace([last], r.f + n - 1) <==> last == r.f + n - 1);
      if !t.over || n == 1 {
        NextInPlace(r, n - 1);
      }
    }
  }

  /**
   * Exactly when a report is right: the ring is overrun during it if and only if
   * some sample it took stands at another index than its own.
   */
  lemma {:induction false} OverrunExactly(r: Ring)
    requires r.f <= |r.samples| && !r.over && |r.samples| - r.f <= SIZE
    ensures Drain(r).over <==> !InPlace(DrainedAt(r), r.f)
    decreases |r.samples| + |Flat(r.coming)| - r.f
  {
    var a := Arrive(r);
    if |a.samples| - a.f >= BLOCK {
      var t := Taken(a, BLOCK);
      TakenKeeps(a, BLOCK);
      assert Drain(r) == Drain(t) && DrainedAt(r) == Indices(a, BLOCK) + DrainedAt(t);
      BlockInPlace(a, BLOCK);
      InPlaceJoins(Indices(a, BLOCK), DrainedAt(t), a.f);
      if !t.over {
        OverrunExactly(t);
      }
    }
  }

  /** `got` are the samples pushed at these indices. */
  predicate Found(at: seq<nat>, got: seq<int>, samples: seq<int>) {
    |at| == |got| && forall i | 0 <= i < |at| :: at[i] < |samples| && got[i] == samples[at[i]]
  }

  lemma FoundJoins(at: seq<nat>, got: seq<int>, at2: seq<nat>, got2: seq<int>, samples: seq<int>, longer: seq<int>)
    requires Found(at, got, samples) && Found(at2, got2, longer) && samples <= longer
    ensures Found(at + at2, got + got2, longer)
  {
  }

  /** The step from n samples read to one more. */
  lemma OneMoreRead(r: Ring, n: nat) returns (i: nat, x: int)
    requires r.f + n < |r.samples|
    ensures Indices(r, n + 1) == Indices(r, n) + [i] && Read(r, n + 1) == Read(r, n) + [x]
    ensures Taken(r, n).samples <= Taken(r, n + 1).samples && Found([i], [x], Taken(r, n + 1).samples)
  {
    var s := Moment(r, n);
    i, x := LastOver(r.f + n, |s.samples|), SlotOf(s.samples, s.f);
  }

  /** The first n samples read are those at the indices named. */
  predicate FoundTo(r: Ring, n: nat) {
    r.f + n <= |r.samples| && Found(Indices(r, n), Read(r, n), Taken(r, n).samples)
  }

  lemma OneMoreFound(r: Ring, n: nat)
    requires FoundTo(r, n) && r.f + n < |r.samples|
    ensures FoundTo(r, n + 1)
  {
    var i, x := OneMoreRead(r, n);
    FoundJoins(Indices(r, n), Read(r, n), [i], [x], Taken(r, n).samples, Taken(r, n + 1).samples);
  }

  lemma {:induction false} ReadFrom(r: Ring, n: nat)
    requires r.f + n <= |r.samples|
    ensures FoundTo(r, n)
  {
    if n > 0 {
      ReadFrom(r, n - 1);
      OneMoreFound(r, n - 1);
    }
  }

  lemma DrainSplits(r: Ring)
    requires r.f <= |r.samples|
    ensures var a := Arrive(r);
      if |a.samples| - a.f >= BLOCK then
        var t := Taken(a, BLOCK);
        && Left(t) < Left(r) && Drain(r) == Drain(t) && t.samples <= Drain(t).samples
        && Drained(r) == Read(a, BLOCK) + Drained(t) && DrainedAt(r) == Indices(a, BLOCK) + DrainedAt(t)
      else Drained(r) == [] && DrainedAt(r) == []
  {
    var a := Arrive(r);
    ArriveKeeps(r);
    assert |r.samples + Flat(r.coming)| == |a.samples + Flat(a.coming)|;
    if |a.samples| - a.f >= BLOCK { TakenKeeps(a, BLOCK); }
  }

  /** What is drained are the pushed samples at those indices. */
  lemma {:induction false} DrainedFrom(r: Ring)
    requires r.f <= |r.samples|
    ensures Found(DrainedAt(r), Drained(r), Drain(r).samples)
    decreases Left(r)
  {
    DrainSplits(r);
    var a := Arrive(r);
    if |a.samples| - a.f >= BLOCK {
      var t := Taken(a, BLOCK);
      ReadFrom(a, BLOCK);
      DrainedFrom(t);
      FoundJoins(Indices(a, BLOCK), Read(a, BLOCK), DrainedAt(t), Drained(t), t.samples, Drain(t).samples);
    }
  }

  /** A caller that pushes no more than the ring can hold undrained need not fear an overrun. */
  lemma {:induction false} FewEnough(r: Ring)
    requires r.f <= |r.samples|
    requires !r.over && |r.samples| + |Flat(r.coming)| - r.f <= SIZE
    ensures !Drain(r).over
    decreases |r.samples| + |Flat(r.coming)| - r.f
  {
    var a := Arrive(r);
    if |a.samples| - a.f >= BLOCK {
      TakenFew(a, BLOCK);
      TakenKeeps(a, BLOCK);
      FewEnough(Taken(a, BLOCK));
    }
  }

  lemma {:induction false} TakenFew(r: Ring, n: nat)
    requires r.f + n <= |r.samples|
    requires !r.over && |r.samples| + |Flat(r.coming)| - r.f <= SIZE
    ensures !Taken(r, n).over
  {
    if n > 0 {
      TakenFew(r, n - 1);
      TakenKeeps(r, n - 1);
    }
  }

  // ---- Several reports ---------------------------------------------------------------------------

  datatype Reports = Reports(r: Ring, recorded: seq<seq<int>>)

  /** The ring after n reports, and what each recorded. */
  function Ticks(r: Ring, n: nat): (t: Reports)
    requires r.f <= |r.samples|
    ensures t.r.f <= |t.r.samples| && |t.recorded| == n
    ensures n > 0 ==> |t.r.samples| - t.r.f < BLOCK
  {
    if n == 0 then Reports(r, [])
    else
      var t := Ticks(r, n - 1);
      Reports(Drain(t.r), t.recorded + [Drained(t.r)])
  }

  /** The ring of an event loop after k reports. */
  function RingAt(coming: seq<seq<int>>, k: nat): (r: Ring)
    ensures r.f <= |r.samples|
  {
    Ticks(Ring(0, [], coming, false), k).r
  }

  /** The rings of all event loops after k reports. */
  function RingsAt(comings: seq<seq<seq<int>>>, k: nat): (rs: seq<Ring>)
    ensures |rs| == |comings| && forall j | 0 <= j < |rs| :: rs[j].f <= |rs[j].samples|
  {
    seq(|comings|, j requires 0 <= j < |comings| => RingAt(comings[j], k))
  }

  /** What all event loops drain at one tick, one after the other. */
  function AllDrained(rs: seq<Ring>): seq<int>
    requires forall j | 0 <= j < |rs| :: rs[j].f <= |rs[j].samples|
  {
    if rs == [] then [] else AllDrained(rs[..|rs| - 1]) + Drained(rs[|rs| - 1])
  }

  lemma {:induction false} FlatSnoc(parts: seq<seq<int>>, x: seq<int>)
    ensures Flat(parts + [x]) == Flat(parts) + x
  {
    if parts == [] {
      assert [x][1..] == [] && Flat([]) == [];
    } else {
      assert (parts + [x])[1..] == parts[1..] + [x];
      FlatSnoc(parts[1..], x);
    }
  }

  /**
   * Reports from the beginning on, with pushes in between and during them: if
   * the ring is never overrun, what all of them recorded, put together, is
   * exactly what was pushed, but for less than a block still in the ring.
   */
  lemma {:induction false} TicksExact(coming: seq<seq<int>>, n: nat)
    ensures var t := Ticks(Ring(0, [], coming, false), n);
      && t.r.samples + Flat(t.r.coming) == Flat(coming)
      && |t.r.samples| - t.r.f <= SIZE
      && (!t.r.over ==> Flat(t.recorded) == t.r.samples[..t.r.f])
  {
    var r := Ring(0, [], coming, false);
    if n > 0 {
      TicksExact(coming, n - 1);
      var t := Ticks(r, n - 1);
      DrainKeeps(t.r);
      FlatSnoc(t.recorded, Drained(t.r));
      if !Drain(t.r).over {
        DrainedExact(t.r);
        Join(t.r.samples, Drain(t.r).samples, 0, t.r.f, Drain(t.r).f);
      }
    }
  }
}
