/**
 * The latency ring of the benchmark client: the network thread pushes samples,
 * the main thread drains them block by block into a histogram and reports its tail.
 */
module Latency {
  import opened Tail
  import opened LatencyRuns

  class Total {
    var tails: map<int, int>
    var num: int
    ghost var recorded: seq<int>

    ghost predicate Valid()
      reads this
    {
      Tallies(tails, recorded) && num == |recorded|
    }

    constructor ()
      ensures Valid() && recorded == []
    {
      tails, num, recorded := map[], 0, [];
    }

    method Count(x: int)
      requires Tallies(tails, recorded)
      modifies this`tails, this`recorded
      ensures Tallies(tails, recorded) && recorded == old(recorded) + [x]
    {
      TalliesSnoc(tails, recorded, x);
      tails := tails[x := Lookup(tails, x) + 1];
      recorded := recorded + [x];
    }

    /** The reported tail: the greatest latency that one in a hundred samples reach. */
    method Report() returns (p99: int)
      requires Valid()
      ensures IsTail(recorded, |recorded| / 100, p99)
      ensures recorded != [] ==> p99 in recorded && 100 * (AtLeast(recorded, p99) + 1) > |recorded|
    {
      p99 := GetP99(tails, num / 100, recorded);
      if recorded != [] {
        TailExists(recorded, num / 100);
      }
    }
  }

  lemma SlotsApart(i: nat, p: nat)
    requires p - SIZE < i < p
    ensures i % SIZE != p % SIZE
  {
  }

  class LatencyTracer {
    const data: array<int>
    var f: nat
    var p: nat
    var coming: seq<seq<int>>     // what the network thread pushes before each step of the main thread
    ghost var samples: seq<int>   // everything pushed so far
    ghost var over: bool          // at some moment more than SIZE samples were undrained

    ghost predicate Valid()
      reads this, data
    {
      && data.Length == SIZE
      && f <= p == |samples|
      && (forall i | 0 <= i < p && p - SIZE <= i :: data[i % SIZE] == samples[i])
      && (over || p - f <= SIZE)
    }

    ghost function View(): Ring
      reads this
    {
      Ring(f, samples, coming, over)
    }

    constructor (coming: seq<seq<int>>)
      ensures Valid() && View() == Ring(0, [], coming, false) && fresh(data)
    {
      data := new int[SIZE];
      f, p := 0, 0;
      this.coming := coming;
      samples, over := [], false;
    }

    method Push(x: int)
      requires Valid()
      modifies this`p, this`samples, this`over, data
      ensures Valid() && samples == old(samples) + [x]
      ensures over <==> old(over) || p - f > SIZE
    {
      forall i | 0 <= i < p && p + 1 - SIZE <= i ensures i % SIZE != p % SIZE { SlotsApart(i, p); }
      data[p % SIZE] := x;
      p := p + 1;
      samples := samples + [x];
      over := over || p - f > SIZE;
    }

    /** The network thread's turn. */
    method Arrivals()
      requires Valid()
      modifies this`p, this`samples, this`over, this`coming, data
      ensures Valid() && View() == Arrive(old(View()))
    {
      if coming != [] {
        var batch, i := coming[0], 0;
        while i < |batch|
          invariant 0 <= i <= |batch| && Valid() && samples == old(samples) + batch[..i]
          invariant coming == old(coming) && (over <==> old(over) || p - f > SIZE)
        {
          Push(batch[i]);
          i := i + 1;
        }
        assert batch[..i] == batch;
        coming := coming[1..];
      }
    }

    /** Take the sample at f, or the last one pushed over it, a whole number of turns later. */
    method Pop() returns (x: int)
      requires Valid() && f < p
      modifies this`f
      ensures Valid() && f == old(f) + 1
      ensures x == SlotOf(samples, old(f))
    {
      LastOverSlot(f, p);
      x := data[f % SIZE];
      f := f + 1;
    }

    /** The network thread's turn, then one sample from the ring into the histogram. */
    method DrainOne(total: Total, ghost r: Ring, ghost before: seq<int>, ghost n: nat)
      requires Valid() && Tallies(total.tails, total.recorded)
      requires Through(r, before, n, View(), total.recorded) && r.f + n + 1 <= |r.samples|
      modifies this, data, total`tails, total`recorded
      ensures Valid() && Tallies(total.tails, total.recorded)
      ensures Through(r, before, n + 1, View(), total.recorded)
    {
      OneMore(r, before, n, View(), total.recorded);
      Arrivals();
      var x := Pop();
      total.Count(x);
    }

    /** Drain one block; the network thread goes on pushing. */
    method DrainBlock(total: Total)
      requires Valid() && Tallies(total.tails, total.recorded) && f + BLOCK <= p
      modifies this, data, total`tails, total`recorded
      ensures Valid() && View() == Taken(old(View()), BLOCK) && f == old(f) + BLOCK
      ensures Tallies(total.tails, total.recorded) && |total.recorded| == |old(total.recorded)| + BLOCK
      ensures total.recorded == old(total.recorded) + Read(old(View()), BLOCK)
    {
      ghost var r, before := View(), total.recorded;
      var i := 0;
      while i < BLOCK
        invariant 0 <= i <= BLOCK && Valid() && Tallies(total.tails, total.recorded)
        invariant Through(r, before, i, View(), total.recorded)
      {
        DrainOne(total, r, before, i);
        i := i + 1;
      }
    }

    /** One pass of the loop below: a block, and the network thread's turn. */
    method DrainNext(total: Total, ghost end: Ring, ghost all: seq<int>, ghost r: Ring) returns (ghost r': Ring)
      requires Valid() && Tallies(total.tails, total.recorded) && Aligned(f) && p - f >= BLOCK
      requires Heading(end, all, r, total.recorded) && View() == Arrive(r)
      modifies this, data, total`tails, total`recorded
      ensures Valid() && Tallies(total.tails, total.recorded)
      ensures Heading(end, all, r', total.recorded) && View() == Arrive(r') && Left(r') < Left(r)
      ensures Aligned(f) && |total.recorded| == |old(total.recorded)| + BLOCK
    {
      NextBlock(end, all, r, total.recorded);
      BlockOn(f);
      r' := Taken(View(), BLOCK);
      DrainBlock(total);
      Arrivals();
    }

    /** The test of the loop below: a block number of p beyond that of f means a whole block. */
    method BlockReady() returns (more: bool)
      requires Aligned(f)
      ensures more <==> p - f >= BLOCK
    {
      BlockTest(p, f);
      more := p / BLOCK - f / BLOCK > 0;
    }

    /** The loop of `report`; `num` counts the samples. */
    method DrainAll(total: Total, ghost end: Ring, ghost all: seq<int>) returns (num: int)
      requires Valid() && Tallies(total.tails, total.recorded) && Aligned(f)
      requires Heading(end, all, View(), total.recorded)
      modifies this, data, total`tails, total`recorded
      ensures Valid() && Tallies(total.tails, total.recorded) && Aligned(f)
      ensures View() == end && total.recorded == all && num == |all| - |old(total.recorded)|
    {
      ghost var r := View();
      num := 0;
      Arrivals();
      var more := BlockReady();
      while more
        invariant more <==> p - f >= BLOCK
        invariant Valid() && Tallies(total.tails, total.recorded) && num == |total.recorded| - |old(total.recorded)|
        invariant Aligned(f) && View() == Arrive(r) && Heading(end, all, r, total.recorded)
        decreases Left(r)
      {
        r := DrainNext(total, end, all, r);
        num := num + BLOCK;
        more := BlockReady();
      }
      NextBlock(end, all, r, total.recorded);
    }

    /** Drain whole blocks until less than one is left. */
    method Report(total: Total)
      requires Valid() && total.Valid() && Aligned(f)
      modifies this, data, total
      ensures Valid() && total.Valid() && Aligned(f)
      ensures View() == Drain(old(View()))
      ensures total.recorded == old(total.recorded) + Drained(old(View()))
    {
      var num := DrainAll(total, Drain(View()), total.recorded + Drained(View()));
      total.num := total.num + num;
    }
  }

  /** p99 is what a report of these samples shows. */
  ghost predicate Shows(recorded: seq<int>, p99: int) {
    IsTail(recorded, |recorded| / 100, p99)
  }

  /** The tracers and their rings are different objects. */
  predicate Apart(tracers: seq<LatencyTracer>) {
    forall i, j | 0 <= i < j < |tracers| :: tracers[i] != tracers[j] && tracers[i].data != tracers[j].data
  }

  /** The tracer stands where the ring says, between two reports. */
  ghost predicate AtRing(tracer: LatencyTracer, r: Ring)
    reads tracer, tracer.data
  {
    tracer.Valid() && Aligned(tracer.f) && tracer.View() == r
  }

  /** Event loops 0 to j have reported, the others not yet. */
  ghost predicate Midway(tracers: seq<LatencyTracer>, rings: seq<Ring>, j: nat)
    requires |rings| == |tracers|
    reads tracers, set t | t in tracers :: t.data
  {
    && (forall i | 0 <= i < |rings| :: rings[i].f <= |rings[i].samples|)
    && (forall i | 0 <= i < |tracers| :: AtRing(tracers[i], if i < j then Drain(rings[i]) else rings[i]))
  }

  /** One event loop reports into the total of the tick. */
  method ReportInto(tracer: LatencyTracer, total: Total, ghost r: Ring)
    requires AtRing(tracer, r) && r.f <= |r.samples| && total.Valid()
    modifies tracer, tracer.data, total
    ensures AtRing(tracer, Drain(r)) && total.Valid()
    ensures total.recorded == old(total.recorded) + Drained(r)
  {
    tracer.Report(total);
  }

  method ReportNext(tracers: seq<LatencyTracer>, total: Total, ghost rings: seq<Ring>, j: nat)
    requires |rings| == |tracers| && Apart(tracers) && j < |tracers| && total.Valid()
    requires Midway(tracers, rings, j)
    modifies tracers[j], tracers[j].data, total
    ensures Midway(tracers, rings, j + 1) && total.Valid()
    ensures total.recorded == old(total.recorded) + Drained(rings[j])
  {
    ReportInto(tracers[j], total, rings[j]);
  }

  /** One tick of the clock: every event loop reports into one total, and that shows its tail. */
  method Tick(tracers: seq<LatencyTracer>, ghost rings: seq<Ring>) returns (p99: int)
    requires |rings| == |tracers| && Apart(tracers) && Midway(tracers, rings, 0)
    modifies tracers, set t | t in tracers :: t.data
    ensures Midway(tracers, rings, |tracers|)
    ensures Shows(AllDrained(rings), p99)
  {
    var total := new Total();
    var j := 0;
    while j < |tracers|
      invariant 0 <= j <= |tracers| && fresh(total) && total.Valid()
      invariant Midway(tracers, rings, j)
      invariant total.recorded == AllDrained(rings[..j])
    {
      ReportNext(tracers, total, rings, j);
      assert rings[..j + 1][..j] == rings[..j];
      j := j + 1;
    }
    assert rings[..j] == rings;
    p99 := total.Report();
  }

  /** When all have reported, the next tick may begin. */
  lemma NextRings(tracers: seq<LatencyTracer>, comings: seq<seq<seq<int>>>, k: nat)
    requires |tracers| == |comings| && Midway(tracers, RingsAt(comings, k), |tracers|)
    ensures Midway(tracers, RingsAt(comings, k + 1), 0)
  {
    forall i | 0 <= i < |tracers| ensures AtRing(tracers[i], RingsAt(comings, k + 1)[i]) {
      assert AtRing(tracers[i], Drain(RingsAt(comings, k)[i]));
      assert RingAt(comings[i], k + 1) == Drain(RingAt(comings[i], k));
    }
  }

  /** The event loops' tracers, before anything is pushed. */
  method NewTracers(comings: seq<seq<seq<int>>>) returns (tracers: seq<LatencyTracer>)
    ensures |tracers| == |comings| && Apart(tracers)
    ensures forall t | t in tracers :: fresh(t) && fresh(t.data)
    ensures Midway(tracers, RingsAt(comings, 0), 0)
  {
    tracers := [];
    while |tracers| < |comings|
      invariant |tracers| <= |comings| && Apart(tracers)
      invariant forall t | t in tracers :: fresh(t) && fresh(t.data)
      invariant forall j | 0 <= j < |tracers| :: AtRing(tracers[j], Ring(0, [], comings[j], false))
    {
      var t := new LatencyTracer(comings[|tracers|]);
      tracers := tracers + [t];
    }
  }

  /** The tracers of all event loops after k ticks. */
  ghost predicate Standing(tracers: seq<LatencyTracer>, comings: seq<seq<seq<int>>>, k: nat)
    reads tracers, set t | t in tracers :: t.data
  {
    |tracers| == |comings| && Midway(tracers, RingsAt(comings, k), 0)
  }

  /** What the program shows at tick k. */
  ghost predicate ShowsAt(comings: seq<seq<seq<int>>>, k: nat, p99: int) {
    Shows(AllDrained(RingsAt(comings, k)), p99)
  }

  method TickAt(tracers: seq<LatencyTracer>, ghost comings: seq<seq<seq<int>>>, ghost k: nat) returns (p99: int)
    requires Apart(tracers) && Standing(tracers, comings, k)
    modifies tracers, set t | t in tracers :: t.data
    ensures Standing(tracers, comings, k + 1)
    ensures ShowsAt(comings, k, p99)
  {
    p99 := Tick(tracers, RingsAt(comings, k));
    NextRings(tracers, comings, k);
  }

  ghost predicate AllShow(comings: seq<seq<seq<int>>>, p99s: seq<int>) {
    forall k | 0 <= k < |p99s| :: ShowsAt(comings, k, p99s[k])
  }

  lemma OneMoreShown(comings: seq<seq<seq<int>>>, p99s: seq<int>, p99: int)
    requires AllShow(comings, p99s) && ShowsAt(comings, |p99s|, p99)
    ensures AllShow(comings, p99s + [p99])
  {
    forall k | 0 <= k < |p99s| + 1 ensures ShowsAt(comings, k, (p99s + [p99])[k]) {
      if k < |p99s| { assert ShowsAt(comings, k, p99s[k]); }
    }
  }

  /** The main loop: `comings` lists, for each event loop, what its thread pushes and when. */
  method Ticking(tracers: seq<LatencyTracer>, comings: seq<seq<seq<int>>>, reports: nat) returns (p99s: seq<int>)
    requires Apart(tracers) && Standing(tracers, comings, 0)
    modifies tracers, set t | t in tracers :: t.data
    ensures |p99s| == reports && AllShow(comings, p99s)
  {
    p99s := [];
    for k := 0 to reports
      invariant |p99s| == k && AllShow(comings, p99s)
      invariant Standing(tracers, comings, k)
    {
      var p99 := TickAt(tracers, comings, k);
      OneMoreShown(comings, p99s, p99);
      p99s := p99s + [p99];
    }
  }

  /** The program: at each tick it shows the tail of what all event loops recorded since the last. */
  method Bench(comings: seq<seq<seq<int>>>, reports: nat) returns (p99s: seq<int>)
    ensures |p99s| == reports && AllShow(comings, p99s)
  {
    var tracers := NewTracers(comings);
    p99s := Ticking(tracers, comings, reports);
  }
}
