/** What one total of several event loops contains, and all totals together. */
module LatencyTotals {
  import opened Counting
  import opened Tail
  import opened LatencyRuns

  function TimesOf(v: int): seq<int> -> int {
    samples => Times(samples, v)
  }

  lemma {:induction false} TimesJoins(a: seq<int>, b: seq<int>, v: int)
    ensures Times(a + b, v) == Times(a, v) + Times(b, v)
  {
    if a == [] {
      assert a + b == b;
    } else {
      assert (a + b)[1..] == a[1..] + b;
      TimesJoins(a[1..], b, v);
    }
  }

  /** What each event loop drains. */
  function Parts(rs: seq<Ring>): (ps: seq<seq<int>>)
    requires forall j | 0 <= j < |rs| :: rs[j].f <= |rs[j].samples|
    ensures |ps| == |rs|
  {
    seq(|rs|, j requires 0 <= j < |rs| => Drained(rs[j]))
  }

  lemma {:induction false} PartsSnoc(rs: seq<Ring>)
    requires rs != [] && forall j | 0 <= j < |rs| :: rs[j].f <= |rs[j].samples|
    ensures Parts(rs) == Parts(rs[..|rs| - 1]) + [Drained(rs[|rs| - 1])]
  {
  }

  lemma {:induction false} OneMorePart(rs: seq<Ring>, v: int)
    requires rs != [] && forall j | 0 <= j < |rs| :: rs[j].f <= |rs[j].samples|
    ensures var front, last := rs[..|rs| - 1], Drained(rs[|rs| - 1]);
      && Times(AllDrained(rs), v) == Times(AllDrained(front), v) + Times(last, v)
      && Sum(Parts(rs), TimesOf(v)) == Sum(Parts(front), TimesOf(v)) + Times(last, v)
  {
    PartsSnoc(rs);
    TimesJoins(AllDrained(rs[..|rs| - 1]), Drained(rs[|rs| - 1]), v);
    SumSnoc(Parts(rs[..|rs| - 1]), Drained(rs[|rs| - 1]), TimesOf(v));
  }

  /** One tick's total holds every value as often as all event loops together drained it. */
  lemma {:induction false} AllDrainedCounts(rs: seq<Ring>, v: int)
    requires forall j | 0 <= j < |rs| :: rs[j].f <= |rs[j].samples|
    ensures Times(AllDrained(rs), v) == Sum(Parts(rs), TimesOf(v))
  {
    if rs != [] {
      AllDrainedCounts(rs[..|rs| - 1], v);
      OneMorePart(rs, v);
    }
  }

  lemma {:induction false} SumsAdd(a: seq<seq<int>>, b: seq<seq<int>>, c: seq<seq<int>>, v: int)
    requires |a| == |b| == |c| && forall j | 0 <= j < |c| :: c[j] == a[j] + b[j]
    ensures Sum(c, TimesOf(v)) == Sum(a, TimesOf(v)) + Sum(b, TimesOf(v))
  {
    if c != [] {
      var n := |c| - 1;
      SumsAdd(a[..n], b[..n], c[..n], v);
      TimesJoins(a[n], b[n], v);
    }
  }

  // ---- All ticks -------------------------------------------------------------------------------

  /** What is shown at the first n ticks, one after the other. */
  function Shown(comings: seq<seq<seq<int>>>, n: nat): seq<int> {
    if n == 0 then [] else Shown(comings, n - 1) + AllDrained(RingsAt(comings, n - 1))
  }

  /** The samples each event loop has pushed when n ticks are over. */
  function Pushed(comings: seq<seq<seq<int>>>, n: nat): (ps: seq<seq<int>>)
    ensures |ps| == |comings|
  {
    seq(|comings|, j requires 0 <= j < |comings| => RingAt(comings[j], n).samples)
  }

  /** Those of them that are still in the ring. */
  function Remaining(comings: seq<seq<seq<int>>>, n: nat): (ps: seq<seq<int>>)
    ensures |ps| == |comings|
  {
    seq(|comings|, j requires 0 <= j < |comings| => var r := RingAt(comings[j], n); r.samples[r.f..])
  }

  function Gone(comings: seq<seq<seq<int>>>, n: nat): (ps: seq<seq<int>>)
    ensures |ps| == |comings|
  {
    seq(|comings|, j requires 0 <= j < |comings| => var r := RingAt(comings[j], n); r.samples[..r.f])
  }

  /** No event loop's ring has been overrun. */
  predicate NoneOver(comings: seq<seq<seq<int>>>, n: nat) {
    forall j | 0 <= j < |comings| :: !RingAt(comings[j], n).over
  }

  /** One report moves exactly what it drains out of the ring. */
  lemma OneReport(coming: seq<seq<int>>, n: nat)
    requires n > 0 && !RingAt(coming, n).over
    ensures !RingAt(coming, n - 1).over
    ensures var r, r' := RingAt(coming, n - 1), RingAt(coming, n);
      r'.samples[..r'.f] == r.samples[..r.f] + Drained(r)
  {
    var r := RingAt(coming, n - 1);
    TicksExact(coming, n - 1);
    DrainedExact(r);
    Join(r.samples, Drain(r).samples, 0, r.f, Drain(r).f);
  }

  lemma OneTick(comings: seq<seq<seq<int>>>, n: nat, v: int)
    requires n > 0 && NoneOver(comings, n)
    ensures NoneOver(comings, n - 1)
    ensures Sum(Gone(comings, n), TimesOf(v)) ==
      Sum(Gone(comings, n - 1), TimesOf(v)) + Times(AllDrained(RingsAt(comings, n - 1)), v)
  {
    var before := RingsAt(comings, n - 1);
    forall j | 0 <= j < |comings|
      ensures !RingAt(comings[j], n - 1).over
      ensures Gone(comings, n)[j] == Gone(comings, n - 1)[j] + Parts(before)[j]
    {
      OneReport(comings[j], n);
    }
    SumsAdd(Gone(comings, n - 1), Parts(before), Gone(comings, n), v);
    AllDrainedCounts(before, v);
  }

  lemma {:induction false} OneMoreTick(comings: seq<seq<seq<int>>>, n: nat, v: int)
    requires n > 0
    ensures Times(Shown(comings, n), v) ==
      Times(Shown(comings, n - 1), v) + Times(AllDrained(RingsAt(comings, n - 1)), v)
  {
    TimesJoins(Shown(comings, n - 1), AllDrained(RingsAt(comings, n - 1)), v);
  }

  lemma {:induction false} NothingYet(comings: seq<seq<seq<int>>>, v: int)
    ensures Times(Shown(comings, 0), v) == Sum(Gone(comings, 0), TimesOf(v)) == 0
  {
    SumOfConstant(Gone(comings, 0), TimesOf(v), 0);
  }

  ghost predicate ShownSoFar(comings: seq<seq<seq<int>>>, n: nat, v: int) {
    Times(Shown(comings, n), v) == Sum(Gone(comings, n), TimesOf(v))
  }

  lemma {:induction false} ShownFurther(comings: seq<seq<seq<int>>>, n: nat, v: int)
    requires n > 0 && NoneOver(comings, n) && ShownSoFar(comings, n - 1, v)
    ensures ShownSoFar(comings, n, v)
  {
    OneTick(comings, n, v);
    OneMoreTick(comings, n, v);
  }

  lemma {:induction false} ShownIsGone(comings: seq<seq<seq<int>>>, n: nat, v: int)
    requires NoneOver(comings, n)
    ensures ShownSoFar(comings, n, v)
  {
    if n == 0 {
      NothingYet(comings, v);
    } else {
      OneTick(comings, n, v);
      ShownIsGone(comings, n - 1, v);
      ShownFurther(comings, n, v);
    }
  }

  /**
   * Over any number of ticks, if no ring is overrun: every value is shown as
   * often as it was pushed on all event loops together, but for what is still in
   * the rings, which is less than a block for each.
   */
  lemma {:induction false} EverySampleShownOnce(comings: seq<seq<seq<int>>>, n: nat, v: int)
    requires NoneOver(comings, n)
    ensures Times(Shown(comings, n), v) + Sum(Remaining(comings, n), TimesOf(v)) == Sum(Pushed(comings, n), TimesOf(v))
    ensures forall j | 0 <= j < |comings| ::
      && Pushed(comings, n)[j] <= Flat(comings[j])
      && (n > 0 ==> |Remaining(comings, n)[j]| < BLOCK)
  {
    ShownIsGone(comings, n, v);
    SumsAdd(Gone(comings, n), Remaining(comings, n), Pushed(comings, n), v);
    forall j | 0 <= j < |comings| ensures Pushed(comings, n)[j] <= Flat(comings[j]) {
      TicksExact(comings[j], n);
    }
  }
}
