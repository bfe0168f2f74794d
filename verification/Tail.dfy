/**
 * The tail of a histogram: the greatest recorded value that enough samples reach.
 */
module Tail {

  /** How many samples are at least v. */
  function AtLeast(samples: seq<int>, v: int): nat {
    if samples == [] then 0 else (if samples[0] >= v then 1 else 0) + AtLeast(samples[1..], v)
  }

  /** How often v was recorded. */
  function Times(samples: seq<int>, v: int): nat {
    if samples == [] then 0 else (if samples[0] == v then 1 else 0) + Times(samples[1..], v)
  }

  function Lookup(tails: map<int, int>, v: int): int {
    if v in tails then tails[v] else 0
  }

  /** The histogram holds exactly the samples: each value with its number of occurrences, and no other value. */
  ghost predicate Tallies(tails: map<int, int>, samples: seq<int>) {
    && (forall v :: Lookup(tails, v) == Times(samples, v))
    && (forall v | v in tails :: tails[v] > 0)
  }

  lemma {:induction false} TimesSnoc(samples: seq<int>, x: int, v: int)
    ensures Times(samples + [x], v) == Times(samples, v) + if x == v then 1 else 0
  {
    if samples == [] {
      assert [x][1..] == [];
    } else {
      assert (samples + [x])[1..] == samples[1..] + [x];
      TimesSnoc(samples[1..], x, v);
    }
  }

  /** `tails[x]++`. */
  lemma TalliesSnoc(tails: map<int, int>, samples: seq<int>, x: int)
    requires Tallies(tails, samples)
    ensures Tallies(tails[x := Lookup(tails, x) + 1], samples + [x])
  {
    forall v ensures Lookup(tails[x := Lookup(tails, x) + 1], v) == Times(samples + [x], v) {
      TimesSnoc(samples, x, v);
    }
    assert Lookup(tails, x) >= 0;
  }

  lemma {:induction false} TimesPositive(samples: seq<int>, v: int)
    ensures Times(samples, v) > 0 <==> v in samples
  {
    if samples != [] { TimesPositive(samples[1..], v); }
  }

  lemma {:induction false} AtLeastSplits(samples: seq<int>, a: int, b: int)
    requires a < b && forall x | x in samples :: !(a < x < b)
    ensures AtLeast(samples, a) == Times(samples, a) + AtLeast(samples, b)
  {
    if samples != [] {
      assert samples[0] in samples && forall x | x in samples[1..] :: x in samples;
      AtLeastSplits(samples[1..], a, b);
    }
  }

  lemma {:induction false} AtLeastTop(samples: seq<int>, a: int)
    requires forall x | x in samples :: x <= a
    ensures AtLeast(samples, a) == Times(samples, a)
  {
    if samples != [] {
      assert samples[0] in samples && forall x | x in samples[1..] :: x in samples;
      AtLeastTop(samples[1..], a);
    }
  }

  lemma {:induction false} AtLeastAll(samples: seq<int>, a: int)
    requires forall x | x in samples :: x >= a
    ensures AtLeast(samples, a) == |samples|
  {
    if samples != [] {
      assert samples[0] in samples && forall x | x in samples[1..] :: x in samples;
      AtLeastAll(samples[1..], a);
    }
  }

  lemma {:induction false} AtLeastFalls(samples: seq<int>, a: int, b: int)
    requires a <= b
    ensures AtLeast(samples, b) <= AtLeast(samples, a)
  {
    if samples != [] { AtLeastFalls(samples[1..], a, b); }
  }

  // ---- The scan ---------------------------------------------------------------------------

  predicate Ascending(sorted: seq<(int, int)>) {
    forall i, j | 0 <= i < j < |sorted| :: sorted[i].0 < sorted[j].0
  }

  /** The pairs are the entries for the given keys. */
  ghost predicate EntriesOf(sorted: seq<(int, int)>, tails: map<int, int>, keys: set<int>) {
    && (forall i | 0 <= i < |sorted| :: sorted[i].0 in keys && Lookup(tails, sorted[i].0) == sorted[i].1)
    && (forall v | v in keys :: Listed(sorted, v))
  }

  predicate Listed(sorted: seq<(int, int)>, v: int) {
    exists j :: 0 <= j < |sorted| && sorted[j].0 == v
  }

  /** The entries of the map, sorted by value; values are distinct, so counts never decide. */
  method SortedEntries(tails: map<int, int>) returns (sorted: seq<(int, int)>)
    ensures Ascending(sorted) && EntriesOf(sorted, tails, tails.Keys)
  {
    sorted := [];
    var rest: set<int>, done: set<int> := tails.Keys, {};
    while exists v :: v in rest
      invariant Ascending(sorted) && EntriesOf(sorted, tails, done)
      invariant rest <= tails.Keys && done == tails.Keys - rest
      decreases |rest|
    {
      var v :| v in rest;
      sorted := InsertEntry(sorted, v, tails, done);
      rest, done := rest - {v}, done + {v};
    }
    assert done == tails.Keys;
  }

  method InsertEntry(sorted: seq<(int, int)>, v: int, tails: map<int, int>, ghost done: set<int>)
    returns (r: seq<(int, int)>)
    requires Ascending(sorted) && EntriesOf(sorted, tails, done) && v !in done
    ensures Ascending(r) && EntriesOf(r, tails, done + {v})
  {
    var k := 0;
    while k < |sorted| && sorted[k].0 < v
      invariant 0 <= k <= |sorted|
      invariant forall i | 0 <= i < k :: sorted[i].0 < v
    {
      k := k + 1;
    }
    r := Insert(sorted, k, (v, Lookup(tails, v)));
    InsertAscending(sorted, k, (v, Lookup(tails, v)));
    Inserted(sorted, k, v, tails, done);
  }

  function Insert(sorted: seq<(int, int)>, k: nat, e: (int, int)): seq<(int, int)>
    requires k <= |sorted|
  {
    sorted[..k] + [e] + sorted[k..]
  }

  lemma InsertAscending(sorted: seq<(int, int)>, k: nat, e: (int, int))
    requires Ascending(sorted) && k <= |sorted|
    requires forall i | 0 <= i < |sorted| :: if i < k then sorted[i].0 < e.0 else sorted[i].0 > e.0
    ensures Ascending(Insert(sorted, k, e))
  {
    var r := Insert(sorted, k, e);
    forall i, j | 0 <= i < j < |r| ensures r[i].0 < r[j].0 {
      assert r[i] == if i < k then sorted[i] else if i == k then e else sorted[i - 1];
      assert r[j] == if j < k then sorted[j] else if j == k then e else sorted[j - 1];
    }
  }

  lemma InsertListed(sorted: seq<(int, int)>, k: nat, e: (int, int), v: int)
    requires k <= |sorted| && (v == e.0 || Listed(sorted, v))
    ensures Listed(Insert(sorted, k, e), v)
  {
    var r := Insert(sorted, k, e);
    if v == e.0 {
      assert r[k].0 == v;
    } else {
      var j :| 0 <= j < |sorted| && sorted[j].0 == v;
      assert r[if j < k then j else j + 1] == sorted[j];
    }
  }

  lemma Inserted(sorted: seq<(int, int)>, k: nat, v: int, tails: map<int, int>, done: set<int>)
    requires EntriesOf(sorted, tails, done) && k <= |sorted|
    ensures EntriesOf(Insert(sorted, k, (v, Lookup(tails, v))), tails, done + {v})
  {
    forall u | u in done + {v} ensures Listed(Insert(sorted, k, (v, Lookup(tails, v))), u) {
      InsertListed(sorted, k, (v, Lookup(tails, v)), u);
    }
  }

  /** One more entry from the top: the running sum is the number of samples that reach it. */
  lemma ScanStep(sorted: seq<(int, int)>, tails: map<int, int>, samples: seq<int>, i: nat)
    requires Ascending(sorted) && EntriesOf(sorted, tails, tails.Keys) && Tallies(tails, samples) && i < |sorted|
    ensures AtLeast(samples, sorted[i].0)
         == sorted[i].1 + if i + 1 < |sorted| then AtLeast(samples, sorted[i + 1].0) else 0
    ensures sorted[i].0 in samples
  {
    var a := sorted[i].0;
    TimesPositive(samples, a);
    assert Lookup(tails, a) == sorted[i].1;
    forall x | x in samples ensures Listed(sorted, x) {
      SampleListed(sorted, tails, samples, x);
    }
    if i + 1 < |sorted| {
      AtLeastSplits(samples, a, sorted[i + 1].0);
    } else {
      AtLeastTop(samples, a);
    }
  }

  lemma SampleListed(sorted: seq<(int, int)>, tails: map<int, int>, samples: seq<int>, x: int)
    requires EntriesOf(sorted, tails, tails.Keys) && Tallies(tails, samples) && x in samples
    ensures Listed(sorted, x)
  {
    TimesPositive(samples, x);
    assert Lookup(tails, x) > 0;
  }

  /** v is the tail: the greatest sample that at least `tail_num` samples reach, or 0 if there is none. */
  ghost predicate IsTail(samples: seq<int>, tail_num: nat, v: int) {
    if exists x :: x in samples && AtLeast(samples, x) >= tail_num then
      && v in samples && AtLeast(samples, v) >= tail_num
      && forall x | x in samples && x > v :: AtLeast(samples, x) < tail_num
    else
      v == 0
  }

  /** Enough samples, and some at all: the tail exists, so 0 is not returned for want of one. */
  lemma {:induction false} TailExists(samples: seq<int>, tail_num: nat)
    requires samples != []
    ensures (exists x :: x in samples && AtLeast(samples, x) >= tail_num) <==> tail_num <= |samples|
  {
    var low := Least(samples);
    AtLeastAll(samples, low);
    forall x | x in samples ensures AtLeast(samples, x) <= |samples| {
      AtLeastFalls(samples, low, x);
    }
  }

  lemma {:induction false} Least(samples: seq<int>) returns (low: int)
    requires samples != []
    ensures low in samples && forall x | x in samples :: x >= low
  {
    low := samples[0];
    if |samples| > 1 {
      var rest := Least(samples[1..]);
      low := if rest < low then rest else low;
      assert samples == [samples[0]] + samples[1..];
    }
  }

  /** `get_p99`: scan the sorted histogram from the top until enough samples are counted. */
  method GetP99(tails: map<int, int>, tail_num: nat, ghost samples: seq<int>) returns (p99: int)
    requires Tallies(tails, samples)
    ensures IsTail(samples, tail_num, p99)
  {
    var sorted := SortedEntries(tails);
    p99 := 0;
    var n := 0;
    var i := |sorted|;
    while i > 0
      invariant 0 <= i <= |sorted|
      invariant n == if i < |sorted| then AtLeast(samples, sorted[i].0) else 0
      invariant forall j | i <= j < |sorted| :: AtLeast(samples, sorted[j].0) < tail_num
      invariant p99 == 0
    {
      i := i - 1;
      ScanStep(sorted, tails, samples, i);
      n := n + sorted[i].1;
      if n >= tail_num {
        p99 := sorted[i].0;
        forall x | x in samples && x > p99 ensures AtLeast(samples, x) < tail_num {
          SampleListed(sorted, tails, samples, x);
        }
        return;
      }
    }
    forall x | x in samples ensures AtLeast(samples, x) < tail_num {
      SampleListed(sorted, tails, samples, x);
    }
  }
}
