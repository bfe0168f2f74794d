/**
 * The whole RCU hash map: a table of buckets, and what holds over its runs.
 * A run is any interleaving of any number of inserts, removes and lookups.
 */
module RcuMap {
  import opened PeMapSpec
  import opened RcuBucket
  import opened RcuInvariant
  import opened RcuInductive
  import opened RcuTheorems
  import opened RcuWaitFree

  type Table = map<Word, State>

  /** An action in bucket b. */
  datatype Event = Event(b: Word, a: Action)

  /** A table is created with mask + 1 empty buckets. */
  ghost predicate IsInit(t: Table, mask: bv64) {
    && (forall b | b in t :: b.bits <= mask && t[b] == INIT)
    && (forall b: Word | b.bits <= mask :: b in t)
  }

  /** Every call works in the bucket its key hashes to. */
  predicate Fits(e: Event, mask: bv64) {
    match e.a
    case CallInsert(_, k, _) => Index(k, mask) == e.b
    case CallRemove(_, k) => Index(k, mask) == e.b
    case ReadLock(_, k) => Index(k, mask) == e.b
    case _ => true
  }

  ghost predicate Step(t: Table, e: Event, t': Table, mask: bv64) {
    && e.b in t && Fits(e, mask)
    && Enabled(t[e.b], e.a)
    && t' == t[e.b := Next(t[e.b], e.a)]
  }

  datatype Run = Run(states: seq<Table>, events: seq<Event>)

  ghost predicate StepAt(run: Run, mask: bv64, i: nat) {
    && i < |run.events| && i + 1 < |run.states|
    && Step(run.states[i], run.events[i], run.states[i + 1], mask)
  }

  ghost predicate IsRun(run: Run, mask: bv64) {
    && |run.states| == |run.events| + 1
    && IsInit(run.states[0], mask)
    && forall i: nat | i < |run.events| :: StepAt(run, mask, i)
  }

  // ---- Invariant over runs --------------------------------------------------------

  /** The keys whose home is bucket b. */
  function Home(b: Word, mask: bv64): Key -> bool {
    (k: Key) => Index(k, mask) == b
  }

  /** What a writer is called with belongs in its bucket. */
  predicate WriterFits(wr: Writer, home: Key -> bool) {
    match wr
    case Calling(k, _) => home(k)
    case Ready(op) => home(op.key)
    case Walking(op, _, _) => home(op.key)
    case _ => true
  }

  predicate BucketFits(s: State, home: Key -> bool) {
    && (forall e | e in s.entries :: home(s.entries[e].key))
    && (forall w | w in s.writers :: WriterFits(s.writers[w], home))
  }

  ghost predicate BucketOk(t: Table, mask: bv64, b: Word)
    requires b in t
  {
    Inv(t[b]) && BucketFits(t[b], Home(b, mask))
  }

  ghost predicate Complete(bs: set<Word>, mask: bv64) {
    forall b: Word | b.bits <= mask :: b in bs
  }

  ghost predicate TableOk(t: Table, mask: bv64) {
    && Complete(t.Keys, mask)
    && (forall b {:trigger BucketOk(t, mask, b)} | b in t :: BucketOk(t, mask, b))
  }

  predicate CallFits(a: Action, home: Key -> bool) {
    (a.CallInsert? || a.CallRemove?) ==> home(a.key)
  }

  lemma FitsKept(s: State, a: Action, home: Key -> bool)
    requires BucketFits(s, home) && Enabled(s, a) && CallFits(a, home)
    ensures BucketFits(Next(s, a), home)
  {
    var s' := Next(s, a);
    if a.AllocOk? {
      assert WriterFits(s.writers[a.w], home);
    } else {
      assert s'.entries == s.entries;
    }
    forall w | w in s'.writers ensures WriterFits(s'.writers[w], home) {
      if w in s.writers { assert WriterFits(s.writers[w], home); }
    }
  }

  lemma InitOk(t: Table, mask: bv64)
    requires IsInit(t, mask)
    ensures TableOk(t, mask)
  {
    InitInv();
    forall b | b in t ensures BucketOk(t, mask, b) {
    }
  }

  lemma ChangedOk(s: State, e: Event, mask: bv64)
    requires Inv(s) && BucketFits(s, Home(e.b, mask)) && Fits(e, mask) && Enabled(s, e.a)
    ensures Inv(Next(s, e.a)) && BucketFits(Next(s, e.a), Home(e.b, mask))
  {
    NextInv(s, e.a);
    FitsKept(s, e.a, Home(e.b, mask));
  }

  /** A good bucket in the place of another makes a good table. */
  lemma WithBucket(t: Table, mask: bv64, b: Word, s: State)
    requires TableOk(t, mask) && b in t && Inv(s) && BucketFits(s, Home(b, mask))
    ensures TableOk(t[b := s], mask)
  {
    var t' := t[b := s];
    assert t'.Keys == t.Keys;
    forall v | v in t' ensures BucketOk(t', mask, v) {
      if v != b { assert BucketOk(t, mask, v); }
    }
  }

  lemma StepOk(t: Table, e: Event, t': Table, mask: bv64)
    requires TableOk(t, mask) && Step(t, e, t', mask)
    ensures TableOk(t', mask)
  {
    assert BucketOk(t, mask, e.b);
    ChangedOk(t[e.b], e, mask);
    WithBucket(t, mask, e.b, Next(t[e.b], e.a));
  }

  /** The invariant holds in every bucket at every instant of every run. */
  lemma {:induction false} RunOk(run: Run, mask: bv64, i: nat)
    requires IsRun(run, mask) && i < |run.states|
    ensures TableOk(run.states[i], mask)
  {
    if i == 0 {
      InitOk(run.states[0], mask);
    } else {
      RunOk(run, mask, i - 1);
      assert StepAt(run, mask, i - 1);
      StepOk(run.states[i - 1], run.events[i - 1], run.states[i], mask);
    }
  }

  // ---- The abstract map -------------------------------------------------------------

  /** The value the map gives to a key: looked up in the bucket the key hashes to. */
  function ValueOf(t: Table, mask: bv64, k: Key): Option<Value> {
    var b := Index(k, mask);
    if b in t then Lookup(Contents(t[b]), k) else None
  }

  /** Every key of a bucket's map hashes to that bucket: no entry is out of place. */
  lemma EntryInItsBucket(t: Table, mask: bv64, b: Word, k: Key)
    requires TableOk(t, mask) && b in t && k in Contents(t[b])
    ensures Index(k, mask) == b && ValueOf(t, mask, k) == Some(Contents(t[b])[k])
  {
    var s := t[b];
    assert BucketOk(t, mask, b);
    ChainNow(s);
    if AbsentIn(s.entries, Last(s.log), k) {
      MapLacks(s.entries, Last(s.log), k);
    } else {
      var i :| 0 <= i < |Last(s.log)| && HasKey(s.entries, Last(s.log)[i], k);
    }
  }

  /** The key an action is about to set (Some) or unset (None) in the abstract map. */
  datatype Write = NoWrite | Put(k: Key, v: Value) | Drop(k: Key)

  function WriteOf(s: State, a: Action): Write
    requires Enabled(s, a)
  {
    match a
    case AddHead(w) => Put(s.writers[w].op.key, s.writers[w].op.value)
    case Replace(w) => Put(s.writers[w].op.key, s.writers[w].op.value)
    case Delete(w) => Drop(s.writers[w].op.key)
    case _ => NoWrite
  }

  /** The value of k after a write, given its value before. */
  function After(wr: Write, k: Key, before: Option<Value>): Option<Value> {
    match wr
    case Put(k', v) => if k == k' then Some(v) else before
    case Drop(k') => if k == k' then None else before
    case NoWrite => before
  }

  lemma BucketRefines(s: State, a: Action, k: Key)
    requires Inv(s) && Enabled(s, a)
    ensures Lookup(Contents(Next(s, a)), k) == After(WriteOf(s, a), k, Lookup(Contents(s), k))
  {
    StepRefines(s, a);
  }

  lemma WriteIsHome(s: State, a: Action, home: Key -> bool)
    requires BucketFits(s, home) && Enabled(s, a) && !WriteOf(s, a).NoWrite?
    ensures home(WriteOf(s, a).k)
  {
    assert WriterFits(s.writers[a.w], home);
  }

  lemma LiftWrite(t: Table, b: Word, s': State, mask: bv64, wr: Write, k: Key)
    requires b in t && Lookup(Contents(s'), k) == After(wr, k, Lookup(Contents(t[b]), k))
    requires !wr.NoWrite? ==> Index(wr.k, mask) == b
    ensures ValueOf(t[b := s'], mask, k) == After(wr, k, ValueOf(t, mask, k))
  {
  }

  lemma BucketStep(s: State, e: Event, mask: bv64, k: Key)
    requires Inv(s) && BucketFits(s, Home(e.b, mask)) && Enabled(s, e.a)
    ensures var wr := WriteOf(s, e.a);
      && Lookup(Contents(Next(s, e.a)), k) == After(wr, k, Lookup(Contents(s), k))
      && (!wr.NoWrite? ==> Index(wr.k, mask) == e.b)
  {
    BucketRefines(s, e.a, k);
    if !WriteOf(s, e.a).NoWrite? {
      WriteIsHome(s, e.a, Home(e.b, mask));
    }
  }

  /** The whole table refines one atomic map: a step writes one key or nothing. */
  lemma TableRefines(t: Table, e: Event, t': Table, mask: bv64, k: Key)
    requires TableOk(t, mask) && Step(t, e, t', mask)
    ensures ValueOf(t', mask, k) == After(WriteOf(t[e.b], e.a), k, ValueOf(t, mask, k))
  {
    assert BucketOk(t, mask, e.b);
    BucketStep(t[e.b], e, mask, k);
    LiftWrite(t, e.b, Next(t[e.b], e.a), mask, WriteOf(t[e.b], e.a), k);
  }

  // ---- Lookups are linearizable -----------------------------------------------------

  /** One step of a bucket extends its history by at most one chain and forgets nothing. */
  predicate Extends(s: State, s': State) {
    && |s.log| <= |s'.log|
    && s'.log[..|s.log|] == s.log
    && s.entries.Keys <= s'.entries.Keys
    && (forall e | e in s.entries :: s'.entries[e] == s.entries[e])
  }

  lemma LinkExtends(s: State, a: Action)
    requires Enabled(s, a) && (a.AddHead? || a.Replace? || a.Delete?)
    ensures Next(s, a).entries == s.entries
    ensures |Next(s, a).log| == |s.log| + 1 && Next(s, a).log[..|s.log|] == s.log
  {
  }

  lemma NextExtends(s: State, a: Action)
    requires Enabled(s, a)
    ensures Extends(s, Next(s, a)) && |Next(s, a).log| <= |s.log| + 1
  {
    if a.AddHead? || a.Replace? || a.Delete? {
      LinkExtends(s, a);
    } else {
      QuietKeeps(s, a);
    }
  }

  /** From instant i to instant n the history of bucket b only grows. */
  lemma {:induction false} RunExtends(run: Run, mask: bv64, b: Word, i: nat, n: nat)
    requires IsRun(run, mask) && i <= n < |run.states|
    requires b in run.states[i]
    ensures b in run.states[n] && Extends(run.states[i][b], run.states[n][b])
    decreases n
  {
    if i < n {
      RunExtends(run, mask, b, i, n - 1);
      assert StepAt(run, mask, n - 1);
      if run.events[n - 1].b == b {
        NextExtends(run.states[n - 1][b], run.events[n - 1].a);
        ExtendsTrans(run.states[i][b], run.states[n - 1][b], run.states[n][b]);
      }
    }
  }

  lemma ExtendsTrans(s: State, s1: State, s2: State)
    requires Extends(s, s1) && Extends(s1, s2)
    ensures Extends(s, s2)
  {
    assert s2.log[..|s.log|] == s2.log[..|s1.log|][..|s.log|];
  }

  /** Every chain of the history was the chain now at some instant of the run. */
  lemma {:induction false} InstantOf(run: Run, mask: bv64, b: Word, m: nat, n: nat, t: nat) returns (i: nat)
    requires IsRun(run, mask) && m <= n < |run.states|
    requires b in run.states[m] && b in run.states[n]
    requires run.states[m][b].Now() <= t <= run.states[n][b].Now()
    ensures m <= i <= n && b in run.states[i] && run.states[i][b].Now() == t
    decreases n - m
  {
    if run.states[n][b].Now() == t {
      i := n;
    } else {
      assert m < n;
      RunExtends(run, mask, b, m, n - 1);
      assert StepAt(run, mask, n - 1);
      if run.events[n - 1].b == b {
        NextExtends(run.states[n - 1][b], run.events[n - 1].a);
      }
      i := InstantOf(run, mask, b, m, n - 1, t);
    }
  }

  /** A read section keeps its key and its beginning, and ends once. */
  predicate SameSection(rd: Reader, rd': Reader) {
    rd'.key == rd.key && rd'.start == rd.start && (rd.Finished? ==> rd' == rd)
  }

  lemma SectionStep(s: State, a: Action, r: nat)
    requires Enabled(s, a) && r in s.readers
    ensures r in Next(s, a).readers && SameSection(s.readers[r], Next(s, a).readers[r])
  {
  }

  lemma {:induction false} SectionKept(run: Run, mask: bv64, b: Word, r: nat, m: nat, n: nat)
    requires IsRun(run, mask) && m <= n < |run.states|
    requires b in run.states[m] && r in run.states[m][b].readers
    ensures b in run.states[n] && r in run.states[n][b].readers
    ensures SameSection(run.states[m][b].readers[r], run.states[n][b].readers[r])
    decreases n
  {
    if m < n {
      SectionKept(run, mask, b, r, m, n - 1);
      assert StepAt(run, mask, n - 1);
      if run.events[n - 1].b == b {
        SectionStep(run.states[n - 1][b], run.events[n - 1].a, r);
      }
    }
  }

  /** What held of a past chain held of the map at that instant. */
  lemma ValueThen(s: State, s': State, k: Key, res: Option<Value>)
    requires Inv(s) && Extends(s, s')
    requires Holds(s'.entries, s'.log[s.Now()], k, res)
    ensures Lookup(Contents(s), k) == res
  {
    ChainNow(s);
    var c := Last(s.log);
    assert s'.log[..|s.log|][s.Now()] == c;
    assert forall i | 0 <= i < |c| :: c[i] in s.entries && s'.entries[c[i]] == s.entries[c[i]];
    assert Holds(s.entries, c, k, res);
    HoldsIsLookup(s.entries, c, k, res);
  }

  lemma ResultInstant(s: State, r: nat) returns (t: nat)
    requires Inv(s) && r in s.readers && s.readers[r].Finished?
    ensures var rd := s.readers[r];
      rd.start <= t <= rd.end < |s.log| && Holds(s.entries, s.log[t], rd.key, rd.result)
  {
    var rd := s.readers[r];
    assert ReaderOk(s.entries, s.log, rd);
    t :| rd.start <= t <= rd.end < |s.log| && Holds(s.entries, s.log[t], rd.key, rd.result);
  }

  /** At instant m the section begins with the chain of that instant. */
  lemma SectionStarts(t: Table, e: Event, t': Table, mask: bv64, r: nat, k: Key)
    requires Step(t, e, t', mask) && e == Event(Index(k, mask), ReadLock(r, k))
    ensures e.b in t' && r in t'[e.b].readers && t'[e.b].readers[r] == Entered(k, t'[e.b].Now())
  {
  }

  /** The value at the instant whose chain is number t of the final history. */
  lemma ValueAt(run: Run, mask: bv64, k: Key, i: nat, n: nat, res: Option<Value>)
    requires IsRun(run, mask) && i <= n < |run.states|
    requires Index(k, mask) in run.states[i] && Index(k, mask) in run.states[n]
    requires var si, sn := run.states[i][Index(k, mask)], run.states[n][Index(k, mask)];
      |si.log| <= |sn.log| && Holds(sn.entries, sn.log[si.Now()], k, res)
    ensures ValueOf(run.states[i], mask, k) == res
  {
    var b := Index(k, mask);
    RunOk(run, mask, i);
    assert BucketOk(run.states[i], mask, b);
    RunExtends(run, mask, b, i, n);
    ValueThen(run.states[i][b], run.states[n][b], k, res);
  }

  lemma FinalInstant(run: Run, mask: bv64, b: Word, r: nat, n: nat) returns (t: nat)
    requires IsRun(run, mask) && n < |run.states|
    requires b in run.states[n] && r in run.states[n][b].readers && run.states[n][b].readers[r].Finished?
    ensures var s := run.states[n][b]; var rd := s.readers[r];
      rd.start <= t <= s.Now() && Holds(s.entries, s.log[t], rd.key, rd.result)
  {
    RunOk(run, mask, n);
    assert BucketOk(run.states[n], mask, b);
    t := ResultInstant(run.states[n][b], r);
  }

  /**
   * Linearizability of the lock-free lookup.  Whatever a lookup returns, there is
   * an instant between its rcu_read_lock (event m) and its end (state n) at
   * which the map gave its key exactly that value, or did not have the key.
   */
  lemma LookupLinearizable(run: Run, mask: bv64, r: nat, k: Key, m: nat, n: nat)
    requires IsRun(run, mask) && m < n < |run.states|
    requires run.events[m] == Event(Index(k, mask), ReadLock(r, k))
    requires var b := Index(k, mask);
      b in run.states[n] && r in run.states[n][b].readers && run.states[n][b].readers[r].Finished?
    ensures exists i ::
      m < i <= n && ValueOf(run.states[i], mask, k) == run.states[n][Index(k, mask)].readers[r].result
  {
    var b := Index(k, mask);
    assert StepAt(run, mask, m);
    SectionStarts(run.states[m], run.events[m], run.states[m + 1], mask, r, k);
    SectionKept(run, mask, b, r, m + 1, n);
    var t := FinalInstant(run, mask, b, r, n);
    var i := InstantOf(run, mask, b, m + 1, n, t);
    ValueAt(run, mask, k, i, n, run.states[n][b].readers[r].result);
  }

  /** A key that is in the map throughout a lookup is never missed, however often its value changes. */
  lemma NeverMissed(run: Run, mask: bv64, r: nat, k: Key, m: nat, n: nat)
    requires IsRun(run, mask) && m < n < |run.states|
    requires run.events[m] == Event(Index(k, mask), ReadLock(r, k))
    requires var b := Index(k, mask);
      b in run.states[n] && r in run.states[n][b].readers && run.states[n][b].readers[r].Finished?
    requires forall i | m < i <= n :: ValueOf(run.states[i], mask, k).Some?
    ensures run.states[n][Index(k, mask)].readers[r].result.Some?
  {
    LookupLinearizable(run, mask, r, k, m, n);
  }

  /** A key that keeps one value throughout a lookup is found with that value. */
  lemma FoundUnchanged(run: Run, mask: bv64, r: nat, k: Key, v: Value, m: nat, n: nat)
    requires IsRun(run, mask) && m < n < |run.states|
    requires run.events[m] == Event(Index(k, mask), ReadLock(r, k))
    requires var b := Index(k, mask);
      b in run.states[n] && r in run.states[n][b].readers && run.states[n][b].readers[r].Finished?
    requires forall i | m < i <= n :: ValueOf(run.states[i], mask, k) == Some(v)
    ensures run.states[n][Index(k, mask)].readers[r].result == Some(v)
  {
    LookupLinearizable(run, mask, r, k, m, n);
  }

  // ---- Lookups are wait-free ------------------------------------------------------------

  /** How many loads of a next link reader r makes in bucket b from state i to state n. */
  function Loads(events: seq<Event>, b: Word, r: nat, i: nat, n: nat): nat
    requires i <= n <= |events|
    decreases n - i
  {
    if i == n then 0 else Loads(events, b, r, i, n - 1) + if events[n - 1] == Event(b, ReadNext(r)) then 1 else 0
  }

  lemma AheadInTable(t: Table, e: Event, t': Table, mask: bv64, b: Word, r: nat, n: int)
    requires Step(t, e, t', mask) && b in t && Inv(t[b])
    requires LinksAhead(t[b], r, n) && !t[b].readers[r].Entered?
    ensures b in t' && LinksAhead(t'[b], r, if e == Event(b, ReadNext(r)) then n - 1 else n)
    ensures !t'[b].readers[r].Entered?
  {
    if e.b == b {
      AheadFalls(t[b], e.a, r, n);
    }
  }

  lemma LoadsStep(run: Run, mask: bv64, b: Word, r: nat, k: nat, left: int)
    requires IsRun(run, mask) && k + 1 < |run.states|
    requires b in run.states[k] && LinksAhead(run.states[k][b], r, left) && !run.states[k][b].readers[r].Entered?
    ensures b in run.states[k + 1]
    ensures LinksAhead(run.states[k + 1][b], r, if run.events[k] == Event(b, ReadNext(r)) then left - 1 else left)
    ensures !run.states[k + 1][b].readers[r].Entered?
  {
    RunOk(run, mask, k);
    assert StepAt(run, mask, k) && BucketOk(run.states[k], mask, b);
    AheadInTable(run.states[k], run.events[k], run.states[k + 1], mask, b, r, left);
  }

  lemma {:induction false} LoadsBounded(run: Run, mask: bv64, b: Word, r: nat, m: nat, n: nat, bound: nat)
    requires IsRun(run, mask) && m <= n < |run.states|
    requires b in run.states[m] && LinksAhead(run.states[m][b], r, bound) && !run.states[m][b].readers[r].Entered?
    ensures b in run.states[n] && LinksAhead(run.states[n][b], r, bound - Loads(run.events, b, r, m, n))
    ensures !run.states[n][b].readers[r].Entered?
    decreases n
  {
    if m < n {
      LoadsBounded(run, mask, b, r, m, n - 1, bound);
      LoadsStep(run, mask, b, r, n - 1, bound - Loads(run.events, b, r, m, n - 1));
    }
  }

  lemma AheadIsNatural(s: State, r: nat, n: int)
    requires LinksAhead(s, r, n) && !s.readers[r].Entered?
    ensures n >= 0
  {
    if s.readers[r].Scanning? {
      var p :| IsPath(s.next, s.readers[r].cursor, p) && |p| <= n;
    }
  }

  lemma FirstLoad(run: Run, mask: bv64, b: Word, r: nat, m: nat) returns (size: nat)
    requires IsRun(run, mask) && m + 1 < |run.states|
    requires run.events[m] == Event(b, ReadHead(r))
    ensures b in run.states[m] && size == |Contents(run.states[m][b])|
    ensures b in run.states[m + 1] && LinksAhead(run.states[m + 1][b], r, size)
    ensures !run.states[m + 1][b].readers[r].Entered?
  {
    assert StepAt(run, mask, m);
    RunOk(run, mask, m);
    assert BucketOk(run.states[m], mask, b);
    NumIsSize(run.states[m][b]);
    size := run.states[m][b].num;
    AheadBegins(run.states[m][b], r);
  }

  /**
   * A lookup is wait-free: after it loads the list head it follows at most as
   * many links as the bucket had entries at that moment, however many writers
   * run beside it and for however long.
   */
  lemma LookupWaitFree(run: Run, mask: bv64, b: Word, r: nat, m: nat, n: nat)
    requires IsRun(run, mask) && m < n < |run.states|
    requires run.events[m] == Event(b, ReadHead(r))
    ensures b in run.states[m] && Loads(run.events, b, r, m + 1, n) <= |Contents(run.states[m][b])|
  {
    var size := FirstLoad(run, mask, b, r, m);
    LoadsBounded(run, mask, b, r, m + 1, n, size);
    AheadIsNatural(run.states[n][b], r, size - Loads(run.events, b, r, m + 1, n));
  }
}
