/**
 * Calls come to an end: whoever is inside a call can always make its next step,
 * waiting for nothing but the bucket's lock, and has only boundedly many to make.
 */
module RcuProgress {
  import opened PeMapSpec
  import opened RcuBucket
  import opened RcuInvariant
  import opened RcuTheorems
  import opened RcuWaitFree
  import opened RcuMap
  import opened RcuCalls

  lemma {:induction false} BucketSafe(run: Run, mask: bv64, b: Word, n: nat)
    requires IsRun(run, mask) && n < |run.states| && b in run.states[n]
    ensures Inv(run.states[n][b])
  {
    RunOk(run, mask, n);
    assert BucketOk(run.states[n], mask, b);
  }

  /** One step of a run, seen from a bucket. */
  lemma {:induction false} BucketMoves(run: Run, mask: bv64, b: Word, n: nat)
    requires IsRun(run, mask) && n + 1 < |run.states| && b in run.states[n]
    ensures b in run.states[n + 1]
    ensures run.events[n].b != b ==> run.states[n + 1][b] == run.states[n][b]
    ensures run.events[n].b == b ==>
      Enabled(run.states[n][b], run.events[n].a) && run.states[n + 1][b] == Next(run.states[n][b], run.events[n].a)
  {
    assert StepAt(run, mask, n);
  }

  // ---- Lookups -----------------------------------------------------------------------------

  /** The actions of a lookup once it is in its read section. */
  predicate ReadsFor(a: Action, r: nat) {
    a == ReadHead(r) || a == ReadNext(r) || a == ReadHit(r) || a == ReadEnd(r)
  }

  predicate CanRead(s: State, r: nat, a: Action) {
    ReadsFor(a, r) && Enabled(s, a)
  }

  /** Which step that is for a reader inside its section. */
  function Upcoming(s: State, r: nat): Action
    requires r in s.readers
  {
    if s.readers[r].Entered? then ReadHead(r)
    else if s.readers[r].Scanning? && s.readers[r].cursor.None? then ReadEnd(r)
    else if ReaderLooksAt(s, r) && KeyAt(s, s.readers[r].cursor.value) != s.readers[r].key then ReadNext(r)
    else ReadHit(r)
  }

  lemma {:induction false} OneReadAtMost(s: State, r: nat, a: Action)
    requires r in s.readers && CanRead(s, r, a)
    ensures !s.readers[r].Finished? && a == Upcoming(s, r)
  {
  }

  lemma {:induction false} OneReadAtLeast(s: State, r: nat)
    requires r in s.readers && !s.readers[r].Finished?
    requires s.readers[r].Scanning? && s.readers[r].cursor.Some? ==> ReaderLooksAt(s, r)
    ensures CanRead(s, r, Upcoming(s, r))
  {
  }

  /** A lookup never waits: in every reachable state it has exactly one step to make, until it has returned. */
  lemma {:induction false} ReaderNeverStuck(s: State, r: nat, a: Action)
    requires Inv(s) && r in s.readers
    ensures CanRead(s, r, a) <==> !s.readers[r].Finished? && a == Upcoming(s, r)
  {
    if s.readers[r].Scanning? && s.readers[r].cursor.Some? { ReaderSafe(s, r); }
    if !s.readers[r].Finished? { OneReadAtLeast(s, r); }
    if CanRead(s, r, a) { OneReadAtMost(s, r, a); }
  }

  /** How many steps reader r makes in bucket b from state i to state n. */
  function Reads(events: seq<Event>, b: Word, r: nat, i: nat, n: nat): nat
    requires i <= n <= |events|
    decreases n - i
  {
    if i == n then 0
    else Reads(events, b, r, i, n - 1) + if events[n - 1].b == b && ReadsFor(events[n - 1].a, r) then 1 else 0
  }

  /** After k steps an unfinished reader has only loaded links. */
  ghost predicate OnlyLoads(run: Run, b: Word, r: nat, m: nat, n: nat) {
    && m <= n < |run.states| && n <= |run.events|
    && b in run.states[n] && r in run.states[n][b].readers
    && !run.states[n][b].readers[r].Entered?
    && Reads(run.events, b, r, m, n) ==
         Loads(run.events, b, r, m, n) + if run.states[n][b].readers[r].Finished? then 1 else 0
  }

  lemma {:induction false} OwnRead(s: State, a: Action, r: nat)
    requires Enabled(s, a) && ReadsFor(a, r)
    ensures r in s.readers && r in Next(s, a).readers
    ensures if s.readers[r].Entered? then a == ReadHead(r) && Next(s, a).readers[r].Scanning?
      else if a == ReadNext(r) then Next(s, a).readers[r].Scanning?
      else Next(s, a).readers[r].Finished?
    ensures !s.readers[r].Finished?
  {
  }

  lemma {:induction false} LinkLeavesReaders(s: State, a: Action)
    requires Enabled(s, a) && (a.AddHead? || a.Replace? || a.Delete?)
    ensures Next(s, a).readers == s.readers
  {
  }

  lemma {:induction false} OtherStep(s: State, a: Action, r: nat)
    requires Enabled(s, a) && r in s.readers && !ReadsFor(a, r)
    ensures r in Next(s, a).readers && Next(s, a).readers[r] == s.readers[r]
  {
    if a.AddHead? || a.Replace? || a.Delete? { LinkLeavesReaders(s, a); }
  }

  lemma OnlyLoadsStep(run: Run, mask: bv64, b: Word, r: nat, m: nat, n: nat)
    requires IsRun(run, mask) && n + 1 < |run.states| && OnlyLoads(run, b, r, m, n)
    ensures OnlyLoads(run, b, r, m, n + 1)
  {
    assert StepAt(run, mask, n);
    if run.events[n].b == b {
      if ReadsFor(run.events[n].a, r) {
        OwnRead(run.states[n][b], run.events[n].a, r);
      } else {
        OtherStep(run.states[n][b], run.events[n].a, r);
      }
    }
  }

  lemma {:induction false} OnlyLoadsKept(run: Run, mask: bv64, b: Word, r: nat, m: nat, n: nat)
    requires IsRun(run, mask) && m <= n < |run.states| && OnlyLoads(run, b, r, m, m)
    ensures OnlyLoads(run, b, r, m, n)
    decreases n
  {
    if m < n {
      OnlyLoadsKept(run, mask, b, r, m, n - 1);
      OnlyLoadsStep(run, mask, b, r, m, n - 1);
    }
  }

  lemma AfterHead(run: Run, mask: bv64, b: Word, r: nat, m: nat)
    requires IsRun(run, mask) && m + 1 < |run.states| && run.events[m] == Event(b, ReadHead(r))
    ensures OnlyLoads(run, b, r, m + 1, m + 1)
  {
    assert StepAt(run, mask, m);
  }

  /**
   * A lookup returns: after the load of the list head it has at most one step
   * more to make than the bucket had entries, whatever writers do, and having
   * made them it has finished.
   */
  lemma {:induction false} LookupReturns(run: Run, mask: bv64, b: Word, r: nat, m: nat, n: nat)
    requires IsRun(run, mask) && m < n < |run.states|
    requires run.events[m] == Event(b, ReadHead(r))
    ensures b in run.states[m] && b in run.states[n] && r in run.states[n][b].readers
    ensures Reads(run.events, b, r, m + 1, n) <= |Contents(run.states[m][b])| + 1
    ensures Reads(run.events, b, r, m + 1, n) == |Contents(run.states[m][b])| + 1 ==>
      run.states[n][b].readers[r].Finished?
  {
    LookupWaitFree(run, mask, b, r, m, n);
    AfterHead(run, mask, b, r, m);
    OnlyLoadsKept(run, mask, b, r, m + 1, n);
  }

  ghost predicate StillEntered(t: Table, b: Word, r: nat) {
    b in t && r in t[b].readers && t[b].readers[r].Entered?
  }

  lemma EnteredStep(run: Run, mask: bv64, b: Word, r: nat, n: nat)
    requires IsRun(run, mask) && n + 1 < |run.states| && StillEntered(run.states[n], b, r)
    ensures if run.events[n].b == b && ReadsFor(run.events[n].a, r) then run.events[n] == Event(b, ReadHead(r))
      else StillEntered(run.states[n + 1], b, r)
  {
    assert StepAt(run, mask, n);
    if run.events[n].b == b {
      if ReadsFor(run.events[n].a, r) {
        OwnRead(run.states[n][b], run.events[n].a, r);
      } else {
        OtherStep(run.states[n][b], run.events[n].a, r);
      }
    }
  }

  /** The first step of a lookup loads the list head. */
  lemma {:induction false} HeadComesFirst(run: Run, mask: bv64, b: Word, r: nat, m: nat, n: nat) returns (h: nat)
    requires IsRun(run, mask) && m <= n < |run.states| && StillEntered(run.states[m], b, r)
    ensures Reads(run.events, b, r, m, n) == 0 ==> StillEntered(run.states[n], b, r)
    ensures Reads(run.events, b, r, m, n) > 0 ==>
      && m <= h < n && run.events[h] == Event(b, ReadHead(r))
      && Reads(run.events, b, r, m, n) == 1 + Reads(run.events, b, r, h + 1, n)
    decreases n
  {
    h := 0;
    if m < n {
      h := HeadComesFirst(run, mask, b, r, m, n - 1);
      if Reads(run.events, b, r, m, n - 1) == 0 {
        EnteredStep(run, mask, b, r, n - 1);
        h := n - 1;
      }
    }
  }

  /**
   * The same from the call on: a lookup that has made any step loaded the list
   * head at some instant h, makes at most two steps more than there were entries
   * then, and has finished when it has made them.
   */
  lemma {:induction false} CalledLookupReturns(run: Run, mask: bv64, r: nat, k: Key, m: nat, n: nat) returns (h: nat)
    requires IsRun(run, mask) && m < n < |run.states|
    requires run.events[m] == Event(Index(k, mask), ReadLock(r, k))
    ensures var b := Index(k, mask); var steps := Reads(run.events, b, r, m + 1, n);
      steps > 0 ==>
        && m < h < n && b in run.states[h] && steps <= |Contents(run.states[h][b])| + 2
        && b in run.states[n] && r in run.states[n][b].readers
        && (steps == |Contents(run.states[h][b])| + 2 ==> run.states[n][b].readers[r].Finished?)
  {
    var b := Index(k, mask);
    assert StepAt(run, mask, m);
    h := HeadComesFirst(run, mask, b, r, m + 1, n);
    if Reads(run.events, b, r, m + 1, n) > 0 {
      LookupReturns(run, mask, b, r, h, n);
    }
  }

  // ---- Inserts and removes ---------------------------------------------------------------------

  /** The steps of a call after its beginning. */
  predicate WorksFor(a: Action, w: nat) {
    ActsFor(a, w) && !a.CallInsert? && !a.CallRemove?
  }

  predicate CanWork(s: State, w: nat, a: Action) {
    WorksFor(a, w) && Enabled(s, a)
  }

  lemma {:induction false} WalkerNeverStuck(s: State, w: nat)
    requires w in s.writers && s.writers[w].Walking? && (s.writers[w].cur.Some? ==> LooksAt(s, w))
    ensures exists a :: CanWork(s, w, a)
  {
    var op := s.writers[w].op;
    if s.writers[w].cur.None? {
      assert CanWork(s, w, if op.Insert? then AddHead(w) else Miss(w));
    } else if KeyAt(s, s.writers[w].cur.value) != op.key {
      assert CanWork(s, w, Advance(w));
    } else {
      assert CanWork(s, w, if op.Insert? then Replace(w) else Delete(w));
    }
  }

  lemma {:induction false} WorkMeansUnfinished(s: State, w: nat, a: Action)
    requires w in s.writers && CanWork(s, w, a)
    ensures !s.writers[w].Returned? && (s.writers[w].Ready? ==> s.lock == None)
  {
  }

  lemma {:induction false} WorkAtEnds(s: State, w: nat)
    requires w in s.writers && !s.writers[w].Walking? && !s.writers[w].Returned?
    requires s.writers[w].Ready? ==> s.lock == None
    ensures exists a :: CanWork(s, w, a)
  {
    match s.writers[w]
    case Calling(_, _) => assert CanWork(s, w, AllocFail(w));
    case Ready(_) => assert CanWork(s, w, Lock(w));
    case Holding(_, _) => assert CanWork(s, w, Unlock(w));
    case Retiring(gone, _) => assert CanWork(s, w, if gone.Some? then CallRcu(w) else Leave(w));
  }

  /** A call waits for nothing but the lock: otherwise, until it has returned, it can make a step. */
  lemma {:induction false} WriterNeverStuck(s: State, w: nat)
    requires Inv(s) && w in s.writers
    ensures (exists a :: CanWork(s, w, a)) <==>
      !s.writers[w].Returned? && (s.writers[w].Ready? ==> s.lock == None)
  {
    if a :| CanWork(s, w, a) {
      WorkMeansUnfinished(s, w, a);
    } else if s.writers[w].Walking? {
      WriterSafe(s, w);
      WalkerNeverStuck(s, w);
    } else if !s.writers[w].Returned? && (s.writers[w].Ready? ==> s.lock == None) {
      WorkAtEnds(s, w);
    }
  }

  /** Whoever has the lock is a writer that can go on, so the lock is given back in the end. */
  lemma LockHolderWorks(s: State)
    requires Inv(s) && s.lock.Some?
    ensures s.lock.value in s.writers && InCritical(s.writers[s.lock.value])
    ensures exists a :: CanWork(s, s.lock.value, a)
  {
    WriterNeverStuck(s, s.lock.value);
  }

  /** Every finite set of numbers leaves one out. */
  lemma {:induction false} LeftOut(es: set<nat>) returns (e: nat)
    ensures e !in es && forall x | x in es :: x < e
    decreases |es|
  {
    e := 0;
    if exists x :: x in es {
      var x :| x in es;
      e := LeftOut(es - {x});
      e := if x < e then e else x + 1;
      assert forall y | y in es :: y == x || y in es - {x};
    }
  }

  /** Memory may be had or not: an insert that asks for it goes on either way. */
  lemma AllocGoesOn(s: State, w: nat)
    requires w in s.writers && s.writers[w].Calling?
    ensures Enabled(s, AllocFail(w)) && Next(s, AllocFail(w)).writers[w] == Returned(-1)
    ensures exists e :: Enabled(s, AllocOk(w, e)) && Next(s, AllocOk(w, e)).writers[w].Ready?
  {
    var e := LeftOut(s.entries.Keys);
    assert Enabled(s, AllocOk(w, e));
  }

  /** There is no deadlock: while anybody is inside a call, somebody can make a step of a call. */
  lemma SomebodyWorks(s: State)
    requires Inv(s) && !Quiescent(s)
    ensures (exists r, a :: r in s.readers && CanRead(s, r, a)) || (exists w, a :: w in s.writers && CanWork(s, w, a))
  {
    if r :| r in s.readers && !s.readers[r].Finished? {
      ReaderNeverStuck(s, r, Upcoming(s, r));
    } else if s.lock.Some? {
      LockHolderWorks(s);
    } else {
      var w :| w in s.writers && !s.writers[w].Returned?;
      WriterNeverStuck(s, w);
    }
  }

  /** Once it has the lock, a call has at most n steps left. */
  ghost predicate StepsLeft(s: State, w: nat, n: int) {
    && w in s.writers
    && match s.writers[w]
       case Walking(_, _, cur) =>
         exists j: nat :: j <= |Last(s.log)| && cur == At(Last(s.log), j) && |Last(s.log)| - j + 3 <= n
       case Holding(_, _) => 2 <= n
       case Retiring(_, _) => 1 <= n
       case Returned(_) => 0 <= n
       case _ => false
  }

  lemma {:induction false} StepsBegin(s: State, w: nat)
    requires Inv(s) && Enabled(s, Lock(w))
    ensures StepsLeft(Next(s, Lock(w)), w, s.num + 3)
  {
    assert s.head == At(Last(s.log), 0);
  }

  lemma {:induction false} AloneInBucket(s: State, a: Action, w: nat)
    requires LockOk(s.lock, s.writers) && Enabled(s, a) && w in s.writers && s.writers[w].Walking? && !ActsFor(a, w)
    ensures !a.AddHead? && !a.Replace? && !a.Delete?
  {
  }

  /** While a writer walks, nobody else touches the chain. */
  lemma {:induction false} WalkUndisturbed(s: State, a: Action, w: nat)
    requires Inv(s) && Enabled(s, a) && w in s.writers && !ActsFor(a, w)
    ensures w in Next(s, a).writers && Next(s, a).writers[w] == s.writers[w]
    ensures s.writers[w].Walking? ==> Next(s, a).log == s.log
  {
    OthersAside(s, a, w);
    if s.writers[w].Walking? {
      AloneInBucket(s, a, w);
      QuietKeeps(s, a);
    }
  }

  lemma {:induction false} StepsFall(s: State, a: Action, w: nat, n: int)
    requires Inv(s) && Enabled(s, a) && StepsLeft(s, w, n)
    ensures StepsLeft(Next(s, a), w, if WorksFor(a, w) then n - 1 else n)
  {
    if !ActsFor(a, w) {
      WalkUndisturbed(s, a, w);
    } else if a == Advance(w) {
      var c := Last(s.log);
      var j: nat :| j <= |c| && s.writers[w].cur == At(c, j) && |c| - j + 3 <= n;
      assert s.next[c[j]] == At(c, j + 1);
    }
  }

  /** How many steps writer w makes in bucket b from state i to state n. */
  function Works(events: seq<Event>, b: Word, w: nat, i: nat, n: nat): nat
    requires i <= n <= |events|
    decreases n - i
  {
    if i == n then 0
    else Works(events, b, w, i, n - 1) + if events[n - 1].b == b && WorksFor(events[n - 1].a, w) then 1 else 0
  }

  lemma WorksStep(run: Run, mask: bv64, b: Word, w: nat, n: nat, left: int)
    requires IsRun(run, mask) && n + 1 < |run.states|
    requires b in run.states[n] && StepsLeft(run.states[n][b], w, left)
    ensures b in run.states[n + 1]
    ensures StepsLeft(run.states[n + 1][b], w,
                      if run.events[n].b == b && WorksFor(run.events[n].a, w) then left - 1 else left)
  {
    BucketSafe(run, mask, b, n);
    BucketMoves(run, mask, b, n);
    if run.events[n].b == b { StepsFall(run.states[n][b], run.events[n].a, w, left); }
  }

  lemma {:induction false} WorksBounded(run: Run, mask: bv64, b: Word, w: nat, m: nat, n: nat, bound: nat)
    requires IsRun(run, mask) && m <= n < |run.states|
    requires b in run.states[m] && StepsLeft(run.states[m][b], w, bound)
    ensures b in run.states[n] && StepsLeft(run.states[n][b], w, bound - Works(run.events, b, w, m, n))
    decreases n
  {
    if m < n {
      WorksBounded(run, mask, b, w, m, n - 1, bound);
      WorksStep(run, mask, b, w, n - 1, bound - Works(run.events, b, w, m, n - 1));
    }
  }

  lemma LockTaken(run: Run, mask: bv64, b: Word, w: nat, m: nat) returns (size: nat)
    requires IsRun(run, mask) && m + 1 < |run.states| && run.events[m] == Event(b, Lock(w))
    ensures b in run.states[m] && size == |Contents(run.states[m][b])|
    ensures b in run.states[m + 1] && StepsLeft(run.states[m + 1][b], w, size + 3)
  {
    assert StepAt(run, mask, m);
    RunOk(run, mask, m);
    assert BucketOk(run.states[m], mask, b);
    NumIsSize(run.states[m][b]);
    size := run.states[m][b].num;
    StepsBegin(run.states[m][b], w);
  }

  /**
   * A call that has got the lock returns: it has at most three steps more to make
   * than the bucket had entries then (one for each entry passed, one to change or
   * miss, the unlock, and the hand-over to call_rcu), and has returned when it has made them.
   */
  lemma {:induction false} CallReturns(run: Run, mask: bv64, b: Word, w: nat, m: nat, n: nat)
    requires IsRun(run, mask) && m < n < |run.states| && run.events[m] == Event(b, Lock(w))
    ensures b in run.states[m] && b in run.states[n] && w in run.states[n][b].writers
    ensures Works(run.events, b, w, m + 1, n) <= |Contents(run.states[m][b])| + 3
    ensures Works(run.events, b, w, m + 1, n) == |Contents(run.states[m][b])| + 3 ==>
      run.states[n][b].writers[w].Returned?
  {
    var size := LockTaken(run, mask, b, w, m);
    WorksBounded(run, mask, b, w, m + 1, n, size + 3);
  }

  // ---- Calls begin -------------------------------------------------------------------------------

  /** A new lookup, insert and remove of key k can begin. */
  ghost predicate Open(s: State, k: Key, v: Value) {
    && (exists r :: Enabled(s, ReadLock(r, k)))
    && (exists w :: Enabled(s, CallInsert(w, k, v)))
    && (exists w :: Enabled(s, CallRemove(w, k)))
  }

  /** Nothing keeps anybody from calling: at every instant of every run, for every key. */
  lemma AnyoneMayCall(run: Run, mask: bv64, n: nat, k: Key, v: Value)
    requires IsRun(run, mask) && n < |run.states|
    ensures Index(k, mask) in run.states[n] && Open(run.states[n][Index(k, mask)], k, v)
  {
    RunOk(run, mask, n);
    IndexInRange(k, mask);
    assert Complete(run.states[n].Keys, mask);
    var s := run.states[n][Index(k, mask)];
    var r := LeftOut(s.readers.Keys);
    var w := LeftOut(s.writers.Keys);
    assert Enabled(s, ReadLock(r, k)) && Enabled(s, CallInsert(w, k, v)) && Enabled(s, CallRemove(w, k));
  }

  // ---- Grace periods ------------------------------------------------------------------------------

  /** Entry e waits for none but these readers, or has been freed. */
  predicate WaitsFor(s: State, e: nat, rs: set<nat>) {
    e in s.status && (s.status[e].Freed? || (s.status[e].Queued? && s.status[e].waiting <= rs))
  }

  lemma {:induction false} WaitsOnLink(s: State, a: Action, e: nat, rs: set<nat>)
    requires Enabled(s, a) && AtStage(s, a) && WaitsFor(s, e, rs) && (a.AddHead? || a.Replace? || a.Delete?)
    ensures WaitsFor(Next(s, a), e, rs)
  {
  }

  lemma {:induction false} WaitsOnOther(s: State, a: Action, e: nat, rs: set<nat>)
    requires Enabled(s, a) && AtStage(s, a) && WaitsFor(s, e, rs) && !a.AddHead? && !a.Replace? && !a.Delete?
    ensures WaitsFor(Next(s, a), e, rs)
  {
  }

  lemma {:induction false} WaitsOn(s: State, a: Action, e: nat, rs: set<nat>)
    requires Inv(s) && Enabled(s, a) && WaitsFor(s, e, rs)
    ensures WaitsFor(Next(s, a), e, rs)
  {
    StageExpected(s, a);
    if a.AddHead? || a.Replace? || a.Delete? { WaitsOnLink(s, a, e, rs); } else { WaitsOnOther(s, a, e, rs); }
  }

  lemma WaitsStep(run: Run, mask: bv64, b: Word, e: nat, rs: set<nat>, n: nat)
    requires IsRun(run, mask) && n + 1 < |run.states|
    requires b in run.states[n] && WaitsFor(run.states[n][b], e, rs)
    ensures b in run.states[n + 1] && WaitsFor(run.states[n + 1][b], e, rs)
  {
    BucketSafe(run, mask, b, n);
    BucketMoves(run, mask, b, n);
    if run.events[n].b == b { WaitsOn(run.states[n][b], run.events[n].a, e, rs); }
  }

  lemma {:induction false} WaitsOnInRun(run: Run, mask: bv64, b: Word, e: nat, rs: set<nat>, m: nat, n: nat)
    requires IsRun(run, mask) && m <= n < |run.states|
    requires b in run.states[m] && WaitsFor(run.states[m][b], e, rs)
    ensures b in run.states[n] && WaitsFor(run.states[n][b], e, rs)
    decreases n
  {
    if m < n {
      WaitsOnInRun(run, mask, b, e, rs, m, n - 1);
      WaitsStep(run, mask, b, e, rs, n - 1);
    }
  }

  /** An entry given to call_rcu can be freed once the readers active then have returned; later ones do not matter. */
  lemma {:induction false} GraceEnds(run: Run, mask: bv64, b: Word, w: nat, e: nat, m: nat, n: nat)
    requires IsRun(run, mask) && m < n < |run.states| && run.events[m] == Event(b, CallRcu(w))
    requires b in run.states[m] && w in run.states[m][b].writers && Owned(run.states[m][b].writers[w]) == Some(e)
    requires b in run.states[n] && Active(run.states[m][b]) !! Active(run.states[n][b])
    ensures var s := run.states[n][b]; Enabled(s, Free(e)) || (e in s.status && s.status[e].Freed?)
  {
    assert StepAt(run, mask, m);
    WaitsOnInRun(run, mask, b, e, Active(run.states[m][b]), m + 1, n);
  }
}
