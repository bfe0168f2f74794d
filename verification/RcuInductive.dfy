/** The invariant is inductive: it holds at the start and every action keeps it. */
module RcuInductive {
  import opened PeMapSpec
  import opened RcuBucket
  import opened RcuInvariant
  import opened RcuPreservation

  // ---- Writers' steps that leave the links alone ------------------------------

  /** A writer's private step: it owns what it owned and no memory changes. */
  lemma QuietWriter(s: State, lock': Option<nat>, w: nat, wr: Writer)
    requires Inv(s)
    requires WriterOk(s.entries, s.status, Last(s.log), wr) && LockOk(lock', s.writers[w := wr])
    requires Owned(wr) == if w in s.writers then Owned(s.writers[w]) else None
    ensures Inv(s.(lock := lock', writers := s.writers[w := wr]))
  {
    OwnersMove(s.status, s.status, s.writers, w, wr, Owned(wr), Owned(wr));
  }

  lemma AdvanceInv(s: State, w: nat)
    requires Inv(s) && Enabled(s, Advance(w))
    ensures Inv(Next(s, Advance(w)))
  {
    var wr := s.writers[w];
    var p := WalkPosition(s, w);
    var wr' := Walking(wr.op, wr.cur, s.next[wr.cur.value]);
    assert Positioned(s.entries, Last(s.log), wr.op.key, wr'.prev, wr'.cur, p + 1);
    QuietWriter(s, s.lock, w, wr');
  }

  lemma LockInv(s: State, w: nat)
    requires Inv(s) && Enabled(s, Lock(w))
    ensures Inv(Next(s, Lock(w)))
  {
    var wr' := Walking(s.writers[w].op, None, s.head);
    assert WriterOk(s.entries, s.status, Last(s.log), s.writers[w]);
    assert Positioned(s.entries, Last(s.log), wr'.op.key, None, wr'.cur, 0);
    QuietWriter(s, Some(w), w, wr');
  }

  lemma EnterInv(s: State, a: Action)
    requires Inv(s) && Enabled(s, a) && (a.CallInsert? || a.CallRemove?)
    ensures Inv(Next(s, a))
  {
    QuietWriter(s, s.lock, a.w, if a.CallInsert? then Calling(a.key, a.value) else Ready(Remove(a.key)));
  }

  lemma LeaveInv(s: State, a: Action)
    requires Inv(s) && Enabled(s, a) && (a.AllocFail? || a.Leave?)
    ensures Inv(Next(s, a))
  {
    QuietWriter(s, s.lock, a.w, Returned(if a.AllocFail? then -1 else s.writers[a.w].ret));
  }

  lemma MissOrUnlockInv(s: State, a: Action)
    requires Inv(s) && Enabled(s, a)
    requires a.Miss? || a.Unlock?
    ensures Inv(Next(s, a))
  {
    match a
    case Miss(w) => QuietWriter(s, s.lock, w, Holding(None, -1));
    case Unlock(w) =>
      assert WriterOk(s.entries, s.status, Last(s.log), s.writers[w]);
      QuietWriter(s, None, w, Retiring(s.writers[w].gone, s.writers[w].ret));
  }

  /** A fresh entry is in no chain, so nothing said about chains changes. */
  lemma FreshChain(entries: Entries, entries': Entries, next: Links, c: Chain, e: nat)
    requires GoodChain(entries, next, c) && e !in entries
    requires e in entries' && entries' == entries[e := entries'[e]]
    ensures GoodChain(entries', next, c)
    ensures forall i, k | 0 <= i < |c| :: HasKey(entries', c[i], k) <==> HasKey(entries, c[i], k)
  {
  }

  lemma FreshPast(entries: Entries, entries': Entries, next: Links, log: Log, e: nat)
    requires HistoryOk(entries, next, log) && PastOk(entries, next, log) && e !in entries
    requires e in entries' && entries' == entries[e := entries'[e]]
    ensures HistoryOk(entries', next, log) && PastOk(entries', next, log)
  {
    forall t | 0 <= t < |log| ensures GoodChain(entries', next, log[t]) {
      FreshChain(entries, entries', next, log[t], e);
    }
    forall t | 0 <= t < |log| - 1 ensures KeepsOrder(entries', log[t], log[t + 1]) {
      assert KeepsOrder(entries, log[t], log[t + 1]);
      FreshOrder(entries, entries', next, log[t], log[t + 1], e);
    }
  }

  lemma FreshOrder(entries: Entries, entries': Entries, next: Links, c: Chain, c': Chain, e: nat)
    requires GoodChain(entries, next, c) && GoodChain(entries, next, c') && e !in entries
    requires e in entries' && entries' == entries[e := entries'[e]]
    requires KeepsOrder(entries, c, c')
    ensures KeepsOrder(entries', c, c')
  {
    FreshChain(entries, entries', next, c, e);
    FreshChain(entries, entries', next, c', e);
    forall j, j', k | 0 <= j < |c| && 0 <= j' < |c'| && c[j] == c'[j'] && NoKeyBefore(entries', c, j, k)
      ensures AbsentIn(entries', c, k) || NoKeyBefore(entries', c', j', k)
    {
      assert NoKeyBefore(entries, c, j, k);
    }
  }

  lemma FreshReader(entries: Entries, entries': Entries, next: Links, log: Log, e: nat, rd: Reader)
    requires HistoryOk(entries, next, log) && e !in entries
    requires e in entries' && entries' == entries[e := entries'[e]]
    requires ReaderOk(entries, log, rd)
    ensures ReaderOk(entries', log, rd)
  {
    forall t | 0 <= t < |log|
      ensures forall i, k | 0 <= i < |log[t]| :: HasKey(entries', log[t][i], k) <==> HasKey(entries, log[t][i], k)
    {
      FreshChain(entries, entries', next, log[t], e);
    }
    match rd
    case Entered(_, _) =>
    case Scanning(k, start, cursor) =>
      if AbsentSince(entries, log, k, start) {
        var t :| start <= t < |log| && AbsentIn(entries, log[t], k);
        assert AbsentIn(entries', log[t], k);
      }
      if cursor.Some? {
        var t: nat, j: nat :| Tracked(entries, log, k, start, cursor.value, t, j);
        assert Tracked(entries', log, k, start, cursor.value, t, j);
      }
    case Finished(k, start, end, res) =>
      var t :| start <= t <= end < |log| && Holds(entries, log[t], k, res);
      assert Holds(entries', log[t], k, res);
  }

  lemma FreshReaders(entries: Entries, entries': Entries, next: Links, log: Log, e: nat, readers: map<nat, Reader>)
    requires HistoryOk(entries, next, log) && e !in entries
    requires e in entries' && entries' == entries[e := entries'[e]]
    requires ReadersOk(entries, log, readers)
    ensures ReadersOk(entries', log, readers)
  {
    forall r | r in readers ensures ReaderOk(entries', log, readers[r]) {
      FreshReader(entries, entries', next, log, e, readers[r]);
    }
  }

  lemma FreshWriters(
      entries: Entries, entries': Entries, next: Links, status: map<nat, Status>, status': map<nat, Status>,
      c: Chain, writers: map<nat, Writer>, e: nat)
    requires GoodChain(entries, next, c) && e !in entries && e !in status
    requires e in entries' && entries' == entries[e := entries'[e]]
    requires e in status' && status' == status[e := status'[e]]
    requires WritersOk(entries, status, c, writers)
    ensures WritersOk(entries', status', c, writers)
    ensures forall v | v in writers :: Owned(writers[v]) != Some(e)
  {
    FreshChain(entries, entries', next, c, e);
    forall v | v in writers ensures WriterOk(entries', status', c, writers[v]) && Owned(writers[v]) != Some(e) {
      var wr := writers[v];
      assert WriterOk(entries, status, c, wr);
      if wr.Walking? {
        var p :| Positioned(entries, c, wr.op.key, wr.prev, wr.cur, p);
        assert Positioned(entries', c, wr.op.key, wr.prev, wr.cur, p);
      }
    }
  }

  lemma GraceMove(status: map<nat, Status>, status': map<nat, Status>, log: Log, readers: map<nat, Reader>)
    requires GraceOk(status, log, readers)
    requires forall r, e | r in readers && !readers[r].Finished? && Kept(status, r, e) :: Kept(status', r, e)
    ensures GraceOk(status', log, readers)
  {
    forall r, t, j | r in readers && !readers[r].Finished? && readers[r].start <= t < |log| && 0 <= j < |log[t]|
      ensures Kept(status', r, log[t][j])
    {
      assert Kept(status, r, log[t][j]);
    }
  }

  lemma AllocOkMemory(s: State, w: nat, e: nat)
    requires MemoryOk(s) && Enabled(s, AllocOk(w, e))
    ensures MemoryOk(DoAllocOk(s, w, e))
  {
    FreshPast(s.entries, DoAllocOk(s, w, e).entries, s.next, s.log, e);
    assert GoodChain(s.entries, s.next, s.log[s.Now()]);
  }

  lemma AllocOkInv(s: State, w: nat, e: nat)
    requires Inv(s) && Enabled(s, AllocOk(w, e))
    ensures Inv(DoAllocOk(s, w, e))
  {
    var s', c := DoAllocOk(s, w, e), Last(s.log);
    AllocOkMemory(s, w, e);
    assert GoodChain(s.entries, s.next, s.log[s.Now()]);
    FreshWriters(s.entries, s'.entries, s.next, s.status, s'.status, c, s.writers, e);
    OwnersMove(s.status, s'.status, s.writers, w, s'.writers[w], None, Some(e));
    FreshReaders(s.entries, s'.entries, s.next, s.log, e, s.readers);
    GraceMove(s.status, s'.status, s.log, s.readers);
  }

  // ---- The end of an entry ------------------------------------------------------

  /** An unlinked entry only moves on towards the free list. */
  lemma StatusAfter(entries: Entries, next: Links, status: map<nat, Status>, c: Chain, e: nat, st: Status)
    requires StatusOk(entries, next, status, c)
    requires e in status && (status[e].Retired? || status[e].Queued?) && (st.Queued? || st.Freed?)
    ensures StatusOk(entries, next, status[e := st], c)
  {
  }

  /** The entries that the other writers own keep their status. */
  lemma OthersKeep(
      entries: Entries, status: map<nat, Status>, status': map<nat, Status>, c: Chain,
      writers: map<nat, Writer>, e: nat)
    requires WritersOk(entries, status, c, writers)
    requires e in status && e in status' && status' == status[e := status'[e]]
    ensures forall v | v in writers && Owned(writers[v]) != Some(e) :: WriterOk(entries, status', c, writers[v])
  {
    forall v | v in writers && Owned(writers[v]) != Some(e) ensures WriterOk(entries, status', c, writers[v]) {
      assert WriterOk(entries, status, c, writers[v]);
    }
  }

  lemma CallRcuInv(s: State, w: nat)
    requires Inv(s) && Enabled(s, CallRcu(w))
    ensures Inv(DoCallRcu(s, w))
  {
    var s', c := DoCallRcu(s, w), Last(s.log);
    var e := s.writers[w].gone.value;
    assert WriterOk(s.entries, s.status, c, s.writers[w]);
    StatusAfter(s.entries, s.next, s.status, c, e, Queued(Active(s)));
    OthersKeep(s.entries, s.status, s'.status, c, s.writers, e);
    OwnersMove(s.status, s'.status, s.writers, w, s'.writers[w], Some(e), None);
    GraceMove(s.status, s'.status, s.log, s.readers);
  }

  lemma FreeInv(s: State, e: nat)
    requires Inv(s) && Enabled(s, Free(e))
    ensures Inv(s.(status := s.status[e := Freed]))
  {
    var status', c := s.status[e := Freed], Last(s.log);
    forall v | v in s.writers ensures Owned(s.writers[v]) != Some(e) {
      assert WriterOk(s.entries, s.status, c, s.writers[v]);
    }
    StatusAfter(s.entries, s.next, s.status, c, e, Freed);
    OthersKeep(s.entries, s.status, status', c, s.writers, e);
    assert forall r | r in s.readers && !s.readers[r].Finished? :: r in Active(s);
    GraceMove(s.status, status', s.log, s.readers);
  }

  // ---- Readers --------------------------------------------------------------------

  /** A reader's private step: it reads on within the same section, or ends it. */
  lemma QuietReader(s: State, r: nat, rd: Reader)
    requires Inv(s) && ReaderOk(s.entries, s.log, rd)
    requires r in s.readers && !s.readers[r].Finished? && rd.start == s.readers[r].start
    ensures Inv(s.(readers := s.readers[r := rd]))
  {
  }

  /** A section that begins now can only see the chain of now. */
  lemma SectionBegins(
      entries: Entries, next: Links, status: map<nat, Status>, log: Log, readers: map<nat, Reader>, r: nat, k: Key)
    requires GraceOk(status, log, readers) && StatusOk(entries, next, status, Last(log))
    requires GoodChain(entries, next, Last(log)) && r !in readers
    ensures GraceOk(status, log, readers[r := Entered(k, |log| - 1)])
  {
    var readers' := readers[r := Entered(k, |log| - 1)];
    forall q, t, j | q in readers' && !readers'[q].Finished? && readers'[q].start <= t < |log| && 0 <= j < |log[t]|
      ensures Kept(status, q, log[t][j])
    {
      if q == r {
        assert log[t][j] in Last(log);
      }
    }
  }

  lemma ReadLockInv(s: State, r: nat, k: Key)
    requires Inv(s) && Enabled(s, ReadLock(r, k))
    ensures Inv(SetReader(s, r, Entered(k, s.Now())))
  {
    assert GoodChain(s.entries, s.next, s.log[s.Now()]);
    SectionBegins(s.entries, s.next, s.status, s.log, s.readers, r, k);
  }

  lemma ScanBegins(entries: Entries, next: Links, head: Option<nat>, num: int, log: Log, k: Key, start: nat)
    requires ChainOk(next, head, num, log) && start < |log|
    ensures ReaderOk(entries, log, Scanning(k, start, head))
  {
    var now := |log| - 1;
    if head == None {
      assert AbsentIn(entries, log[now], k);
    } else {
      assert Tracked(entries, log, k, start, head.value, now, 0);
    }
  }

  /**
   * Hindsight: follow a tracked entry forward to the last instant it was in the
   * chain.  Its link is still the one it had then.
   */
  lemma {:induction false} Follow(
      entries: Entries, next: Links, log: Log, k: Key, start: nat, e: nat, t: nat, j: nat)
    returns (u: nat, i: nat)
    requires Tracked(entries, log, k, start, e, t, j)
    requires PastOk(entries, next, log) && LinkedAs(next, Last(log))
    ensures Tracked(entries, log, k, start, e, u, i)
    ensures e in next && next[e] == At(log[u], i + 1)
    decreases |log| - t
  {
    if t == |log| - 1 {
      u, i := t, j;
    } else if e in log[t + 1] {
      var j' :| 0 <= j' < |log[t + 1]| && log[t + 1][j'] == e;
      assert KeepsOrder(entries, log[t], log[t + 1]);
      u, i := Follow(entries, next, log, k, start, e, t + 1, j');
    } else {
      assert log[t][j] in log[t + 1] || FrozenAt(next, Last(log), log[t], j);
      u, i := t, j;
    }
  }

  /** The step of a lookup that did not find its key here. */
  lemma ScanGoesOn(entries: Entries, next: Links, log: Log, k: Key, start: nat, e: nat)
    requires ReaderOk(entries, log, Scanning(k, start, Some(e))) && !HasKey(entries, e, k)
    requires PastOk(entries, next, log) && LinkedAs(next, Last(log))
    ensures e in next && ReaderOk(entries, log, Scanning(k, start, next[e]))
  {
    var t: nat, j: nat :| Tracked(entries, log, k, start, e, t, j);
    var u, i := Follow(entries, next, log, k, start, e, t, j);
    PastThis(entries, log, k, start, e, u, i);
  }

  lemma PastThis(entries: Entries, log: Log, k: Key, start: nat, e: nat, u: nat, i: nat)
    requires Tracked(entries, log, k, start, e, u, i) && !HasKey(entries, e, k)
    ensures ReaderOk(entries, log, Scanning(k, start, At(log[u], i + 1)))
  {
    if i + 1 < |log[u]| {
      assert Tracked(entries, log, k, start, log[u][i + 1], u, i + 1);
    } else if !AbsentSince(entries, log, k, start) {
      assert AbsentIn(entries, log[u], k);
    }
  }

  lemma ScanHits(entries: Entries, log: Log, k: Key, start: nat, e: nat)
    requires ReaderOk(entries, log, Scanning(k, start, Some(e))) && HasKey(entries, e, k)
    ensures ReaderOk(entries, log, Finished(k, start, |log| - 1, Some(entries[e].value)))
  {
    var rd := Scanning(k, start, Some(e));
    assert exists t, j :: Tracked(entries, log, k, start, rd.cursor.value, t, j);
    var t: nat, j: nat :| Tracked(entries, log, k, start, e, t, j);
    assert HasKey(entries, log[t][j], k);
    assert Holds(entries, log[t], k, Some(entries[e].value));
  }

  lemma ScanEnds(entries: Entries, log: Log, k: Key, start: nat)
    requires ReaderOk(entries, log, Scanning(k, start, None))
    ensures ReaderOk(entries, log, Finished(k, start, |log| - 1, None))
  {
    var t :| start <= t < |log| && AbsentIn(entries, log[t], k);
    assert Holds(entries, log[t], k, None);
  }

  lemma ReadHeadInv(s: State, r: nat)
    requires Inv(s) && Enabled(s, ReadHead(r))
    ensures Inv(SetReader(s, r, Scanning(s.readers[r].key, s.readers[r].start, s.head)))
  {
    var rd := s.readers[r];
    assert ReaderOk(s.entries, s.log, rd);
    ScanBegins(s.entries, s.next, s.head, s.num, s.log, rd.key, rd.start);
    QuietReader(s, r, Scanning(rd.key, rd.start, s.head));
  }

  lemma ReadNextInv(s: State, r: nat)
    requires Inv(s) && Enabled(s, ReadNext(r))
    ensures var rd := s.readers[r]; Inv(SetReader(s, r, Scanning(rd.key, rd.start, s.next[rd.cursor.value])))
  {
    var rd := s.readers[r];
    assert ReaderOk(s.entries, s.log, rd);
    ScanGoesOn(s.entries, s.next, s.log, rd.key, rd.start, rd.cursor.value);
    QuietReader(s, r, Scanning(rd.key, rd.start, s.next[rd.cursor.value]));
  }

  lemma ReadHitInv(s: State, r: nat)
    requires Inv(s) && Enabled(s, ReadHit(r))
    ensures var rd := s.readers[r];
      Inv(SetReader(s, r, Finished(rd.key, rd.start, s.Now(), Some(s.entries[rd.cursor.value].value))))
  {
    var rd := s.readers[r];
    assert ReaderOk(s.entries, s.log, rd);
    ScanHits(s.entries, s.log, rd.key, rd.start, rd.cursor.value);
    QuietReader(s, r, Finished(rd.key, rd.start, s.Now(), Some(s.entries[rd.cursor.value].value)));
  }

  lemma ReadEndInv(s: State, r: nat)
    requires Inv(s) && Enabled(s, ReadEnd(r))
    ensures var rd := s.readers[r]; Inv(SetReader(s, r, Finished(rd.key, rd.start, s.Now(), None)))
  {
    var rd := s.readers[r];
    assert ReaderOk(s.entries, s.log, rd);
    ScanEnds(s.entries, s.log, rd.key, rd.start);
    QuietReader(s, r, Finished(rd.key, rd.start, s.Now(), None));
  }

  lemma ReaderMovesInv(s: State, a: Action)
    requires Inv(s) && Enabled(s, a) && (a.ReadHead? || a.ReadNext?)
    ensures Inv(Next(s, a))
  {
    if a.ReadHead? { ReadHeadInv(s, a.r); } else { ReadNextInv(s, a.r); }
  }

  lemma ReaderEndsInv(s: State, a: Action)
    requires Inv(s) && Enabled(s, a) && (a.ReadHit? || a.ReadEnd?)
    ensures Inv(Next(s, a))
  {
    if a.ReadHit? { ReadHitInv(s, a.r); } else { ReadEndInv(s, a.r); }
  }

  lemma LinkInv(s: State, a: Action)
    requires Inv(s) && Enabled(s, a)
    requires a.Replace? || a.AddHead? || a.Delete?
    ensures Inv(Next(s, a))
  {
    if a.Replace? {
      ReplaceInv(s, a.w);
    } else if a.AddHead? {
      AddHeadInv(s, a.w);
    } else {
      DeleteInv(s, a.w);
    }
  }

  lemma MemoryInv(s: State, a: Action)
    requires Inv(s) && Enabled(s, a)
    requires a.AllocOk? || a.CallRcu? || a.Free?
    ensures Inv(Next(s, a))
  {
    if a.AllocOk? {
      AllocOkInv(s, a.w, a.e);
    } else if a.CallRcu? {
      CallRcuInv(s, a.w);
    } else {
      FreeInv(s, a.e);
    }
  }

  /** Main lemma: every action keeps the invariant. */
  lemma NextInv(s: State, a: Action)
    requires Inv(s) && Enabled(s, a)
    ensures Inv(Next(s, a))
  {
    if a.CallInsert? || a.CallRemove? {
      EnterInv(s, a);
    } else if a.AllocFail? || a.Leave? {
      LeaveInv(s, a);
    } else if a.Miss? || a.Unlock? {
      MissOrUnlockInv(s, a);
    } else if a.Lock? {
      LockInv(s, a.w);
    } else if a.Advance? {
      AdvanceInv(s, a.w);
    } else if a.Replace? || a.AddHead? || a.Delete? {
      LinkInv(s, a);
    } else if a.AllocOk? || a.CallRcu? || a.Free? {
      MemoryInv(s, a);
    } else if a.ReadLock? {
      ReadLockInv(s, a.r, a.key);
    } else if a.ReadHead? || a.ReadNext? {
      ReaderMovesInv(s, a);
    } else {
      ReaderEndsInv(s, a);
    }
  }
}
