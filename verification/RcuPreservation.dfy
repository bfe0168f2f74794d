/** The three link updates of an RCU bucket keep the invariant. */
module RcuPreservation {
  import opened PeMapSpec
  import opened RcuBucket
  import opened RcuInvariant

  // ---- The updates on bare links and chains ---------------------------------

  lemma AddHeadOrder(entries: Entries, c: Chain, n: nat)
    requires NoDup(c) && n !in c && n in entries && AbsentIn(entries, c, entries[n].key)
    ensures KeepsOrder(entries, c, [n] + c)
  {
    var c' := [n] + c;
    forall j, j', k | 0 <= j < |c| && 0 <= j' < |c'| && c[j] == c'[j'] && NoKeyBefore(entries, c, j, k)
      ensures AbsentIn(entries, c, k) || NoKeyBefore(entries, c', j', k)
    {
      assert c'[j'] == if j' == 0 then n else c[j' - 1];
      assert j' == j + 1;
      assert forall i | 0 < i < j' :: c'[i] == c[i - 1];
    }
  }

  lemma ReplaceOrder(entries: Entries, c: Chain, p: nat, n: nat)
    requires p < |c| && NoDup(c)
    requires n !in c && n in entries && c[p] in entries && entries[n].key == entries[c[p]].key
    ensures KeepsOrder(entries, c, c[p := n])
  {
    var c' := c[p := n];
    forall j, j', k | 0 <= j < |c| && 0 <= j' < |c'| && c[j] == c'[j'] && NoKeyBefore(entries, c, j, k)
      ensures NoKeyBefore(entries, c', j', k)
    {
      assert j' == j;
      assert forall i | 0 <= i < j' :: HasKey(entries, c'[i], k) ==> HasKey(entries, c[i], k);
    }
  }

  lemma DeleteOrder(entries: Entries, c: Chain, p: nat)
    requires p < |c| && NoDup(c)
    ensures KeepsOrder(entries, c, c[..p] + c[p + 1..])
  {
    var c' := c[..p] + c[p + 1..];
    forall j, j', k | 0 <= j < |c| && 0 <= j' < |c'| && c[j] == c'[j'] && NoKeyBefore(entries, c, j, k)
      ensures NoKeyBefore(entries, c', j', k)
    {
      assert c'[j'] == c[if j' < p then j' else j' + 1];
      assert j == if j' < p then j' else j' + 1;
      assert forall i | 0 <= i < j' :: c'[i] == c[if i < p then i else i + 1];
    }
  }

  /** Entries outside the chain, and the one that leaves it, keep their links. */
  ghost predicate Frame(next: Links, next': Links, c: Chain, c': Chain) {
    && next.Keys <= next'.Keys
    && LinkedAs(next', c')
    && (forall x | x in next && (x !in c || x !in c') :: next'[x] == next[x])
    && (forall x | x in next && x in c' :: x in c)
  }

  lemma AddHeadFrame(next: Links, c: Chain, n: nat)
    requires LinkedAs(next, c) && n !in next
    ensures Frame(next, next[n := At(c, 0)], c, [n] + c)
  {
    var c', next' := [n] + c, next[n := At(c, 0)];
    forall j | 0 <= j < |c'| ensures c'[j] in next' && next'[c'[j]] == At(c', j + 1) {
      if j > 0 { assert c'[j] == c[j - 1]; }
    }
  }

  lemma ReplaceLinkAt(next: Links, next': Links, c: Chain, p: nat, n: nat, j: nat)
    requires p < |c| && j < |c| && n !in next
    requires j != p ==> c[j] in next && next[c[j]] == At(c, j + 1)
    requires p > 0 && j != p - 1 ==> c[j] != c[p - 1]
    requires next' == if p == 0 then next[n := At(c, p + 1)] else next[n := At(c, p + 1)][c[p - 1] := Some(n)]
    requires p > 0 ==> c[p - 1] != n
    ensures var c' := c[p := n]; c'[j] in next' && next'[c'[j]] == At(c', j + 1)
  {
  }

  lemma ReplaceLinked(next: Links, next': Links, c: Chain, p: nat, n: nat)
    requires LinkedAs(next, c) && n !in next && p < |c| && NoDup(c)
    requires next' == if p == 0 then next[n := At(c, p + 1)] else next[n := At(c, p + 1)][c[p - 1] := Some(n)]
    ensures LinkedAs(next', c[p := n])
  {
    var c' := c[p := n];
    if p > 0 { assert c[p - 1] in next; }
    forall j | 0 <= j < |c'| ensures c'[j] in next' && next'[c'[j]] == At(c', j + 1) {
      ReplaceLinkAt(next, next', c, p, n, j);
    }
  }

  lemma ReplaceFrame(next: Links, next': Links, c: Chain, p: nat, n: nat)
    requires LinkedAs(next, c) && n !in next && p < |c| && NoDup(c)
    requires next' == if p == 0 then next[n := At(c, p + 1)] else next[n := At(c, p + 1)][c[p - 1] := Some(n)]
    ensures Frame(next, next', c, c[p := n])
  {
    ReplaceLinked(next, next', c, p, n);
    var c' := c[p := n];
    if p > 0 { assert c'[p - 1] == c[p - 1] && c[p - 1] in c && c[p - 1] in c'; }
  }

  lemma DeleteLinkAt(next: Links, next': Links, c: Chain, p: nat, j: nat)
    requires p < |c| && j < |c| - 1
    requires var i := if j < p then j else j + 1;
      c[i] in next && next[c[i]] == At(c, i + 1) && (p > 0 && i != p - 1 ==> c[i] != c[p - 1])
    requires next' == if p == 0 then next else next[c[p - 1] := At(c, p + 1)]
    ensures var c' := c[..p] + c[p + 1..]; c'[j] in next' && next'[c'[j]] == At(c', j + 1)
  {
    var c' := c[..p] + c[p + 1..];
    assert c'[j] == c[if j < p then j else j + 1];
    assert j + 1 < |c'| ==> c'[j + 1] == c[if j + 1 < p then j + 1 else j + 2];
  }

  lemma DeleteLinks(next: Links, next': Links, c: Chain, p: nat)
    requires LinkedAs(next, c) && p < |c| && NoDup(c)
    requires next' == if p == 0 then next else next[c[p - 1] := At(c, p + 1)]
    ensures LinkedAs(next', c[..p] + c[p + 1..])
  {
    var c' := c[..p] + c[p + 1..];
    forall j | 0 <= j < |c'| ensures c'[j] in next' && next'[c'[j]] == At(c', j + 1) {
      var i := if j < p then j else j + 1;
      assert c[i] in next && (p > 0 && i != p - 1 ==> c[i] != c[p - 1]);
      DeleteLinkAt(next, next', c, p, j);
    }
  }

  lemma DeleteFrame(next: Links, next': Links, c: Chain, p: nat)
    requires LinkedAs(next, c) && p < |c| && NoDup(c)
    requires next' == if p == 0 then next else next[c[p - 1] := At(c, p + 1)]
    ensures Frame(next, next', c, c[..p] + c[p + 1..])
  {
    DeleteLinks(next, next', c, p);
    var c' := c[..p] + c[p + 1..];
    if p > 0 { assert c'[p - 1] == c[p - 1]; }
  }

  lemma AddHeadGood(entries: Entries, next: Links, next': Links, c: Chain, n: nat)
    requires GoodChain(entries, next, c)
    requires next'.Keys >= next.Keys + {n} && n in entries && AbsentIn(entries, c, entries[n].key)
    ensures GoodChain(entries, next', [n] + c)
  {
    assert forall i | 0 <= i < |c| :: c[i] in next.Keys;
  }

  lemma ReplaceGood(entries: Entries, next: Links, next': Links, c: Chain, p: nat, n: nat)
    requires GoodChain(entries, next, c) && p < |c|
    requires next'.Keys >= next.Keys + {n} && n in entries && entries[n].key == entries[c[p]].key
    ensures GoodChain(entries, next', c[p := n])
  {
    assert forall i | 0 <= i < |c| :: c[i] in next.Keys;
  }

  lemma DeleteGood(entries: Entries, next: Links, next': Links, c: Chain, p: nat)
    requires GoodChain(entries, next, c) && p < |c|
    requires next'.Keys >= next.Keys
    ensures GoodChain(entries, next', c[..p] + c[p + 1..])
  {
    var c' := c[..p] + c[p + 1..];
    assert forall i | 0 <= i < |c| :: c[i] in next.Keys;
    assert forall i | 0 <= i < |c'| :: c'[i] == c[if i < p then i else i + 1];
  }

  lemma {:induction false} WithoutAt(c: Chain, j: nat)
    requires j < |c| && NoDup(c)
    ensures Without(c, c[j]) == c[..j] + c[j + 1..]
  {
    if j > 0 {
      var tail := c[1..];
      assert c[0] != c[j] && tail[j - 1] == c[j];
      WithoutAt(tail, j - 1);
      assert c[..j] == [c[0]] + tail[..j - 1] && c[j + 1..] == tail[j..];
    }
  }

  lemma ReplaceMembers(c: Chain, p: nat, n: nat)
    requires p < |c| && NoDup(c)
    ensures Substitute(c, c[p], n) == c[p := n]
    ensures forall x :: x in c[p := n] <==> x == n || (x in c && x != c[p])
  {
    var c' := c[p := n];
    assert Substitute(c, c[p], n) == c';
    assert c'[p] == n;
    assert forall i | 0 <= i < |c| && i != p :: c'[i] == c[i];
  }

  lemma DeleteMembers(c: Chain, p: nat)
    requires p < |c| && NoDup(c)
    ensures Without(c, c[p]) == c[..p] + c[p + 1..]
    ensures forall x :: x in c[..p] + c[p + 1..] <==> x in c && x != c[p]
  {
    WithoutAt(c, p);
    forall x ensures x in c[..p] + c[p + 1..] <==> x in c && x != c[p] {
      DeleteMember(c, p, x);
    }
  }

  lemma DeleteMember(c: Chain, p: nat, x: nat)
    requires p < |c| && NoDup(c)
    ensures x in c[..p] + c[p + 1..] <==> x in c && x != c[p]
  {
    if x in c[..p] {
      var i :| 0 <= i < p && c[i] == x;
    } else if x in c[p + 1..] {
      var i :| 0 <= i < |c| - p - 1 && c[p + 1..][i] == x;
      assert c[p + 1 + i] == x;
    }
    assert c == c[..p] + [c[p]] + c[p + 1..];
  }

  // ---- What a link update keeps ---------------------------------------------

  lemma PastAppend(entries: Entries, next: Links, next': Links, log: Log, c': Chain)
    requires PastOk(entries, next, log)
    requires HistoryOk(entries, next, log) && LinkedAs(next, Last(log))
    requires Frame(next, next', Last(log), c') && KeepsOrder(entries, Last(log), c')
    ensures PastOk(entries, next', log + [c'])
  {
    var log' := log + [c'];
    forall t | 0 <= t < |log'| - 1 ensures KeepsOrder(entries, log'[t], log'[t + 1]) {
      OrderAppended(entries, next, log, c', t);
    }
    forall t, j | 0 <= t < |log'| - 1 && 0 <= j < |log'[t]|
      ensures log'[t][j] in log'[t + 1] || FrozenAt(next', c', log'[t], j)
    {
      LeftBehind(entries, next, next', log, c', t, j);
    }
  }

  lemma OrderAppended(entries: Entries, next: Links, log: Log, c': Chain, t: nat)
    requires PastOk(entries, next, log) && KeepsOrder(entries, Last(log), c') && t < |log|
    ensures KeepsOrder(entries, log[t], (log + [c'])[t + 1])
  {
    if t < |log| - 1 {
      assert (log + [c'])[t + 1] == log[t + 1];
      assert KeepsOrder(entries, log[t], log[t + 1]);
    } else {
      assert log[t] == Last(log) && (log + [c'])[t + 1] == c';
    }
  }

  /** An entry that had left the chain, or leaves it now, keeps its link. */
  lemma LeftBehind(entries: Entries, next: Links, next': Links, log: Log, c': Chain, t: nat, j: nat)
    requires PastOk(entries, next, log) && LinkedAs(next, Last(log))
    requires Frame(next, next', Last(log), c') && t < |log| && j < |log[t]|
    ensures log[t][j] in (log + [c'])[t + 1] || FrozenAt(next', c', log[t], j)
  {
    if t < |log| - 1 {
      assert (log + [c'])[t + 1] == log[t + 1];
      if log[t][j] !in log[t + 1] {
        assert FrozenAt(next, Last(log), log[t], j);
        StaysFrozen(next, next', Last(log), c', log[t], j);
      }
    } else if log[t][j] !in c' {
      FrozenNow(next, next', log[t], c', j);
    }
  }

  lemma StaysFrozen(next: Links, next': Links, now: Chain, c': Chain, c: Chain, j: nat)
    requires Frame(next, next', now, c') && j < |c| && FrozenAt(next, now, c, j)
    ensures FrozenAt(next', c', c, j)
  {
    assert c[j] in next && c[j] !in now;
  }

  lemma FrozenNow(next: Links, next': Links, c: Chain, c': Chain, j: nat)
    requires Frame(next, next', c, c') && LinkedAs(next, c) && j < |c| && c[j] !in c'
    ensures FrozenAt(next', c', c, j)
  {
    assert c[j] in next && next[c[j]] == At(c, j + 1);
  }

  lemma HistoryAppend(entries: Entries, next: Links, next': Links, log: Log, c': Chain)
    requires HistoryOk(entries, next, log) && next.Keys <= next'.Keys
    requires GoodChain(entries, next', c')
    ensures HistoryOk(entries, next', log + [c'])
  {
    forall t | 0 <= t < |log + [c']| ensures GoodChain(entries, next', (log + [c'])[t]) {
      if t < |log| {
        assert GoodChain(entries, next, log[t]);
        assert forall i | 0 <= i < |log[t]| :: log[t][i] in next.Keys;
      }
    }
  }

  lemma ReaderAppend(entries: Entries, log: Log, c': Chain, rd: Reader)
    requires ReaderOk(entries, log, rd)
    ensures ReaderOk(entries, log + [c'], rd)
  {
    var log' := log + [c'];
    assert forall t | 0 <= t < |log| :: log'[t] == log[t];
    match rd
    case Entered(_, _) =>
    case Scanning(k, start, cursor) =>
      if AbsentSince(entries, log, k, start) {
        var t :| start <= t < |log| && AbsentIn(entries, log[t], k);
        assert AbsentIn(entries, log'[t], k);
      }
      if cursor.Some? {
        var t: nat, j: nat :| Tracked(entries, log, k, start, cursor.value, t, j);
        assert Tracked(entries, log', k, start, cursor.value, t, j);
      }
    case Finished(k, start, end, res) =>
      var t :| start <= t <= end < |log| && Holds(entries, log[t], k, res);
      assert Holds(entries, log'[t], k, res);
  }

  /** A link update publishes live entries and retires at most one. */
  predicate StatusMove(status: map<nat, Status>, status': map<nat, Status>, c': Chain) {
    && status'.Keys == status.Keys
    && (forall x | x in c' :: x in status' && status'[x].Live?)
    && (forall x | x in status && status'[x] != status[x] :: status'[x].Live? || status'[x].Retired?)
  }

  lemma GraceAppend(status: map<nat, Status>, status': map<nat, Status>, log: Log, c': Chain, readers: map<nat, Reader>)
    requires GraceOk(status, log, readers) && StatusMove(status, status', c')
    ensures GraceOk(status', log + [c'], readers)
  {
    var log' := log + [c'];
    forall r, t, j | r in readers && !readers[r].Finished? && readers[r].start <= t < |log'| && 0 <= j < |log'[t]|
      ensures Kept(status', r, log'[t][j])
    {
      if t < |log| {
        assert log'[t] == log[t];
        assert Kept(status, r, log[t][j]);
      } else {
        assert log'[t][j] in c';
      }
    }
  }

  /** How one writer's hand-over of the entry it owns keeps ownership exact. */
  lemma OwnersMove(
      status: map<nat, Status>, status': map<nat, Status>, writers: map<nat, Writer>, w: nat, wr: Writer,
      o: Option<nat>, o': Option<nat>)
    requires OwnersOk(status, writers)
    requires o == if w in writers then Owned(writers[w]) else None
    requires o' == Owned(wr)
    requires o'.Some? ==> forall v | v in writers && v != w :: Owned(writers[v]) != o'
    requires forall e | e in status' && NeedsOwner(status'[e]) && Some(e) != o' ::
      Some(e) != o && e in status && NeedsOwner(status[e])
    ensures OwnersOk(status', writers[w := wr])
  {
    var writers' := writers[w := wr];
    forall e | e in status' && NeedsOwner(status'[e]) ensures HasOwner(writers', e) {
      if Some(e) == o' {
        assert w in writers' && Owned(writers'[w]) == Some(e);
      } else {
        assert HasOwner(writers, e);
        var v :| v in writers && Owned(writers[v]) == Some(e);
        assert v in writers' && Owned(writers'[v]) == Some(e);
      }
    }
  }

  /** The bookkeeping around a link update: w publishes its entry and takes charge of the one it unlinks. */
  ghost predicate Handover(
      status: map<nat, Status>, status': map<nat, Status>, writers: map<nat, Writer>, w: nat, wr: Writer) {
    && w in writers && writers[w].Walking? && wr.Holding?
    && status'.Keys == status.Keys
    && GoneOk(status', wr.gone)
    && (wr.gone.Some? ==> status[wr.gone.value].Live?)
    && (var o := Owned(writers[w]); o.Some? ==> o.value in status' && status'[o.value].Live?)
    && (forall e | e in status' && status'[e] != status[e] :: Some(e) == Owned(writers[w]) || Some(e) == wr.gone)
  }

  lemma HandoverWriters(
      entries: Entries, status: map<nat, Status>, status': map<nat, Status>, c: Chain, c': Chain,
      lock: Option<nat>, writers: map<nat, Writer>, w: nat, wr: Writer)
    requires Handover(status, status', writers, w, wr)
    requires WritersOk(entries, status, c, writers) && LockOk(lock, writers) && OwnersOk(status, writers)
    ensures WritersOk(entries, status', c', writers[w := wr])
    ensures LockOk(lock, writers[w := wr])
    ensures OwnersOk(status', writers[w := wr])
  {
    forall v | v in writers && v != w && Owned(writers[v]).Some?
      ensures var e := Owned(writers[v]).value;
        e in status && status'[e] == status[e] && !status[e].Live?
    {
      assert WriterOk(entries, status, c, writers[v]);
    }
    forall v | v in writers && v != w ensures WriterOk(entries, status', c', writers[v]) {
      assert WriterOk(entries, status, c, writers[v]);
      assert !writers[v].Walking?;
    }
    OwnersMove(status, status', writers, w, wr, Owned(writers[w]), Owned(wr));
  }

  lemma SwapStatus(
      entries: Entries, next: Links, next': Links, status: map<nat, Status>, c: Chain, c': Chain, e: nat, n: nat)
    requires StatusOk(entries, next, status, c) && e in c && e in next && n in status && status[n].Private?
    requires next'.Keys == next.Keys + {n}
    requires forall x :: x in c' <==> x == n || (x in c && x != e)
    requires forall x | x in c :: x in entries
    ensures var status' := status[n := Live][e := Retired];
      StatusMove(status, status', c') && StatusOk(entries, next', status', c')
  {
    assert e in status && status[e].Live?;
  }

  lemma DropStatus(
      entries: Entries, next: Links, next': Links, status: map<nat, Status>, c: Chain, c': Chain, e: nat)
    requires StatusOk(entries, next, status, c) && e in c && e in next
    requires next'.Keys == next.Keys
    requires forall x :: x in c' <==> x in c && x != e
    requires forall x | x in c :: x in entries
    ensures var status' := status[e := Retired];
      StatusMove(status, status', c') && StatusOk(entries, next', status', c')
  {
    assert e in status && status[e].Live?;
  }

  /** The chain became c' by one link update. */
  ghost predicate NewChain(s: State, s': State, c': Chain) {
    && s'.log == s.log + [c'] && s'.head == At(c', 0) && s'.num == |c'|
    && Frame(s.next, s'.next, Last(s.log), c') && KeepsOrder(s.entries, Last(s.log), c')
    && GoodChain(s.entries, s'.next, c')
  }

  /** Writer w made the update and nothing else changed. */
  ghost predicate NewStatus(s: State, s': State, w: nat, c': Chain) {
    && w in s'.writers && s'.writers == s.writers[w := s'.writers[w]]
    && s'.entries == s.entries && s'.lock == s.lock && s'.readers == s.readers
    && StatusMove(s.status, s'.status, c') && Handover(s.status, s'.status, s.writers, w, s'.writers[w])
    && StatusOk(s'.entries, s'.next, s'.status, c')
  }

  lemma LinkStep(s: State, s': State, w: nat, c': Chain)
    requires Inv(s) && NewChain(s, s', c') && NewStatus(s, s', w, c')
    ensures Inv(s')
  {
    assert Last(s'.log) == c';
    HistoryAppend(s.entries, s.next, s'.next, s.log, c');
    PastAppend(s.entries, s.next, s'.next, s.log, c');
    HandoverWriters(s.entries, s.status, s'.status, Last(s.log), c', s.lock, s.writers, w, s'.writers[w]);
    forall r | r in s'.readers ensures ReaderOk(s'.entries, s'.log, s'.readers[r]) {
      ReaderAppend(s.entries, s.log, c', s.readers[r]);
    }
    GraceAppend(s.status, s'.status, s.log, c', s.readers);
  }

  // ---- The three actions ------------------------------------------------------

  /** Writer w, under the lock, has walked to position p. */
  ghost predicate AtWork(s: State, w: nat, p: nat) {
    && w in s.writers && s.writers[w].Walking?
    && GoodChain(s.entries, s.next, Last(s.log)) && NoDup(Last(s.log))
    && ChainOk(s.next, s.head, s.num, s.log)
    && StatusOk(s.entries, s.next, s.status, Last(s.log))
    && Positioned(s.entries, Last(s.log), s.writers[w].op.key, s.writers[w].prev, s.writers[w].cur, p)
    && OpOk(s.entries, s.status, s.writers[w].op)
  }

  lemma WalkPosition(s: State, w: nat) returns (p: nat)
    requires Inv(s) && w in s.writers && s.writers[w].Walking?
    ensures AtWork(s, w, p) && s.lock == Some(w)
  {
    assert WriterOk(s.entries, s.status, Last(s.log), s.writers[w]);
    assert GoodChain(s.entries, s.next, s.log[s.Now()]);
    p :| Positioned(s.entries, Last(s.log), s.writers[w].op.key, s.writers[w].prev, s.writers[w].cur, p);
  }

  lemma AddHeadLinks(s: State, w: nat, p: nat)
    requires AtWork(s, w, p) && Enabled(s, AddHead(w))
    ensures NewChain(s, DoAddHead(s, w), [s.writers[w].op.node] + Last(s.log))
  {
    var c, n := Last(s.log), s.writers[w].op.node;
    AddHeadOrder(s.entries, c, n);
    AddHeadFrame(s.next, c, n);
    AddHeadGood(s.entries, s.next, s.next[n := At(c, 0)], c, n);
  }

  lemma AddHeadStatus(s: State, w: nat, p: nat)
    requires AtWork(s, w, p) && Enabled(s, AddHead(w))
    ensures NewStatus(s, DoAddHead(s, w), w, [s.writers[w].op.node] + Last(s.log))
  {
    AddHeadOwner(s, w, p);
  }

  lemma AddHeadOwner(s: State, w: nat, p: nat)
    requires AtWork(s, w, p) && Enabled(s, AddHead(w))
    ensures var s' := DoAddHead(s, w);
      StatusOk(s'.entries, s'.next, s'.status, [s.writers[w].op.node] + Last(s.log))
  {
  }

  predicate KnownMembers(s: State, e: nat) {
    e in Last(s.log) && forall x | x in Last(s.log) :: x in s.entries && x in s.next
  }

  lemma ReplaceLinks(s: State, w: nat, p: nat)
    requires AtWork(s, w, p) && Enabled(s, Replace(w))
    ensures p < |Last(s.log)| && Last(s.log)[p] == s.writers[w].cur.value
    ensures NewChain(s, DoReplace(s, w), Last(s.log)[p := s.writers[w].op.node])
    ensures KnownMembers(s, s.writers[w].cur.value)
    ensures DoReplace(s, w).next.Keys == s.next.Keys + {s.writers[w].op.node}
    ensures forall x :: x in Last(s.log)[p := s.writers[w].op.node] <==>
      x == s.writers[w].op.node || (x in Last(s.log) && x != s.writers[w].cur.value)
  {
    var c, n, next' := Last(s.log), s.writers[w].op.node, DoReplace(s, w).next;
    ReplaceMembers(c, p, n);
    ReplaceOrder(s.entries, c, p, n);
    ReplaceFrame(s.next, next', c, p, n);
    ReplaceGood(s.entries, s.next, next', c, p, n);
  }

  lemma ReplaceStatus(s: State, w: nat, c': Chain)
    requires Enabled(s, Replace(w)) && StatusOk(s.entries, s.next, s.status, Last(s.log))
    requires OpOk(s.entries, s.status, s.writers[w].op) && KnownMembers(s, s.writers[w].cur.value)
    requires DoReplace(s, w).next.Keys == s.next.Keys + {s.writers[w].op.node}
    requires forall x :: x in c' <==> x == s.writers[w].op.node || (x in Last(s.log) && x != s.writers[w].cur.value)
    ensures NewStatus(s, DoReplace(s, w), w, c')
  {
    var e, n := s.writers[w].cur.value, s.writers[w].op.node;
    SwapStatus(s.entries, s.next, DoReplace(s, w).next, s.status, Last(s.log), c', e, n);
  }

  /** Where the deleted entry stands, and what memory looks like without it. */
  lemma DeletePlace(s: State, w: nat, p: nat)
    requires AtWork(s, w, p) && Enabled(s, Delete(w))
    ensures var c, s' := Last(s.log), DoDelete(s, w);
      && p < |c| && c[p] == s.writers[w].cur.value
      && s'.next == (if p == 0 then s.next else s.next[c[p - 1] := At(c, p + 1)])
    ensures KnownMembers(s, s.writers[w].cur.value)
    ensures DoDelete(s, w).next.Keys == s.next.Keys
  {
  }

  lemma DeleteEnds(s: State, w: nat, p: nat)
    requires AtWork(s, w, p) && Enabled(s, Delete(w))
    ensures var c, s' := Last(s.log), DoDelete(s, w);
      p < |c| && s'.head == At(c[..p] + c[p + 1..], 0) && s'.num == |c| - 1
  {
    assert s.next[Last(s.log)[p]] == At(Last(s.log), p + 1);
  }

  lemma DeletedChain(entries: Entries, next: Links, next': Links, c: Chain, p: nat)
    requires GoodChain(entries, next, c) && NoDup(c) && LinkedAs(next, c) && p < |c|
    requires next' == if p == 0 then next else next[c[p - 1] := At(c, p + 1)]
    ensures var c' := c[..p] + c[p + 1..];
      Frame(next, next', c, c') && KeepsOrder(entries, c, c') && GoodChain(entries, next', c')
  {
    DeleteOrder(entries, c, p);
    DeleteFrame(next, next', c, p);
    DeleteGood(entries, next, next', c, p);
  }

  lemma DeleteLinksTo(s: State, w: nat, p: nat)
    requires AtWork(s, w, p) && Enabled(s, Delete(w))
    ensures p < |Last(s.log)| && Last(s.log)[p] == s.writers[w].cur.value
    ensures NewChain(s, DoDelete(s, w), Last(s.log)[..p] + Last(s.log)[p + 1..])
    ensures KnownMembers(s, s.writers[w].cur.value)
    ensures DoDelete(s, w).next.Keys == s.next.Keys
    ensures forall x :: x in Last(s.log)[..p] + Last(s.log)[p + 1..] <==>
      x in Last(s.log) && x != s.writers[w].cur.value
  {
    var c := Last(s.log);
    DeletePlace(s, w, p);
    DeleteEnds(s, w, p);
    DeletedChain(s.entries, s.next, DoDelete(s, w).next, c, p);
    DeleteMembers(c, p);
  }

  lemma DeleteStatus(s: State, w: nat, c': Chain)
    requires Enabled(s, Delete(w)) && StatusOk(s.entries, s.next, s.status, Last(s.log))
    requires KnownMembers(s, s.writers[w].cur.value)
    requires DoDelete(s, w).next.Keys == s.next.Keys
    requires forall x :: x in c' <==> x in Last(s.log) && x != s.writers[w].cur.value
    ensures NewStatus(s, DoDelete(s, w), w, c')
  {
    DropStatus(s.entries, s.next, DoDelete(s, w).next, s.status, Last(s.log), c', s.writers[w].cur.value);
  }

  lemma AddHeadInv(s: State, w: nat)
    requires Inv(s) && Enabled(s, AddHead(w))
    ensures Inv(DoAddHead(s, w))
  {
    var p := WalkPosition(s, w);
    AddHeadLinks(s, w, p);
    AddHeadStatus(s, w, p);
    LinkStep(s, DoAddHead(s, w), w, [s.writers[w].op.node] + Last(s.log));
  }

  lemma ReplaceInv(s: State, w: nat)
    requires Inv(s) && Enabled(s, Replace(w))
    ensures Inv(DoReplace(s, w))
  {
    var p := WalkPosition(s, w);
    ReplaceLinks(s, w, p);
    ReplaceStatus(s, w, Last(s.log)[p := s.writers[w].op.node]);
    LinkStep(s, DoReplace(s, w), w, Last(s.log)[p := s.writers[w].op.node]);
  }

  lemma DeleteInv(s: State, w: nat)
    requires Inv(s) && Enabled(s, Delete(w))
    ensures Inv(DoDelete(s, w))
  {
    var p := WalkPosition(s, w);
    DeleteLinksTo(s, w, p);
    DeleteStatus(s, w, Last(s.log)[..p] + Last(s.log)[p + 1..]);
    LinkStep(s, DoDelete(s, w), w, Last(s.log)[..p] + Last(s.log)[p + 1..]);
  }
}
