/** What the invariant says about one bucket: safety, refinement, conservation. */
module RcuTheorems {
  import opened PeMapSpec
  import opened RcuBucket
  import opened RcuInvariant
  import opened RcuPreservation

  // ---- Safety of readers and writers ------------------------------------------

  lemma CursorKept(
      entries: Entries, next: Links, status: map<nat, Status>, log: Log,
      readers: map<nat, Reader>, r: nat, e: nat)
    requires HistoryOk(entries, next, log) && GraceOk(status, log, readers)
    requires r in readers && readers[r].Scanning? && readers[r].cursor == Some(e)
    requires ReaderOk(entries, log, readers[r])
    ensures e in entries && e in next && Kept(status, r, e)
  {
    var rd := readers[r];
    var t: nat, j: nat :| Tracked(entries, log, rd.key, rd.start, rd.cursor.value, t, j);
    assert GoodChain(entries, next, log[t]);
    assert Kept(status, r, log[t][j]);
  }

  /** A reader never stands on freed memory, so its next load is always possible. */
  lemma ReaderSafe(s: State, r: nat)
    requires Inv(s) && r in s.readers && s.readers[r].Scanning? && s.readers[r].cursor.Some?
    ensures ReaderLooksAt(s, r)
    ensures Kept(s.status, r, s.readers[r].cursor.value)
  {
    assert ReaderOk(s.entries, s.log, s.readers[r]);
    CursorKept(s.entries, s.next, s.status, s.log, s.readers, r, s.readers[r].cursor.value);
  }

  /** A grace period can only end for entries that no reader stands on. */
  lemma NoUseAfterFree(s: State, e: nat, r: nat)
    requires Inv(s) && Enabled(s, Free(e)) && r in s.readers && s.readers[r].Scanning?
    ensures s.readers[r].cursor != Some(e)
  {
    assert r in Active(s) && r !in s.status[e].waiting;
    assert ReaderOk(s.entries, s.log, s.readers[r]);
    if s.readers[r].cursor == Some(e) {
      CursorKept(s.entries, s.next, s.status, s.log, s.readers, r, e);
    }
  }

  /** A walking writer is alone under the lock, and the entry it stands on is live. */
  lemma WriterSafe(s: State, w: nat)
    requires Inv(s) && w in s.writers && s.writers[w].Walking?
    ensures s.lock == Some(w)
    ensures s.writers[w].cur.Some? ==>
      var e := s.writers[w].cur.value; LooksAt(s, w) && e in s.status && s.status[e].Live?
  {
    var p := WalkPosition(s, w);
    if s.writers[w].cur.Some? {
      assert s.writers[w].cur.value == Last(s.log)[p];
    }
  }

  // ---- Refinement of the abstract map -------------------------------------------

  /** The keys and values of a chain's entries, in order. */
  function ListOf(entries: Entries, c: Chain): Pairs {
    if c == [] then []
    else (if c[0] in entries then [(entries[c[0]].key, entries[c[0]].value)] else []) + ListOf(entries, c[1..])
  }

  /** The abstract map of a bucket. */
  function Contents(s: State): map<Key, Value> {
    MapOf(ListOf(s.entries, Last(s.log)))
  }

  /** The chain's entries are known, and no two have the same key. */
  predicate Keyed(entries: Entries, c: Chain) {
    && (forall i | 0 <= i < |c| :: c[i] in entries)
    && (forall i, j | 0 <= i < j < |c| :: entries[c[i]].key != entries[c[j]].key)
  }

  lemma {:induction false} ListAt(entries: Entries, c: Chain)
    requires forall i | 0 <= i < |c| :: c[i] in entries
    ensures |ListOf(entries, c)| == |c|
    ensures forall i | 0 <= i < |c| :: ListOf(entries, c)[i] == (entries[c[i]].key, entries[c[i]].value)
  {
    if c != [] { ListAt(entries, c[1..]); }
  }

  lemma MapHas(entries: Entries, c: Chain, j: nat)
    requires Keyed(entries, c) && j < |c|
    ensures Lookup(MapOf(ListOf(entries, c)), entries[c[j]].key) == Some(entries[c[j]].value)
  {
    ListAt(entries, c);
    MapAt(ListOf(entries, c), j);
  }

  lemma {:induction false} ListLacks(entries: Entries, c: Chain, k: Key)
    requires AbsentIn(entries, c, k)
    ensures Absent(ListOf(entries, c), k)
  {
    if c != [] {
      assert forall i | 0 <= i < |c[1..]| :: c[1..][i] == c[i + 1];
      ListLacks(entries, c[1..], k);
      assert !HasKey(entries, c[0], k);
    }
  }

  lemma MapLacks(entries: Entries, c: Chain, k: Key)
    requires AbsentIn(entries, c, k)
    ensures k !in MapOf(ListOf(entries, c))
  {
    ListLacks(entries, c, k);
    MapKeys(ListOf(entries, c), k);
  }

  /** The readers' notion of a key's value is the abstract map's. */
  lemma HoldsIsLookup(entries: Entries, c: Chain, k: Key, res: Option<Value>)
    requires Keyed(entries, c)
    ensures Holds(entries, c, k, res) <==> Lookup(MapOf(ListOf(entries, c)), k) == res
  {
    if AbsentIn(entries, c, k) {
      MapLacks(entries, c, k);
    } else {
      var i :| 0 <= i < |c| && HasKey(entries, c[i], k);
      MapHas(entries, c, i);
      assert forall j | 0 <= j < |c| && HasKey(entries, c[j], k) :: j == i;
    }
  }

  lemma ReplaceMap(entries: Entries, c: Chain, p: nat, n: nat)
    requires Keyed(entries, c) && p < |c| && n in entries && entries[n].key == entries[c[p]].key
    ensures MapOf(ListOf(entries, c[p := n])) == MapOf(ListOf(entries, c))[entries[n].key := entries[n].value]
  {
    ListAt(entries, c);
    ListAt(entries, c[p := n]);
    var list := ListOf(entries, c);
    assert ListOf(entries, c[p := n]) == list[p := (list[p].0, entries[n].value)];
    MapSet(list, p, entries[n].value);
  }

  lemma DeleteMap(entries: Entries, c: Chain, p: nat)
    requires Keyed(entries, c) && p < |c|
    ensures MapOf(ListOf(entries, c[..p] + c[p + 1..])) == MapOf(ListOf(entries, c)) - {entries[c[p]].key}
  {
    ListAt(entries, c);
    ListAt(entries, c[..p] + c[p + 1..]);
    assert ListOf(entries, c[..p] + c[p + 1..]) == DropAt(ListOf(entries, c), p);
    MapDelete(ListOf(entries, c), p);
  }

  lemma {:induction false} ListAgrees(entries: Entries, entries': Entries, c: Chain)
    requires forall i | 0 <= i < |c| :: c[i] in entries && c[i] in entries' && entries'[c[i]] == entries[c[i]]
    ensures ListOf(entries', c) == ListOf(entries, c)
  {
    if c != [] {
      ListAgrees(entries, entries', c[1..]);
    }
  }

  lemma ChainNow(s: State)
    requires Inv(s)
    ensures Keyed(s.entries, Last(s.log)) && s.num == |Last(s.log)|
    ensures forall i | 0 <= i < |Last(s.log)| :: Last(s.log)[i] in s.next
  {
    assert GoodChain(s.entries, s.next, s.log[s.Now()]);
  }

  /** The counter of a bucket is the size of the map it stands for. */
  lemma NumIsSize(s: State)
    requires Inv(s)
    ensures s.num == |Contents(s)|
  {
    ChainNow(s);
    ListAt(s.entries, Last(s.log));
    MapSize(ListOf(s.entries, Last(s.log)));
  }

  lemma AddHeadRefines(s: State, w: nat)
    requires Inv(s) && Enabled(s, AddHead(w))
    ensures var op := s.writers[w].op;
      op.key !in Contents(s) && Contents(DoAddHead(s, w)) == Contents(s)[op.key := op.value]
  {
    var p := WalkPosition(s, w);
    MapLacks(s.entries, Last(s.log), s.writers[w].op.key);
    assert ([s.writers[w].op.node] + Last(s.log))[1..] == Last(s.log);
    var list := ListOf(s.entries, Last(s.log));
    assert ([(s.writers[w].op.key, s.writers[w].op.value)] + list)[1..] == list;
  }

  lemma ReplaceRefines(s: State, w: nat)
    requires Inv(s) && Enabled(s, Replace(w))
    ensures var op := s.writers[w].op;
      op.key in Contents(s) && Contents(DoReplace(s, w)) == Contents(s)[op.key := op.value]
  {
    var p := WalkPosition(s, w);
    ChainNow(s);
    ReplaceMembers(Last(s.log), p, s.writers[w].op.node);
    ReplaceMap(s.entries, Last(s.log), p, s.writers[w].op.node);
    MapHas(s.entries, Last(s.log), p);
  }

  lemma DeleteRefines(s: State, w: nat)
    requires Inv(s) && Enabled(s, Delete(w))
    ensures var op := s.writers[w].op;
      op.key in Contents(s) && Contents(DoDelete(s, w)) == Contents(s) - {op.key}
  {
    var p := WalkPosition(s, w);
    ChainNow(s);
    DeleteMembers(Last(s.log), p);
    DeleteMap(s.entries, Last(s.log), p);
    MapHas(s.entries, Last(s.log), p);
  }

  lemma MissRefines(s: State, w: nat)
    requires Inv(s) && Enabled(s, Miss(w))
    ensures s.writers[w].op.key !in Contents(s)
  {
    var p := WalkPosition(s, w);
    MapLacks(s.entries, Last(s.log), s.writers[w].op.key);
  }

  /** What one action does to the abstract map. */
  function Effect(s: State, a: Action, m: map<Key, Value>): map<Key, Value>
    requires Enabled(s, a)
  {
    match a
    case AddHead(w) => m[s.writers[w].op.key := s.writers[w].op.value]
    case Replace(w) => m[s.writers[w].op.key := s.writers[w].op.value]
    case Delete(w) => m - {s.writers[w].op.key}
    case _ => m
  }

  /** Other actions leave the history alone, and only an allocation adds an entry. */
  lemma QuietKeeps(s: State, a: Action)
    requires Enabled(s, a) && !a.AddHead? && !a.Replace? && !a.Delete?
    ensures Next(s, a).log == s.log
    ensures if a.AllocOk? then a.e !in s.entries && Next(s, a).entries.Keys == s.entries.Keys + {a.e}
            else Next(s, a).entries == s.entries
    ensures forall e | e in s.entries :: Next(s, a).entries[e] == s.entries[e]
  {
  }

  lemma QuietContents(s: State, a: Action)
    requires Inv(s) && Enabled(s, a) && !a.AddHead? && !a.Replace? && !a.Delete?
    ensures Contents(Next(s, a)) == Contents(s)
  {
    ChainNow(s);
    QuietKeeps(s, a);
    ListAgrees(s.entries, Next(s, a).entries, Last(s.log));
  }

  /** Every action is one operation of the abstract map or changes nothing of it. */
  lemma StepRefines(s: State, a: Action)
    requires Inv(s) && Enabled(s, a)
    ensures Contents(Next(s, a)) == Effect(s, a, Contents(s))
    ensures a.AddHead? || a.Miss? ==> s.writers[a.w].op.key !in Contents(s)
    ensures a.Replace? || a.Delete? ==> s.writers[a.w].op.key in Contents(s)
  {
    if a.AddHead? {
      AddHeadRefines(s, a.w);
    } else if a.Replace? {
      ReplaceRefines(s, a.w);
    } else if a.Delete? {
      DeleteRefines(s, a.w);
    } else {
      QuietContents(s, a);
      if a.Miss? { MissRefines(s, a.w); }
    }
  }
}
