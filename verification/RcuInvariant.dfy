/**
 * What every reachable state of an RCU bucket satisfies.
 *
 * Two facts about the history carry the readers.  `PastOk`: between two chains no
 * key moves in front of a surviving entry unless it was absent, and an unlinked
 * entry keeps the link it had.  `Tracked`: the entry a reader stands on was in
 * the chain at some instant of its read section.
 */
module RcuInvariant {
  import opened PeMapSpec
  import opened RcuBucket

  type Entries = map<nat, Entry>
  type Links = map<nat, Option<nat>>
  function At(c: Chain, j: nat): Option<nat> {
    if j < |c| then Some(c[j]) else None
  }

  predicate HasKey(entries: Entries, e: nat, k: Key) {
    e in entries && entries[e].key == k
  }

  predicate AbsentIn(entries: Entries, c: Chain, k: Key) {
    forall i | 0 <= i < |c| :: !HasKey(entries, c[i], k)
  }

  predicate NoKeyBefore(entries: Entries, c: Chain, j: nat, k: Key) {
    j <= |c| && forall i | 0 <= i < j :: !HasKey(entries, c[i], k)
  }

  /** At this chain the key's value was `res` (None: the key was absent). */
  predicate Holds(entries: Entries, c: Chain, k: Key, res: Option<Value>) {
    match res
    case None => AbsentIn(entries, c, k)
    case Some(v) => exists j :: 0 <= j < |c| && HasKey(entries, c[j], k) && entries[c[j]].value == v
  }

  // ---- Memory ------------------------------------------------------------

  predicate NoDup(c: Chain) {
    forall i, j | 0 <= i < j < |c| :: c[i] != c[j]
  }

  /** The entries of a chain are known and linked, and no two have the same key. */
  predicate GoodChain(entries: Entries, next: Links, c: Chain) {
    && (forall i | 0 <= i < |c| :: c[i] in entries && c[i] in next)
    && (forall i, j | 0 <= i < j < |c| :: entries[c[i]].key != entries[c[j]].key)
  }

  ghost predicate HistoryOk(entries: Entries, next: Links, log: Log) {
    forall t | 0 <= t < |log| :: GoodChain(entries, next, log[t])
  }

  /** The links in memory spell out the chain. */
  predicate LinkedAs(next: Links, c: Chain) {
    forall j | 0 <= j < |c| :: c[j] in next && next[c[j]] == At(c, j + 1)
  }

  ghost predicate ChainOk(next: Links, head: Option<nat>, num: int, log: Log) {
    && head == At(Last(log), 0)
    && LinkedAs(next, Last(log))
    && num == |Last(log)|
  }

  /** No key moves in front of a surviving entry, unless it was absent before. */
  ghost predicate KeepsOrder(entries: Entries, c: Chain, c': Chain) {
    forall j, j', k | 0 <= j < |c| && 0 <= j' < |c'| && c[j] == c'[j'] && NoKeyBefore(entries, c, j, k) ::
      AbsentIn(entries, c, k) || NoKeyBefore(entries, c', j', k)
  }

  /** Entry x left the chain c for good, and still points where it pointed in c. */
  ghost predicate FrozenAt(next: Links, now: Chain, c: Chain, j: nat)
    requires j < |c|
  {
    c[j] !in now && c[j] in next && next[c[j]] == At(c, j + 1)
  }

  ghost predicate PastOk(entries: Entries, next: Links, log: Log) {
    && (forall t | 0 <= t < |log| - 1 :: KeepsOrder(entries, log[t], log[t + 1]))
    && (forall t, j | 0 <= t < |log| - 1 && 0 <= j < |log[t]| ::
          log[t][j] in log[t + 1] || FrozenAt(next, Last(log), log[t], j))
  }

  ghost predicate StatusOk(entries: Entries, next: Links, status: map<nat, Status>, c: Chain) {
    && status.Keys == entries.Keys
    && next.Keys <= entries.Keys
    && (forall e | e in status :: status[e].Live? <==> e in c)
    && (forall e | e in status :: status[e].Private? <==> e !in next)
  }

  // ---- Writers -----------------------------------------------------------

  predicate InCritical(wr: Writer) {
    wr.Walking? || wr.Holding?
  }

  predicate LockOk(lock: Option<nat>, writers: map<nat, Writer>) {
    && (lock.Some? ==> lock.value in writers)
    && (forall w | w in writers :: InCritical(writers[w]) <==> lock == Some(w))
  }

  /** A writer's walk has reached position j without meeting its key. */
  predicate Positioned(entries: Entries, c: Chain, k: Key, prev: Option<nat>, cur: Option<nat>, j: nat) {
    && j <= |c|
    && cur == At(c, j)
    && prev == (if j == 0 then None else Some(c[j - 1]))
    && NoKeyBefore(entries, c, j, k)
  }

  predicate OpOk(entries: Entries, status: map<nat, Status>, op: Op) {
    op.Insert? ==>
      && op.node in entries && op.node in status
      && status[op.node].Private?
      && entries[op.node] == Entry(op.key, op.value)
  }

  predicate GoneOk(status: map<nat, Status>, gone: Option<nat>) {
    gone.Some? ==> gone.value in status && status[gone.value].Retired?
  }

  ghost predicate WriterOk(entries: Entries, status: map<nat, Status>, c: Chain, wr: Writer) {
    match wr
    case Calling(_, _) => true
    case Ready(op) => OpOk(entries, status, op)
    case Walking(op, prev, cur) =>
      OpOk(entries, status, op) && exists j :: Positioned(entries, c, op.key, prev, cur, j)
    case Holding(gone, _) => GoneOk(status, gone)
    case Retiring(gone, _) => GoneOk(status, gone)
    case Returned(_) => true
  }

  ghost predicate WritersOk(entries: Entries, status: map<nat, Status>, c: Chain, writers: map<nat, Writer>) {
    forall w | w in writers :: WriterOk(entries, status, c, writers[w])
  }

  /** The entry a writer must still link or hand to call_rcu. */
  function Owned(wr: Writer): Option<nat> {
    match wr
    case Ready(Insert(_, _, n)) => Some(n)
    case Walking(Insert(_, _, n), _, _) => Some(n)
    case Holding(gone, _) => gone
    case Retiring(gone, _) => gone
    case _ => None
  }

  predicate NeedsOwner(st: Status) {
    st.Private? || st.Retired?
  }

  ghost predicate HasOwner(writers: map<nat, Writer>, e: nat) {
    exists w :: w in writers && Owned(writers[w]) == Some(e)
  }

  /** Private and retired entries belong to exactly one writer: none leaks, none is retired twice. */
  ghost predicate OwnersOk(status: map<nat, Status>, writers: map<nat, Writer>) {
    && (forall w, v | w in writers && v in writers && w != v ::
          Owned(writers[w]).Some? ==> Owned(writers[w]) != Owned(writers[v]))
    && (forall e | e in status && NeedsOwner(status[e]) :: HasOwner(writers, e))
  }

  // ---- Readers -----------------------------------------------------------

  ghost predicate AbsentSince(entries: Entries, log: Log, k: Key, start: nat) {
    exists t :: start <= t < |log| && AbsentIn(entries, log[t], k)
  }

  /** Entry e stood at position j of the chain of instant t, with no entry of key k before it. */
  ghost predicate Tracked(entries: Entries, log: Log, k: Key, start: nat, e: nat, t: nat, j: nat) {
    && start <= t < |log|
    && j < |log[t]| && log[t][j] == e
    && (AbsentSince(entries, log, k, start) || NoKeyBefore(entries, log[t], j, k))
  }

  ghost predicate ReaderOk(entries: Entries, log: Log, rd: Reader) {
    match rd
    case Entered(_, start) => start < |log|
    case Scanning(k, start, cursor) =>
      if cursor.None? then AbsentSince(entries, log, k, start)
      else exists t, j :: Tracked(entries, log, k, start, cursor.value, t, j)
    case Finished(k, start, end, res) =>
      exists t :: start <= t <= end < |log| && Holds(entries, log[t], k, res)
  }

  ghost predicate ReadersOk(entries: Entries, log: Log, readers: map<nat, Reader>) {
    forall r | r in readers :: ReaderOk(entries, log, readers[r])
  }

  /** An entry that reader r may hold: neither freed nor freeable before r is done. */
  predicate Kept(status: map<nat, Status>, r: nat, e: nat) {
    && e in status
    && !status[e].Freed? && !status[e].Private?
    && (status[e].Queued? ==> r in status[e].waiting)
  }

  ghost predicate GraceOk(status: map<nat, Status>, log: Log, readers: map<nat, Reader>) {
    forall r, t, j | r in readers && !readers[r].Finished? && readers[r].start <= t < |log| && 0 <= j < |log[t]| ::
      Kept(status, r, log[t][j])
  }

  // ---- All together ------------------------------------------------------

  ghost predicate MemoryOk(s: State) {
    && ChainOk(s.next, s.head, s.num, s.log)
    && HistoryOk(s.entries, s.next, s.log)
    && PastOk(s.entries, s.next, s.log)
    && StatusOk(s.entries, s.next, s.status, Last(s.log))
  }

  ghost predicate Inv(s: State) {
    && MemoryOk(s)
    && LockOk(s.lock, s.writers)
    && WritersOk(s.entries, s.status, Last(s.log), s.writers)
    && OwnersOk(s.status, s.writers)
    && ReadersOk(s.entries, s.log, s.readers)
    && GraceOk(s.status, s.log, s.readers)
  }

  lemma InitInv()
    ensures Inv(INIT)
  {
  }
}
