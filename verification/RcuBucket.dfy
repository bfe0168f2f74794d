/**
 * One bucket of the RCU hash map: a singly followed chain of entries that
 * writers relink under the bucket lock and readers walk with no lock at all.
 *
 * Each action is one atomic access to shared memory (a link store, a link load,
 * a lock operation), one call of `kmem_cache_alloc` or `call_rcu`, or the end of a
 * grace period.  An entry number is never used twice.
 */
module RcuBucket {
  import opened PeMapSpec

  datatype Entry = Entry(key: Key, value: Value)

  /** Who is responsible for an entry's memory. */
  datatype Status =
    | Private                      // allocated by an insert, not linked yet
    | Live                         // in the chain
    | Retired                      // unlinked, call_rcu still to come
    | Queued(waiting: set<nat>)    // call_rcu was made while these readers were active
    | Freed

  datatype Op = Insert(key: Key, value: Value, node: nat) | Remove(key: Key)

  /** Where a writer stands in pe_map_insert or pe_map_remove. */
  datatype Writer =
    | Calling(key: Key, value: Value)
    | Ready(op: Op)
    | Walking(op: Op, prev: Option<nat>, cur: Option<nat>)
    | Holding(gone: Option<nat>, ret: int)
    | Retiring(gone: Option<nat>, ret: int)
    | Returned(ret: int)

  /** Where a reader stands in pe_map_get; `start` and `end` index the history. */
  datatype Reader =
    | Entered(key: Key, start: nat)
    | Scanning(key: Key, start: nat, cursor: Option<nat>)
    | Finished(key: Key, start: nat, end: nat, result: Option<Value>)

  type Chain = seq<nat>
  type Log = log: seq<Chain> | |log| > 0 witness [[]]

  function Last(log: Log): Chain {
    log[|log| - 1]
  }

  /**
   * `log` is a history variable: log[0] is the initial chain and every link
   * update appends the chain it produced, so its last element is the chain now.
   */
  datatype State = State(
    entries: map<nat, Entry>,
    next: map<nat, Option<nat>>,
    head: Option<nat>,
    num: int,
    lock: Option<nat>,
    status: map<nat, Status>,
    writers: map<nat, Writer>,
    readers: map<nat, Reader>,
    log: Log)
  {
    function Now(): nat {
      |log| - 1
    }
  }

  const INIT: State := State(map[], map[], None, 0, None, map[], map[], map[], [[]])

  datatype Action =
    | CallInsert(w: nat, key: Key, value: Value)
    | AllocFail(w: nat)
    | AllocOk(w: nat, e: nat)
    | CallRemove(w: nat, key: Key)
    | Lock(w: nat)
    | Advance(w: nat)
    | Replace(w: nat)
    | AddHead(w: nat)
    | Delete(w: nat)
    | Miss(w: nat)
    | Unlock(w: nat)
    | CallRcu(w: nat)
    | Leave(w: nat)
    | ReadLock(r: nat, key: Key)
    | ReadHead(r: nat)
    | ReadNext(r: nat)
    | ReadHit(r: nat)
    | ReadEnd(r: nat)
    | Free(e: nat)

  function Active(s: State): (rs: set<nat>)
    ensures forall r :: r in rs <==> r in s.readers && !s.readers[r].Finished?
  {
    set r | r in s.readers && !s.readers[r].Finished?
  }

  /** A writer that has the lock and looks at entry `e`. */
  predicate LooksAt(s: State, w: nat) {
    && w in s.writers
    && s.writers[w].Walking?
    && s.writers[w].cur.Some?
    && s.writers[w].cur.value in s.entries
    && s.writers[w].cur.value in s.next
  }

  predicate ReaderLooksAt(s: State, r: nat) {
    && r in s.readers
    && s.readers[r].Scanning?
    && s.readers[r].cursor.Some?
    && s.readers[r].cursor.value in s.entries
    && s.readers[r].cursor.value in s.next
  }

  function KeyAt(s: State, e: nat): Key
    requires e in s.entries
  {
    s.entries[e].key
  }

  predicate Enabled(s: State, a: Action) {
    match a
       case CallInsert(w, _, _) => w !in s.writers
       case CallRemove(w, _) => w !in s.writers
       case AllocFail(w) => w in s.writers && s.writers[w].Calling?
       case AllocOk(w, e) => w in s.writers && s.writers[w].Calling? && e !in s.entries
       case Lock(w) => w in s.writers && s.writers[w].Ready? && s.lock == None
       case Advance(w) => LooksAt(s, w) && KeyAt(s, s.writers[w].cur.value) != s.writers[w].op.key
       case Replace(w) =>
         && LooksAt(s, w)
         && s.writers[w].op.Insert?
         && KeyAt(s, s.writers[w].cur.value) == s.writers[w].op.key
       case Delete(w) =>
         && LooksAt(s, w)
         && s.writers[w].op.Remove?
         && KeyAt(s, s.writers[w].cur.value) == s.writers[w].op.key
       case AddHead(w) =>
         w in s.writers && s.writers[w].Walking? && s.writers[w].op.Insert? && s.writers[w].cur == None
       case Miss(w) =>
         w in s.writers && s.writers[w].Walking? && s.writers[w].op.Remove? && s.writers[w].cur == None
       case Unlock(w) => w in s.writers && s.writers[w].Holding?
       case CallRcu(w) => w in s.writers && s.writers[w].Retiring? && s.writers[w].gone.Some?
       case Leave(w) => w in s.writers && s.writers[w].Retiring? && s.writers[w].gone == None
       case ReadLock(r, _) => r !in s.readers
       case ReadHead(r) => r in s.readers && s.readers[r].Entered?
       case ReadNext(r) => ReaderLooksAt(s, r) && KeyAt(s, s.readers[r].cursor.value) != s.readers[r].key
       case ReadHit(r) => ReaderLooksAt(s, r) && KeyAt(s, s.readers[r].cursor.value) == s.readers[r].key
       case ReadEnd(r) => r in s.readers && s.readers[r].Scanning? && s.readers[r].cursor == None
       // The one promise of RCU: a grace period outlasts every reader that was active when it began.
       case Free(e) => e in s.status && s.status[e].Queued? && s.status[e].waiting !! Active(s)
  }

  /** Point the link that `prev` names (the list head when None) at `to`. */
  function Relink(s: State, prev: Option<nat>, to: Option<nat>): State {
    if prev.None? then s.(head := to) else s.(next := s.next[prev.value := to])
  }

  /** The chain with `n` standing where `e` stood. */
  function Substitute(c: Chain, e: nat, n: nat): Chain {
    seq(|c|, i requires 0 <= i < |c| => if c[i] == e then n else c[i])
  }

  /** The chain without `e`. */
  function Without(c: Chain, e: nat): Chain {
    if c == [] then [] else if c[0] == e then c[1..] else [c[0]] + Without(c[1..], e)
  }

  /** hlist_replace_rcu: the new entry takes the old one's successor, then its place. */
  function DoReplace(s: State, w: nat): State
    requires Enabled(s, Replace(w))
  {
    var wr := s.writers[w];
    var e, n := wr.cur.value, wr.op.node;
    var s1 := s.(next := s.next[n := s.next[e]]);
    Relink(s1, wr.prev, Some(n)).(
      status := s.status[n := Live][e := Retired],
      writers := s.writers[w := Holding(Some(e), 0)],
      log := s.log + [Substitute(Last(s.log), e, n)])
  }

  /** hlist_add_head_rcu: the new entry's successor is the old first entry. */
  function DoAddHead(s: State, w: nat): State
    requires Enabled(s, AddHead(w))
  {
    var n := s.writers[w].op.node;
    s.(next := s.next[n := s.head],
       head := Some(n),
       num := s.num + 1,
       status := s.status[n := Live],
       writers := s.writers[w := Holding(None, 0)],
       log := s.log + [[n] + Last(s.log)])
  }

  /** hlist_del_rcu: the entry's predecessor skips it; the entry keeps its own link. */
  function DoDelete(s: State, w: nat): State
    requires Enabled(s, Delete(w))
  {
    var wr := s.writers[w];
    var e := wr.cur.value;
    Relink(s, wr.prev, s.next[e]).(
      num := s.num - 1,
      status := s.status[e := Retired],
      writers := s.writers[w := Holding(Some(e), 0)],
      log := s.log + [Without(Last(s.log), e)])
  }

  function SetWriter(s: State, w: nat, wr: Writer): State {
    s.(writers := s.writers[w := wr])
  }

  function SetReader(s: State, r: nat, rd: Reader): State {
    s.(readers := s.readers[r := rd])
  }

  /** kmem_cache_alloc succeeds and the new entry is filled in. */
  function DoAllocOk(s: State, w: nat, e: nat): State
    requires Enabled(s, AllocOk(w, e))
  {
    var wr := s.writers[w];
    SetWriter(s, w, Ready(Insert(wr.key, wr.value, e))).(
      entries := s.entries[e := Entry(wr.key, wr.value)],
      status := s.status[e := Private])
  }

  /** call_rcu: the unlinked entry waits for every reader that is active now. */
  function DoCallRcu(s: State, w: nat): State
    requires Enabled(s, CallRcu(w))
  {
    SetWriter(s, w, Returned(s.writers[w].ret)).(
      status := s.status[s.writers[w].gone.value := Queued(Active(s))])
  }

  function Next(s: State, a: Action): State
    requires Enabled(s, a)
  {
    match a
    case CallInsert(w, k, v) => SetWriter(s, w, Calling(k, v))
    case CallRemove(w, k) => SetWriter(s, w, Ready(Remove(k)))
    case AllocFail(w) => SetWriter(s, w, Returned(-1))
    case AllocOk(w, e) => DoAllocOk(s, w, e)
    case Lock(w) => SetWriter(s, w, Walking(s.writers[w].op, None, s.head)).(lock := Some(w))
    case Advance(w) =>
      var wr := s.writers[w];
      SetWriter(s, w, Walking(wr.op, wr.cur, s.next[wr.cur.value]))
    case Replace(w) => DoReplace(s, w)
    case AddHead(w) => DoAddHead(s, w)
    case Delete(w) => DoDelete(s, w)
    case Miss(w) => SetWriter(s, w, Holding(None, -1))
    case Unlock(w) => SetWriter(s, w, Retiring(s.writers[w].gone, s.writers[w].ret)).(lock := None)
    case CallRcu(w) => DoCallRcu(s, w)
    case Leave(w) => SetWriter(s, w, Returned(s.writers[w].ret))
    case ReadLock(r, k) => SetReader(s, r, Entered(k, s.Now()))
    case ReadHead(r) => SetReader(s, r, Scanning(s.readers[r].key, s.readers[r].start, s.head))
    case ReadNext(r) =>
      var rd := s.readers[r];
      SetReader(s, r, Scanning(rd.key, rd.start, s.next[rd.cursor.value]))
    case ReadHit(r) =>
      var rd := s.readers[r];
      SetReader(s, r, Finished(rd.key, rd.start, s.Now(), Some(s.entries[rd.cursor.value].value)))
    case ReadEnd(r) =>
      var rd := s.readers[r];
      SetReader(s, r, Finished(rd.key, rd.start, s.Now(), None))
    case Free(e) => s.(status := s.status[e := Freed])
  }
}
