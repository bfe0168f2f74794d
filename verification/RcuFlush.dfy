/**
 * pe_map_flush, run when the module goes away and nobody is inside the map:
 * detach every chain, wait for all grace periods and callbacks, free the chains.
 */
module RcuFlush {
  import opened PeMapSpec
  import opened RcuBucket
  import opened RcuInvariant
  import opened RcuTheorems
  import opened RcuCalls

  /** The bucket as INIT_HLIST_HEAD leaves it. */
  function Detached(s: State): State {
    s.(head := None, num := 0, log := s.log + [[]])
  }

  /** synchronize_rcu and rcu_barrier: every callback that was queued has run. */
  function Barrier(s: State): State {
    s.(status := map e | e in s.status :: if s.status[e].Queued? then Freed else s.status[e])
  }

  /** The first loop of pe_map_flush, then both barriers. */
  method DetachAll(buckets: array<State>, heads: array<Option<nat>>)
    requires heads.Length == buckets.Length
    modifies buckets, heads
    ensures forall i | 0 <= i < buckets.Length :: heads[i] == old(buckets[i]).head
    ensures forall i | 0 <= i < buckets.Length :: buckets[i] == Barrier(Detached(old(buckets[i])))
  {
    ghost var before := buckets[..];
    for i := 0 to buckets.Length
      invariant buckets[i..] == before[i..]
      invariant forall j | 0 <= j < i :: heads[j] == before[j].head && buckets[j] == Detached(before[j])
    {
      assert buckets[i] == before[i];
      heads[i] := buckets[i].head;
      buckets[i] := Detached(buckets[i]);
    }
    forall i | 0 <= i < buckets.Length {
      buckets[i] := Barrier(buckets[i]);
    }
  }

  /** The first n entries of the chain have been freed, each while it was live; nothing else changed. */
  predicate PartlyFreed(status: map<nat, Status>, freed: map<nat, Status>, c: Chain, n: nat)
    requires n <= |c|
  {
    freed.Keys == status.Keys && forall e | e in status :: freed[e] == if e in c[..n] then Freed else status[e]
  }

  lemma FreeOne(status: map<nat, Status>, freed: map<nat, Status>, c: Chain, n: nat)
    requires n < |c| && NoDup(c) && c[n] in status && status[c[n]].Live?
    requires PartlyFreed(status, freed, c, n)
    ensures freed[c[n]].Live? && PartlyFreed(status, freed[c[n] := Freed], c, n + 1)
  {
    assert c[n] !in c[..n];
    assert c[..n + 1] == c[..n] + [c[n]];
  }

  /** The entries whose memory has not been given back. */
  function Allocated(status: map<nat, Status>): set<nat> {
    set e | e in status && !status[e].Freed?
  }

  /** kmem_cache_free: only an entry that is not freed yet can be freed, and one less is allocated then. */
  method FreeEntry(status: map<nat, Status>, e: nat) returns (freed: map<nat, Status>)
    requires e in status && status[e].Live?
    ensures freed == status[e := Freed]
    ensures Allocated(freed) == Allocated(status) - {e} && |Allocated(freed)| == |Allocated(status)| - 1
  {
    freed := status[e := Freed];
    assert Allocated(freed) == Allocated(status) - {e};
  }

  /**
   * Free a detached chain.  The first entry's back pointer still names the
   * bucket's own head, so each hlist_del_rcu stores the next entry there.
   */
  method FreeChain(next: Links, status: map<nat, Status>, saved: Option<nat>, ghost c: Chain)
    returns (head: Option<nat>, freed: map<nat, Status>, count: nat)
    requires saved == At(c, 0) && LinkedAs(next, c) && NoDup(c)
    requires forall i | 0 <= i < |c| :: c[i] in status && status[c[i]].Live?
    ensures head == None && count == |c|
    ensures freed.Keys == status.Keys
    ensures forall e | e in status :: freed[e] == if e in c then Freed else status[e]
    ensures |Allocated(freed)| == |Allocated(status)| - count
  {
    head, freed, count := None, status, 0;
    var cur := saved;
    while cur != None
      invariant 0 <= count <= |c| && cur == At(c, count)
      invariant head == if count == 0 then None else At(c, count)
      invariant PartlyFreed(status, freed, c, count)
      invariant |Allocated(freed)| == |Allocated(status)| - count
      decreases |c| - count
    {
      var e := cur.value;
      var node := next[e];
      FreeOne(status, freed, c, count);
      head := node;
      freed := FreeEntry(freed, e);
      count := count + 1;
      cur := node;
    }
    assert c[..count] == c;
  }

  ghost function Nums(ss: seq<State>): int {
    if ss == [] then 0 else Nums(ss[..|ss| - 1]) + ss[|ss| - 1].num
  }

  /** Nothing is left of a bucket: no chain, and every entry ever allocated has been freed. */
  ghost predicate Drained(s: State, s0: State) {
    && s.head == None && s.num == 0
    && s.entries == s0.entries
    && s.status.Keys == s0.entries.Keys
    && forall e | e in s.status :: s.status[e].Freed?
  }

  /** What flush needs of a bucket: a good chain of live entries and nothing in flight. */
  ghost predicate Settled(s: State) {
    && s.head == At(Last(s.log), 0) && s.num == |Last(s.log)|
    && LinkedAs(s.next, Last(s.log)) && NoDup(Last(s.log))
    && s.status.Keys == s.entries.Keys
    && (forall e | e in s.status :: s.status[e].Live? <==> e in Last(s.log))
    && (forall i | 0 <= i < |Last(s.log)| :: Last(s.log)[i] in s.status)
    && (forall e | e in s.status :: s.status[e].Live? || s.status[e].Queued? || s.status[e].Freed?)
  }

  lemma QuiescentSettles(s: State)
    requires Inv(s) && Quiescent(s)
    ensures Settled(s)
  {
    ChainNow(s);
    forall e | e in s.status ensures s.status[e].Live? || s.status[e].Queued? || s.status[e].Freed? {
      EntriesConserved(s, e);
    }
  }

  lemma NowDrained(s0: State, s: State, freed: map<nat, Status>)
    requires Settled(s0) && s == Barrier(Detached(s0))
    requires freed.Keys == s.status.Keys
    requires forall e | e in s.status :: freed[e] == if e in Last(s0.log) then Freed else s.status[e]
    ensures Drained(s.(head := None, status := freed), s0)
  {
    forall e | e in freed ensures freed[e].Freed? {
      assert s0.status[e].Live? || s0.status[e].Queued? || s0.status[e].Freed?;
    }
  }

  /** Free one detached bucket. */
  method FreeBucket(s: State, saved: Option<nat>, ghost s0: State) returns (s': State, count: nat)
    requires Settled(s0) && s == Barrier(Detached(s0)) && saved == s0.head
    ensures Drained(s', s0) && count == s0.num
  {
    var head, freed;
    head, freed, count := FreeChain(s.next, s.status, saved, Last(s0.log));
    NowDrained(s0, s, freed);
    s' := s.(head := head, status := freed);
  }

  method FreeAt(buckets: array<State>, heads: array<Option<nat>>, i: nat, ghost s0: State) returns (count: nat)
    requires i < buckets.Length == heads.Length
    requires Settled(s0) && buckets[i] == Barrier(Detached(s0)) && heads[i] == s0.head
    modifies buckets
    ensures Drained(buckets[i], s0) && count == s0.num
    ensures forall j | 0 <= j < buckets.Length && j != i :: buckets[j] == old(buckets[j])
  {
    var s;
    s, count := FreeBucket(buckets[i], heads[i], s0);
    buckets[i] := s;
  }

  lemma NumsSnoc(before: seq<State>, i: nat)
    requires i < |before|
    ensures Nums(before[..i + 1]) == Nums(before[..i]) + before[i].num
  {
    assert before[..i + 1][..i] == before[..i];
  }

  /** The second loop of pe_map_flush. */
  method FreeAll(buckets: array<State>, heads: array<Option<nat>>, ghost before: seq<State>) returns (count: int)
    requires heads.Length == buckets.Length == |before|
    requires forall i | 0 <= i < |before| :: Settled(before[i])
    requires forall i | 0 <= i < |before| :: heads[i] == before[i].head && buckets[i] == Barrier(Detached(before[i]))
    modifies buckets
    ensures forall i | 0 <= i < |before| :: Drained(buckets[i], before[i])
    ensures count == Nums(before)
  {
    count := 0;
    ghost var init := buckets[..];
    for i := 0 to buckets.Length
      invariant forall j | 0 <= j < i :: Drained(buckets[j], before[j])
      invariant forall j | i <= j < buckets.Length :: buckets[j] == init[j]
      invariant count == Nums(before[..i])
    {
      assert buckets[i] == init[i] == Barrier(Detached(before[i]));
      var n := FreeAt(buckets, heads, i, before[i]);
      count := count + n;
      NumsSnoc(before, i);
    }
    assert before[..buckets.Length] == before;
  }

  /** Every entry is freed exactly once: those in the chains here, the others by their callbacks. */
  method Flush(buckets: array<State>) returns (count: int)
    requires forall i | 0 <= i < buckets.Length :: Inv(buckets[i]) && Quiescent(buckets[i])
    modifies buckets
    ensures forall i | 0 <= i < buckets.Length :: Drained(buckets[i], old(buckets[i]))
    ensures count == Nums(old(buckets[..]))
  {
    ghost var before := buckets[..];
    forall i | 0 <= i < |before| ensures Settled(before[i]) {
      assert Inv(buckets[i]);
      QuiescentSettles(before[i]);
    }
    var heads := new Option<nat>[buckets.Length];
    DetachAll(buckets, heads);
    count := FreeAll(buckets, heads, before);
  }
}
