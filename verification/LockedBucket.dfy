/**
 * One bucket of the map that locks its readers too: a doubly linked list of
 * entries, values replaced in place, entries freed at once.  Each operation
 * runs under the bucket's lock, so it is one method here.
 */
module LockedBucket {
  import opened PeMapSpec

  // ---- Entries and their memory ----------------------------------------------------------------

  /** The key is stored right after the allocation and never again. */
  class Entry {
    const key: Key
    var value: Value
    var next: Entry?
    var prev: Entry?      // null stands for the bucket's head

    constructor (key: Key, value: Value)
      ensures this.key == key && this.value == value
    {
      this.key, this.value, next, prev := key, value, null, null;
    }
  }

  /** The slab cache: which entries are allocated.  Freeing needs an allocated entry. */
  class Cache {
    ghost var live: set<Entry>

    constructor ()
      ensures live == {}
    {
      live := {};
    }

    method Alloc(memory: bool, key: Key, value: Value) returns (e: Entry?)
      modifies this
      ensures e == null <==> !memory
      ensures e != null ==> fresh(e) && e.key == key && e.value == value
      ensures live == old(live) + if e == null then {} else {e}
    {
      if !memory {
        return null;
      }
      e := new Entry(key, value);
      live := live + {e};
    }

    method Free(e: Entry)
      requires e in live
      modifies this
      ensures live == old(live) - {e} && |live| == |old(live)| - 1
    {
      live := live - {e};
    }
  }

  function At(c: seq<Entry>, i: nat): Entry? {
    if i < |c| then c[i] else null
  }

  /** Entries with different keys are different entries. */
  predicate Distinct(c: seq<Entry>) {
    forall i, j | 0 <= i < j < |c| :: c[i].key != c[j].key
  }

  function Preceding(c: seq<Entry>, i: nat): Entry?
    requires i <= |c|
  {
    if i == 0 then null else c[i - 1]
  }

  /** With entry i cut out, the neighbours of the others are what they were, but for those of entry i. */
  lemma Cut(c: seq<Entry>, i: nat, j: nat)
    requires Distinct(c) && i < |c| && j < |c| - 1
    ensures var c', k := c[..i] + c[i + 1..], if j < i then j else j + 1;
      && c'[j] == c[k]
      && At(c', j + 1) == (if c[k] == Preceding(c, i) then At(c, i + 1) else At(c, k + 1))
      && Preceding(c', j) == (if c[k] == At(c, i + 1) then Preceding(c, i) else Preceding(c, k))
  {
    var k := if j < i then j else j + 1;
    assert c[k] == Preceding(c, i) <==> k == i - 1;
    assert c[k] == At(c, i + 1) <==> k == i + 1;
  }

  /** The entries' own fields link them in this order. */
  ghost predicate Linked(c: seq<Entry>)
    reads c
  {
    && (forall i {:trigger c[i].next} | 0 <= i < |c| :: c[i].next == At(c, i + 1))
    && (forall i {:trigger c[i].prev} | 0 <= i < |c| :: c[i].prev == Preceding(c, i))
  }

  /** Linked, but the neighbours of entry i are linked to each other. */
  ghost predicate LinkedPast(c: seq<Entry>, i: nat)
    requires i < |c|
    reads c
  {
    && (forall k {:trigger c[k].next} | 0 <= k < |c| ::
          c[k].next == if c[k] == Preceding(c, i) then At(c, i + 1) else At(c, k + 1))
    && (forall k {:trigger c[k].prev} | 0 <= k < |c| ::
          c[k].prev == if c[k] == At(c, i + 1) then Preceding(c, i) else Preceding(c, k))
  }

  lemma Around(c: seq<Entry>, i: nat)
    requires Distinct(c) && Linked(c) && i < |c|
    ensures c[i].prev == Preceding(c, i) && c[i].next == At(c, i + 1)
    ensures Preceding(c, i) != null ==> Preceding(c, i) in c && Preceding(c, i) != c[i]
    ensures At(c, i + 1) != null ==> At(c, i + 1) in c && At(c, i + 1) != c[i]
  {
  }

  lemma CutLinks(c: seq<Entry>, i: nat)
    requires Distinct(c) && i < |c| && LinkedPast(c, i)
    ensures var c' := c[..i] + c[i + 1..];
      Distinct(c') && Linked(c') && At(c', 0) == if i == 0 then At(c, 1) else At(c, 0)
  {
    var c' := c[..i] + c[i + 1..];
    forall j | 0 <= j < |c'| ensures c'[j].next == At(c', j + 1) && c'[j].prev == Preceding(c', j) {
      Cut(c, i, j);
    }
  }

  class Bucket {
    var head: Entry?
    var num: int
    ghost var chain: seq<Entry>

    ghost predicate Valid()
      reads this, chain
    {
      head == At(chain, 0) && num == |chain| && Distinct(chain) && Linked(chain)
    }

    ghost function List(): (p: Pairs)
      reads this, chain
      ensures |p| == |chain|
      ensures Distinct(chain) ==> KeysDiffer(p)
    {
      seq(|chain|, i requires 0 <= i < |chain| reads this, chain => (chain[i].key, chain[i].value))
    }

    /** The chain's entries are allocated. */
    ghost predicate Owned(cache: Cache)
      reads this, cache
    {
      forall i | 0 <= i < |chain| :: chain[i] in cache.live
    }

    ghost function Contents(): map<Key, Value>
      reads this, chain
    {
      MapOf(List())
    }

    constructor ()
      ensures Valid() && chain == [] && Contents() == map[]
    {
      head, num, chain := null, 0, [];
    }

    /** The traversal all operations share: the entry with the key, or null. */
    method Find(key: Key) returns (entry: Entry?, ghost i: nat)
      requires Valid()
      ensures entry == At(chain, i) && i <= |chain|
      ensures forall j | 0 <= j < i :: chain[j].key != key
      ensures i < |chain| ==> chain[i].key == key
    {
      entry, i := head, 0;
      while entry != null
        invariant i <= |chain| && entry == At(chain, i)
        invariant forall j | 0 <= j < i :: chain[j].key != key
        decreases |chain| - i
      {
        if entry.key == key {
          return;
        }
        entry := entry.next;
        i := i + 1;
      }
    }

    /** `hlist_add_head_rcu` and the count. */
    method AddHead(e: Entry)
      requires Valid() && forall j | 0 <= j < |chain| :: chain[j].key != e.key
      modifies this, e, chain
      ensures Valid() && chain == [e] + old(chain)
      ensures List() == [(e.key, old(e.value))] + old(List())
    {
      e.next, e.prev := head, null;
      if head != null {
        head.prev := e;
      }
      head := e;
      num := num + 1;
      chain := [e] + chain;
    }

    /** The same, seen on the map. */
    method AddNew(e: Entry)
      requires Valid() && forall j | 0 <= j < |chain| :: chain[j].key != e.key
      modifies this, e, chain
      ensures Valid() && chain == [e] + old(chain)
      ensures Contents() == old(Contents())[e.key := old(e.value)]
    {
      ghost var before := List();
      AddHead(e);
      assert List()[1..] == before;
    }

    /** `hlist_del_rcu`: the entry keeps its own links. */
    method Bypass(e: Entry, ghost i: nat)
      requires Distinct(chain) && Linked(chain) && i < |chain| && e == chain[i]
      modifies this`head, chain`next, chain`prev
      ensures LinkedPast(chain, i) && e.next == old(e.next)
      ensures head == if i == 0 then At(chain, 1) else old(head)
    {
      Around(chain, i);
      var next, prev := e.next, e.prev;
      if prev == null {
        head := next;
      } else {
        prev.next := next;
      }
      if next != null {
        next.prev := prev;
      }
    }

    /** The entry is out of the chain, and no longer counted. */
    method LinkOut(e: Entry, ghost i: nat)
      requires Valid() && i < |chain| && e == chain[i]
      modifies this, chain`next, chain`prev
      ensures Valid() && chain == old(chain[..i] + chain[i + 1..])
      ensures e.next == old(e.next)
    {
      Bypass(e, i);
      CutLinks(chain, i);
      num := num - 1;
      chain := chain[..i] + chain[i + 1..];
    }

    /** The same, seen on the list of pairs. */
    method Unlink(e: Entry, ghost i: nat)
      requires Valid() && i < |chain| && e == chain[i]
      modifies this, chain`next, chain`prev
      ensures Valid() && chain == old(chain[..i] + chain[i + 1..])
      ensures List() == DropAt(old(List()), i)
      ensures e.next == old(e.next)
    {
      LinkOut(e, i);
    }

    /** The value is replaced in place. */
    method SetValue(entry: Entry, ghost i: nat, value: Value)
      requires Valid() && i < |chain| && entry == chain[i]
      modifies entry`value
      ensures Valid()
      ensures Contents() == old(Contents())[entry.key := value]
    {
      ghost var before := List();
      MapSet(before, i, value);
      entry.value := value;
      assert List() == before[i := (entry.key, value)];
    }

    /** The new entry goes to the head, or gives its value to the entry with its key and is freed. */
    method Place(cache: Cache, new_entry: Entry)
      requires Valid() && Owned(cache) && new_entry in cache.live && new_entry !in chain
      modifies this, new_entry, chain, cache
      ensures Valid() && Owned(cache)
      ensures Contents() == old(Contents())[new_entry.key := old(new_entry.value)]
      ensures if new_entry.key in old(Contents())
              then chain == old(chain) && cache.live == old(cache.live) - {new_entry}
              else chain == [new_entry] + old(chain) && cache.live == old(cache.live)
    {
      var entry, i := Find(new_entry.key);
      ghost var before := List();
      MapKeys(before, new_entry.key);
      if entry != null {
        assert before[i].0 == new_entry.key;
        SetValue(entry, i, new_entry.value);
        cache.Free(new_entry);
      } else {
        AddNew(new_entry);
      }
    }

    /** `pe_map_insert`: the abstract map's update, or no change at all when there is no memory. */
    method Insert(cache: Cache, key: Key, value: Value, memory: bool) returns (ret: int)
      requires Valid() && Owned(cache)
      modifies this, chain, cache
      ensures Valid() && Owned(cache)
      ensures ret == if memory then 0 else -1
      ensures Contents() == if memory then old(Contents())[key := value] else old(Contents())
      ensures if memory && key !in old(Contents())
              then (exists e: Entry :: fresh(e) && e.key == key
                      && chain == [e] + old(chain) && cache.live == old(cache.live) + {e})
              else chain == old(chain) && cache.live == old(cache.live)
    {
      var new_entry := cache.Alloc(memory, key, value);
      if new_entry == null {
        return -1;
      }
      Place(cache, new_entry);
      return 0;
    }

    /** Unlink and free an entry. */
    method Drop(cache: Cache, entry: Entry, ghost i: nat)
      requires Valid() && Owned(cache) && i < |chain| && entry == chain[i]
      modifies this, chain, cache
      ensures Valid() && Owned(cache) && List() == DropAt(old(List()), i)
      ensures cache.live == old(cache.live) - {entry} && |cache.live| == |old(cache.live)| - 1
      ensures forall e :: e in old(chain) <==> e in chain || e == entry
    {
      Unlink(entry, i);
      cache.Free(entry);
    }

    /** `pe_map_remove`: the entry leaves the chain and is freed, no other does. */
    method Remove(cache: Cache, key: Key) returns (ret: int)
      requires Valid() && Owned(cache)
      modifies this, chain, cache
      ensures Valid() && Owned(cache)
      ensures ret == if key in old(Contents()) then 0 else -1
      ensures Contents() == old(Contents()) - {key}
      ensures forall k :: Lookup(Contents(), k) == if k == key then None else Lookup(old(Contents()), k)
      ensures forall e :: e in old(chain) && e !in chain <==> e in old(cache.live) && e !in cache.live
      ensures forall e | e in chain :: e in old(chain)
      ensures cache.live <= old(cache.live)
      ensures |cache.live| == |old(cache.live)| - if key in old(Contents()) then 1 else 0
    {
      var entry, i := Find(key);
      ghost var before := List();
      MapKeys(before, key);
      if entry == null {
        return -1;
      }
      assert before[i].0 == key;
      MapDelete(before, i);
      Drop(cache, entry, i);
      return 0;
    }

    /** `pe_map_get`. */
    method Get(key: Key) returns (ret: int, value: Value)
      requires Valid()
      ensures ret == if key in Contents() then 0 else -1
      ensures ret == 0 ==> value == Contents()[key]
    {
      value := 0;
      var entry, i := Find(key);
      ghost var list := List();
      MapKeys(list, key);
      if entry == null {
        return -1, value;
      }
      assert list[i].0 == key;
      MapAt(list, i);
      return 0, entry.value;
    }

    /** Unlink and free the first entry. */
    method FreeFirst(cache: Cache, entry: Entry)
      requires Valid() && Owned(cache) && entry == head
      modifies this, chain, cache
      ensures Valid() && Owned(cache) && chain == old(chain)[1..] && head == old(entry.next)
      ensures cache.live == old(cache.live) - {entry} && |cache.live| == |old(cache.live)| - 1
    {
      Unlink(entry, 0);
      cache.Free(entry);
    }

    /** The body of `pe_map_flush`: every entry is unlinked, then freed, once. */
    method Flush(cache: Cache) returns (count: nat)
      requires Valid() && Owned(cache)
      modifies this, chain, cache
      ensures Valid() && chain == [] && Contents() == map[]
      ensures forall e :: e in cache.live <==> e in old(cache.live) && e !in old(chain)
      ensures count + |cache.live| == |old(cache.live)|
    {
      ghost var before := chain;
      count := 0;
      var entry := head;
      while entry != null
        invariant Valid() && Owned(cache) && entry == head
        invariant count <= |before| && chain == before[count..]
        invariant forall e :: e in cache.live <==> e in old(cache.live) && e !in before[..count]
        invariant count + |cache.live| == |old(cache.live)|
        decreases |chain|
      {
        var node := entry.next;
        assert before[..count + 1] == before[..count] + [entry];
        FreeFirst(cache, entry);
        count := count + 1;
        entry := node;
      }
      assert before[..count] == before;
    }

    /** The counter is the number of keys. */
    lemma NumIsSize()
      requires Valid()
      ensures num == |Contents()|
    {
      MapSize(List());
    }
  }
}
