/**
 * The locked map: a table of buckets over one slab cache.  Every operation runs
 * under the lock of the one bucket it touches, so it is one method here.
 */
module LockedMap {
  import opened PeMapSpec
  import opened LockedBucket

  predicate Separate(buckets: map<Word, Bucket>) {
    forall v, w | v in buckets && w in buckets && v != w :: buckets[v] != buckets[w]
  }

  class Table {
    const index: Key -> Word      // the bucket of a key, by the hash and the table's mask
    const buckets: map<Word, Bucket>
    const cache: Cache

    /** A good list of allocated entries, each key in the bucket its hash selects. */
    ghost predicate BucketOk(w: Word)
      reads this, buckets.Values, cache, cache.live
      requires w in buckets
    {
      && buckets[w].Owned(cache) && buckets[w].Valid()
      && forall e | e in buckets[w].chain :: index(e.key) == w
    }

    /** The entry is in the bucket of its key. */
    ghost predicate Here(e: Entry)
      reads this, buckets.Values
    {
      index(e.key) in buckets && e in buckets[index(e.key)].chain
    }

    /** The buckets are good and apart, and every allocated entry is in one of them: none has leaked. */
    ghost predicate Valid()
      reads this, buckets.Values, cache, cache.live
    {
      && (forall k :: index(k) in buckets)
      && (forall w {:trigger BucketOk(w)} | w in buckets :: BucketOk(w))
      && Separate(buckets)
      && (forall e | e in cache.live :: Here(e))
    }

    /** The abstract map, key by key. */
    ghost function ValueOf(k: Key): Option<Value>
      reads *
    {
      if index(k) in buckets then Lookup(buckets[index(k)].Contents(), k) else None
    }

    /** Empty buckets, as many as the mask selects, and no entry allocated. */
    constructor (mask: bv64, all: map<Word, Bucket>)
      requires (forall b: Word | b.bits <= mask :: b in all) && Separate(all)
      requires forall b | b in all :: all[b].Valid() && all[b].chain == []
      ensures Valid() && buckets == all && cache.live == {} && fresh(cache)
      ensures forall k :: index(k) == Index(k, mask) && ValueOf(k) == None
    {
      index := k => Index(k, mask);
      buckets := all;
      cache := new Cache();
      new;
      forall k ensures index(k) in buckets { IndexInRange(k, mask); }
    }

    /** No entry is in two buckets, because keys tell buckets apart. */
    lemma Apart(v: Word, w: Word, e: Entry)
      requires v in buckets && w in buckets && BucketOk(v) && BucketOk(w) && v != w
      ensures !(e in buckets[v].chain && e in buckets[w].chain)
    {
    }

    /** `pe_map_insert` in the bucket of the key: the other buckets stay as they are. */
    method InsertAt(w: Word, key: Key, value: Value, memory: bool) returns (ret: int)
      requires w in buckets && index(key) == w && Separate(buckets)
      requires forall v {:trigger BucketOk(v)} | v in buckets :: BucketOk(v)
      modifies buckets.Values, cache, cache.live
      ensures forall v {:trigger BucketOk(v)} | v in buckets :: BucketOk(v)
      ensures forall v | v in buckets && v != w :: buckets[v].chain == old(buckets[v].chain)
      ensures forall v | v in buckets && v != w :: buckets[v].Contents() == old(buckets[v].Contents())
      ensures ret == if memory then 0 else -1
      ensures buckets[w].Contents()
           == if memory then old(buckets[w].Contents())[key := value] else old(buckets[w].Contents())
      ensures forall e | e in old(buckets[w].chain) :: e in buckets[w].chain
      ensures forall e | e in cache.live :: e in old(cache.live) || (fresh(e) && e in buckets[w].chain)
      ensures |cache.live| == |old(cache.live)| + if memory && key !in old(buckets[w].Contents()) then 1 else 0
    {
      var bucket := buckets[w];
      assert BucketOk(w);
      forall v, e | v in buckets && v != w && e in buckets[v].chain ensures e !in bucket.chain {
        Apart(v, w, e);
      }
      ret := bucket.Insert(cache, key, value, memory);
      assert BucketOk(w);
      forall v | v in buckets && v != w
        ensures BucketOk(v) && buckets[v].chain == old(buckets[v].chain)
        ensures buckets[v].Contents() == old(buckets[v].Contents())
      {
        assert old(BucketOk(v));
      }
    }

    /** The map stays good, and only one bucket's map changes. */
    method InsertIn(w: Word, key: Key, value: Value, memory: bool) returns (ret: int)
      requires w == index(key) && Valid()
      modifies buckets.Values, cache, cache.live
      ensures Valid()
      ensures ret == if memory then 0 else -1
      ensures forall v | v in buckets && v != w :: buckets[v].Contents() == old(buckets[v].Contents())
      ensures buckets[w].Contents()
           == if memory then old(buckets[w].Contents())[key := value] else old(buckets[w].Contents())
      ensures |cache.live| == |old(cache.live)| + if memory && key !in old(buckets[w].Contents()) then 1 else 0
    {
      ret := InsertAt(w, key, value, memory);
      assert BucketOk(w);
      forall e | e in cache.live ensures Here(e) {
        if e in old(cache.live) {
          assert old(Here(e));
        }
      }
    }

    /** `pe_map_insert`: one entry is allocated for a new key, none otherwise. */
    method Insert(key: Key, value: Value, memory: bool) returns (ret: int)
      requires Valid()
      modifies buckets.Values, cache, cache.live
      ensures Valid()
      ensures ret == if memory then 0 else -1
      ensures forall k :: ValueOf(k) == if k == key && memory then Some(value) else old(ValueOf(k))
      ensures |cache.live| == |old(cache.live)| + if memory && old(ValueOf(key)) == None then 1 else 0
    {
      ret := InsertIn(index(key), key, value, memory);
    }

    /** `pe_map_remove` in the bucket of the key. */
    method RemoveAt(w: Word, key: Key) returns (ret: int)
      requires w in buckets && Separate(buckets)
      requires forall v {:trigger BucketOk(v)} | v in buckets :: BucketOk(v)
      modifies buckets.Values, cache, cache.live
      ensures forall v {:trigger BucketOk(v)} | v in buckets :: BucketOk(v)
      ensures forall v | v in buckets && v != w :: buckets[v].chain == old(buckets[v].chain)
      ensures forall v | v in buckets && v != w :: buckets[v].Contents() == old(buckets[v].Contents())
      ensures ret == if key in old(buckets[w].Contents()) then 0 else -1
      ensures forall k :: Lookup(buckets[w].Contents(), k)
                       == if k == key then None else Lookup(old(buckets[w].Contents()), k)
      ensures forall e | e in old(buckets[w].chain) && e in cache.live :: e in buckets[w].chain
      ensures cache.live <= old(cache.live)
      ensures |cache.live| == |old(cache.live)| - if key in old(buckets[w].Contents()) then 1 else 0
    {
      var bucket := buckets[w];
      assert BucketOk(w);
      forall v, e | v in buckets && v != w && e in buckets[v].chain ensures e !in bucket.chain {
        Apart(v, w, e);
      }
      ret := bucket.Remove(cache, key);
      assert BucketOk(w);
      forall v | v in buckets && v != w
        ensures BucketOk(v) && buckets[v].chain == old(buckets[v].chain)
        ensures buckets[v].Contents() == old(buckets[v].Contents())
      {
        assert old(BucketOk(v));
      }
    }

    /** The map stays good, and only one bucket's map changes. */
    method RemoveIn(w: Word, key: Key) returns (ret: int)
      requires w == index(key) && Valid()
      modifies buckets.Values, cache, cache.live
      ensures Valid()
      ensures ret == if key in old(buckets[w].Contents()) then 0 else -1
      ensures forall v | v in buckets && v != w :: buckets[v].Contents() == old(buckets[v].Contents())
      ensures forall k :: Lookup(buckets[w].Contents(), k)
                       == if k == key then None else Lookup(old(buckets[w].Contents()), k)
      ensures |cache.live| == |old(cache.live)| - if key in old(buckets[w].Contents()) then 1 else 0
    {
      ret := RemoveAt(w, key);
      forall e | e in cache.live ensures Here(e) {
        assert old(Here(e));
      }
    }

    /** `pe_map_remove`: one entry is freed for a present key, none otherwise. */
    method Remove(key: Key) returns (ret: int)
      requires Valid()
      modifies buckets.Values, cache, cache.live
      ensures Valid()
      ensures ret == if old(ValueOf(key)) == None then -1 else 0
      ensures |cache.live| == |old(cache.live)| - if old(ValueOf(key)) == None then 0 else 1
      ensures forall k :: ValueOf(k) == if k == key then None else old(ValueOf(k))
    {
      ret := RemoveIn(index(key), key);
    }

    /** `pe_map_get`. */
    method Get(key: Key) returns (ret: int, value: Value)
      requires Valid()
      ensures ret == 0 ==> ValueOf(key) == Some(value)
      ensures ret == -1 ==> ValueOf(key) == None
      ensures ret == 0 || ret == -1
    {
      assert BucketOk(index(key));
      ret, value := buckets[index(key)].Get(key);
    }

    /** `pe_map_flush` of one bucket: the others stay as they are. */
    method FlushIn(bucket: Bucket, ghost w: Word) returns (count: nat)
      requires w in buckets && buckets[w] == bucket && Separate(buckets)
      requires forall v {:trigger BucketOk(v)} | v in buckets :: BucketOk(v)
      modifies bucket, bucket.chain, cache
      ensures forall v {:trigger BucketOk(v)} | v in buckets :: BucketOk(v)
      ensures buckets[w].chain == [] && forall v | v in buckets && v != w :: buckets[v].chain == old(buckets[v].chain)
      ensures forall e :: e in cache.live <==> e in old(cache.live) && e !in old(buckets[w].chain)
      ensures count + |cache.live| == |old(cache.live)|
    {
      assert BucketOk(w);
      forall v, e | v in buckets && v != w && e in buckets[v].chain ensures e !in bucket.chain {
        Apart(v, w, e);
      }
      count := bucket.Flush(cache);
      assert BucketOk(w);
      forall v | v in buckets && v != w ensures BucketOk(v) && buckets[v].chain == old(buckets[v].chain) {
        assert old(BucketOk(v));
      }
    }

    /** What is still allocated sits in the buckets to be flushed. */
    ghost predicate LeftIn(rest: set<Bucket>)
      reads this, cache
    {
      forall e | e in cache.live :: index(e.key) in buckets && buckets[index(e.key)] in rest
    }

    method FlushOne(bucket: Bucket, ghost rest: set<Bucket>) returns (count: nat)
      requires bucket in buckets.Values && Valid() && LeftIn(rest)
      modifies bucket, bucket.chain, cache
      ensures Valid() && LeftIn(rest - {bucket})
      ensures cache.live <= old(cache.live)
      ensures count + |cache.live| == |old(cache.live)|
    {
      ghost var w :| w in buckets && buckets[w] == bucket;
      count := FlushIn(bucket, w);
      forall e | e in cache.live ensures Here(e) {
        assert old(Here(e));
        assert index(e.key) != w;
      }
    }

    /** With nothing allocated the map is empty. */
    lemma Emptied()
      requires Valid() && cache.live == {}
      ensures forall k :: ValueOf(k) == None
    {
      forall k ensures ValueOf(k) == None {
        assert BucketOk(index(k));
      }
    }

    lemma BucketGood(b: Bucket)
      requires Valid() && b in buckets.Values
      ensures b.Owned(cache)
    {
      var w :| w in buckets && buckets[w] == b;
      assert BucketOk(w);
    }

    /** `pe_map_flush`: every entry is freed, so the cache can be destroyed. */
    method Flush() returns (count: nat)
      requires Valid()
      modifies buckets.Values, cache, cache.live
      ensures Valid() && cache.live == {} && count == |old(cache.live)|
      ensures forall k :: ValueOf(k) == None
    {
      count := 0;
      var rest: set<Bucket> := buckets.Values;
      while exists b :: b in rest
        invariant rest <= buckets.Values && cache.live <= old(cache.live)
        invariant Valid()
        invariant LeftIn(rest)
        invariant count + |cache.live| == |old(cache.live)|
        decreases rest
      {
        var bucket :| bucket in rest;
        BucketGood(bucket);
        var n := FlushOne(bucket, rest);
        count := count + n;
        rest := rest - {bucket};
      }
      assert cache.live == {};
      Emptied();
    }
  }
}
