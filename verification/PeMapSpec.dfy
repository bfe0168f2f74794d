/**
 * Vocabulary shared by the two /proc hash maps: the key type, the hash that
 * picks a bucket, and lookup in the abstract map both implementations refine.
 */
module PeMapSpec {

  datatype Option<+T> = None | Some(value: T)

  /** A 64-bit machine word. */
  datatype Word = Word(bits: bv64)

  /** A `long long` key as its bit pattern: keys are only hashed and compared. */
  type Key = Word

  /** A `long long` value: values are only stored and copied back. */
  type Value = int

  function Hash(key: Key): bv64 {
    key.bits ^ (key.bits >> 16) ^ (key.bits >> 32) ^ (key.bits >> 48)
  }

  /** The bucket of a key in a table of mask + 1 buckets. */
  function Index(key: Key, mask: bv64): Word {
    Word(Hash(key) & mask)
  }

  /** The table index is always within the table. */
  lemma IndexInRange(key: Key, mask: bv64)
    ensures Index(key, mask).bits <= mask
  {
    var h := Hash(key);
    assert h & mask <= mask;
  }

  function Lookup(m: map<Key, Value>, key: Key): Option<Value> {
    if key in m then Some(m[key]) else None
  }

  // ---- Lists of pairs as maps --------------------------------------------------------------

  type Pairs = seq<(Key, Value)>

  function MapOf(p: Pairs): map<Key, Value> {
    if p == [] then map[] else MapOf(p[1..])[p[0].0 := p[0].1]
  }

  predicate KeysDiffer(p: Pairs) {
    forall i, j | 0 <= i < j < |p| :: p[i].0 != p[j].0
  }

  predicate Absent(p: Pairs, k: Key) {
    forall i | 0 <= i < |p| :: p[i].0 != k
  }

  lemma {:induction false} MapKeys(p: Pairs, k: Key)
    ensures k in MapOf(p) <==> !Absent(p, k)
  {
    if p != [] {
      MapKeys(p[1..], k);
      assert Absent(p, k) <==> p[0].0 != k && Absent(p[1..], k) by {
        if p[0].0 != k && Absent(p[1..], k) {
          forall i | 0 <= i < |p| ensures p[i].0 != k { assert i > 0 ==> p[i] == p[1..][i - 1]; }
        }
        if Absent(p, k) {
          forall i | 0 <= i < |p[1..]| ensures p[1..][i].0 != k { assert p[1..][i] == p[i + 1]; }
        }
      }
    }
  }

  lemma {:induction false} MapAt(p: Pairs, i: nat)
    requires KeysDiffer(p) && i < |p|
    ensures p[i].0 in MapOf(p) && MapOf(p)[p[i].0] == p[i].1
  {
    if i > 0 { MapAt(p[1..], i - 1); }
  }

  lemma {:induction false} MapSet(p: Pairs, i: nat, v: Value)
    requires KeysDiffer(p) && i < |p|
    ensures MapOf(p[i := (p[i].0, v)]) == MapOf(p)[p[i].0 := v]
  {
    var q := p[i := (p[i].0, v)];
    if i > 0 {
      assert q[1..] == p[1..][i - 1 := (p[i].0, v)];
      MapSet(p[1..], i - 1, v);
      assert p[0].0 != p[i].0;
    } else {
      assert q[1..] == p[1..];
    }
  }

  function DropAt(p: Pairs, i: nat): Pairs
    requires i < |p|
  {
    p[..i] + p[i + 1..]
  }

  lemma {:induction false} MapDelete(p: Pairs, i: nat)
    requires KeysDiffer(p) && i < |p|
    ensures MapOf(DropAt(p, i)) == MapOf(p) - {p[i].0}
  {
    if i == 0 {
      assert DropAt(p, 0) == p[1..];
      MapKeys(p[1..], p[0].0);
      assert Absent(p[1..], p[0].0);
    } else {
      assert DropAt(p, i)[1..] == DropAt(p[1..], i - 1);
      MapDelete(p[1..], i - 1);
      assert p[0].0 != p[i].0;
    }
  }

  lemma {:induction false} MapSize(p: Pairs)
    requires KeysDiffer(p)
    ensures |MapOf(p)| == |p|
  {
    if p != [] {
      MapSize(p[1..]);
      MapKeys(p[1..], p[0].0);
      assert Absent(p[1..], p[0].0);
    }
  }
}
