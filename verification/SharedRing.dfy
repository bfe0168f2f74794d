/** The critical sections of bbq_put and bbq_take, on the shared buffer itself. */
module SharedRing {
  import opened FifoProgram
  import opened BoundedQueue

  /** The n items from counter f on. */
  function Window(slots: seq<Item>, f: nat, n: nat): seq<Item>
    requires |slots| > 0
  {
    seq(n, k requires 0 <= k < n => slots[(f + k) % |slots|])
  }

  /** Storing behind a window that leaves a slot free extends it and changes nothing in it. */
  lemma StoreExtends(slots: seq<Item>, f: nat, n: nat, x: Item)
    requires n < |slots|
    ensures Window(Store(slots, f + n, x), f, n + 1) == Window(slots, f, n) + [x]
  {
    var slots' := Store(slots, f + n, x);
    forall k | 0 <= k < n ensures Window(slots', f, n + 1)[k] == Window(slots, f, n)[k] {
      SlotsDiffer(f + k, f + n, |slots|);
    }
  }

  lemma FetchShrinks(slots: seq<Item>, f: nat, n: nat)
    requires |slots| > 0 && n > 0
    ensures Window(slots, f, n) == [Fetch(slots, f)] + Window(slots, f + 1, n - 1)
  {
    var w := Window(slots, f + 1, n - 1);
    forall k | 0 < k < n ensures Window(slots, f, n)[k] == w[k - 1] {
      assert f + k == f + 1 + (k - 1);
    }
  }

  class BoundedBlockingQueue {
    const que: array<Item>
    var f: nat
    var p: nat

    /** What the counting semaphores guarantee whenever the mutex is free. */
    ghost predicate Valid()
      reads this
    {
      que.Length > 0 && f <= p <= f + que.Length
    }

    /** The items that were put and not yet taken, oldest first. */
    ghost function Contents(): seq<Item>
      reads this, que
      requires Valid()
    {
      Window(que[..], f, p - f)
    }

    constructor (queue_size: nat)
      requires queue_size > 0
      ensures Valid() && Contents() == [] && que.Length == queue_size && fresh(que)
    {
      que := new Item[queue_size](_ => Stop);
      f, p := 0, 0;
    }

    /** bbq_put between the two operations on the mutex, with a free slot reserved. */
    method PutItem(x: Item)
      requires Valid() && p - f < que.Length
      modifies this`p, que
      ensures Valid() && p == old(p) + 1
      ensures que[..] == Store(old(que[..]), old(p), x)
      ensures Contents() == old(Contents()) + [x]
    {
      StoreExtends(que[..], f, p - f, x);
      que[p % que.Length] := x;
      p := p + 1;
    }

    /** bbq_take between the two operations on the mutex, with an item reserved. */
    method TakeItem() returns (x: Item)
      requires Valid() && f < p
      modifies this`f
      ensures Valid() && f == old(f) + 1
      ensures x == Fetch(que[..], old(f))
      ensures [x] + Contents() == old(Contents())
    {
      FetchShrinks(que[..], f, p - f);
      x := que[f % que.Length];
      f := f + 1;
    }
  }
}
