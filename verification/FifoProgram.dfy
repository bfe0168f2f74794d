/**
 * Any number of producers and consumers around one FIFO queue, seen at the level at
 * which a put and a take are single steps.  Two ways of stopping are covered:
 * every producer ends with a stop object and a consumer ends on taking one; or
 * producers and consumers end when a shared counter passes a total.
 *
 * The queues themselves are in other modules; each is shown to make only these
 * steps, so what is proved here holds of all of them.
 */
module FifoProgram {
  import opened Counting

  /** What travels through a queue.  A stop object is a node with author -1, or a null pointer. */
  datatype Item = Work(author: nat, id: nat) | Stop

  datatype Kind =
    | StopObjects(items: nat)
    | Counted(total: nat)

  /** The local variables of a producer: how many puts it has made, and whether its loop goes on. */
  datatype Producer = Producer(made: nat, going: bool)

  /** A consumer: what it has taken, and whether its loop goes on. */
  datatype Consumer = Consumer(got: seq<Item>, going: bool)

  datatype State = State(
    kind: Kind,
    puts: seq<Item>,          // every put, in order
    taken: nat,               // how many of them have been taken
    prods: seq<Producer>,
    cons: seq<Consumer>)

  /** The node producer i puts next; `p` is the shared counter of puts. */
  function ItemOf(kind: Kind, i: nat, pr: Producer, p: nat): Item {
    match kind
    case StopObjects(items) => if pr.made < items then Work(i, pr.made) else Stop
    case Counted(_) => Work(i, p)
  }

  function AfterPut(kind: Kind, pr: Producer, p: nat): Producer {
    match kind
    case StopObjects(items) => Producer(pr.made + 1, pr.made < items)
    case Counted(total) => Producer(pr.made + 1, p + 1 <= total)
  }

  /** What a consumer does with the item x; `f` is the shared counter of takes. */
  function AfterTake(kind: Kind, co: Consumer, f: nat, x: Item): Consumer {
    match kind
    case StopObjects(_) => Consumer(co.got + [x], x != Stop)
    case Counted(total) => Consumer(co.got + [x], f + 1 <= total)
  }

  function Init(kind: Kind, n: nat, c: nat): State {
    State(kind, [], 0, seq(n, _ => Producer(0, true)), seq(c, _ => Consumer([], true)))
  }

  predicate CanPut(s: State, i: nat) {
    i < |s.prods| && s.prods[i].going
  }

  predicate CanTake(s: State, j: nat) {
    j < |s.cons| && s.cons[j].going && s.taken < |s.puts|
  }

  function Put(s: State, i: nat): State
    requires CanPut(s, i)
  {
    s.(puts := s.puts + [ItemOf(s.kind, i, s.prods[i], |s.puts|)],
       prods := s.prods[i := AfterPut(s.kind, s.prods[i], |s.puts|)])
  }

  function Take(s: State, j: nat): State
    requires CanTake(s, j)
  {
    s.(taken := s.taken + 1,
       cons := s.cons[j := AfterTake(s.kind, s.cons[j], s.taken, s.puts[s.taken])])
  }

  predicate ProducersDone(s: State) {
    forall i | 0 <= i < |s.prods| :: !s.prods[i].going
  }

  predicate ConsumersDone(s: State) {
    forall j | 0 <= j < |s.cons| :: !s.cons[j].going
  }

  /** How many puts the whole program makes with n producers. */
  function Total(kind: Kind, n: nat): nat {
    match kind
    case StopObjects(items) => n * (items + 1)
    case Counted(total) => if n == 0 then 0 else total + n
  }

  // ---- Weights -----------------------------------------------------------------

  function IsStop(x: Item): int { Bit(x == Stop) }
  function Made(pr: Producer): int { pr.made }
  function ProducerEnded(pr: Producer): int { Bit(!pr.going) }
  function ConsumerEnded(co: Consumer): int { Bit(!co.going) }

  /** The nodes of one author, in the order they were put. */
  function By(puts: seq<Item>, author: nat): seq<Item> {
    if puts == [] then []
    else
      var x := puts[|puts| - 1];
      By(puts[..|puts| - 1], author) + if x.Work? && x.author == author then [x] else []
  }

  function Works(author: nat, m: nat): seq<Item> {
    seq(m, d requires 0 <= d < m => Work(author, d))
  }

  /** Everything the consumers have taken, counted. */
  function Got(cons: seq<Consumer>): multiset<Item> {
    if cons == [] then multiset{}
    else Got(cons[..|cons| - 1]) + multiset(cons[|cons| - 1].got)
  }

  // ---- The invariant -------------------------------------------------------------

  ghost predicate Common(s: State) {
    && s.taken <= |s.puts|
    && |s.puts| == Sum(s.prods, Made)
    && Got(s.cons) == multiset(s.puts[..s.taken])
  }

  /** A consumer stops on its first stop object, which is the last thing it takes. */
  predicate StopsOnce(co: Consumer) {
    if co.going then Stop !in co.got
    else co.got != [] && co.got[|co.got| - 1] == Stop && Stop !in co.got[..|co.got| - 1]
  }

  ghost predicate StopObjectsOk(s: State)
    requires s.kind.StopObjects? && s.taken <= |s.puts|
  {
    && (forall i | 0 <= i < |s.prods| ::
          var pr := s.prods[i];
          pr.made <= s.kind.items + 1 && (pr.going <==> pr.made <= s.kind.items))
    && (forall i | 0 <= i < |s.prods| ::
          By(s.puts, i) == Works(i, if s.prods[i].going then s.prods[i].made else s.kind.items))
    && (forall m | 0 <= m < |s.puts| :: s.puts[m].Work? ==> s.puts[m].author < |s.prods|)
    && Sum(s.puts, IsStop) == Sum(s.prods, ProducerEnded)
    && Sum(s.puts[..s.taken], IsStop) == Sum(s.cons, ConsumerEnded)
    && (forall j | 0 <= j < |s.cons| :: StopsOnce(s.cons[j]))
    // The last stop object is the last node of all.
    && (forall m | 0 <= m < |s.puts| :: Sum(s.puts[..m], IsStop) < |s.prods|)
  }

  function Excess(count: nat, total: nat): nat {
    if count > total then count - total else 0
  }

  ghost predicate CountedOk(s: State)
    requires s.kind.Counted?
  {
    && (forall m | 0 <= m < |s.puts| :: s.puts[m].Work? && s.puts[m].id == m)
    && Sum(s.prods, ProducerEnded) == Excess(|s.puts|, s.kind.total)
    && Sum(s.cons, ConsumerEnded) == Excess(s.taken, s.kind.total)
  }

  ghost predicate Inv(s: State) {
    && Common(s)
    && match s.kind
       case StopObjects(_) => StopObjectsOk(s)
       case Counted(_) => CountedOk(s)
  }

  lemma {:induction false} GotNothing(cons: seq<Consumer>)
    requires forall j | 0 <= j < |cons| :: cons[j].got == []
    ensures Got(cons) == multiset{}
  {
    if cons != [] { GotNothing(cons[..|cons| - 1]); }
  }

  lemma InitInv(kind: Kind, n: nat, c: nat)
    ensures Inv(Init(kind, n, c))
  {
    var s := Init(kind, n, c);
    SumOfConstant(s.prods, Made, 0);
    SumOfConstant(s.prods, ProducerEnded, 0);
    SumOfConstant(s.cons, ConsumerEnded, 0);
    GotNothing(s.cons);
  }

  // ---- A put ------------------------------------------------------------------------

  lemma PutCommon(s: State, i: nat)
    requires Common(s) && CanPut(s, i)
    ensures Common(Put(s, i))
  {
    var s' := Put(s, i);
    SumUpdate(s.prods, i, s'.prods[i], Made);
    assert s'.puts[..s.taken] == s.puts[..s.taken];
  }

  lemma BySnoc(puts: seq<Item>, x: Item, author: nat)
    ensures By(puts + [x], author) == By(puts, author) + if x.Work? && x.author == author then [x] else []
  {
    assert (puts + [x])[..|puts|] == puts;
  }

  /** A producer that still goes on has not put its stop object: fewer than N have. */
  lemma NotAllEnded(prods: seq<Producer>, i: nat)
    requires i < |prods| && prods[i].going
    ensures Sum(prods, ProducerEnded) < |prods|
  {
    SumAtMost(prods, ProducerEnded, 1);
    if Sum(prods, ProducerEnded) == |prods| { SumIsFull(prods, ProducerEnded, i); }
  }

  /** A put adds to the nodes of its own producer only, and stop objects to nobody's. */
  lemma PutOfOne(s: State, i: nat, k: nat)
    requires s.kind.StopObjects? && s.taken <= |s.puts| && StopObjectsOk(s) && CanPut(s, i) && k < |s.prods|
    ensures var pr := Put(s, i).prods[k];
      By(Put(s, i).puts, k) == Works(k, if pr.going then pr.made else s.kind.items)
  {
    BySnoc(s.puts, ItemOf(s.kind, i, s.prods[i], |s.puts|), k);
  }

  lemma PutStopObjects(s: State, i: nat)
    requires s.kind.StopObjects? && Common(s) && StopObjectsOk(s) && CanPut(s, i)
    ensures StopObjectsOk(Put(s, i))
  {
    var s', x := Put(s, i), ItemOf(s.kind, i, s.prods[i], |s.puts|);
    SumSnoc(s.puts, x, IsStop);
    SumUpdate(s.prods, i, s'.prods[i], ProducerEnded);
    assert s'.puts[..s.taken] == s.puts[..s.taken];
    forall k | 0 <= k < |s'.prods|
      ensures By(s'.puts, k) == Works(k, if s'.prods[k].going then s'.prods[k].made else s.kind.items)
    {
      PutOfOne(s, i, k);
    }
    NotAllEnded(s.prods, i);
    forall m | 0 <= m < |s'.puts| ensures Sum(s'.puts[..m], IsStop) < |s.prods| {
      assert s'.puts[..m] == s.puts[..m];
      if m == |s.puts| { assert s.puts[..m] == s.puts; }
    }
  }

  lemma PutCounted(s: State, i: nat)
    requires s.kind.Counted? && Common(s) && CountedOk(s) && CanPut(s, i)
    ensures CountedOk(Put(s, i))
  {
    SumUpdate(s.prods, i, Put(s, i).prods[i], ProducerEnded);
  }

  lemma PutInv(s: State, i: nat)
    requires Inv(s) && CanPut(s, i)
    ensures Inv(Put(s, i))
  {
    PutCommon(s, i);
    if s.kind.StopObjects? { PutStopObjects(s, i); } else { PutCounted(s, i); }
  }

  // ---- A take -------------------------------------------------------------------------

  lemma {:induction false} GotUpdate(cons: seq<Consumer>, j: nat, x: Item, going: bool)
    requires j < |cons|
    ensures Got(cons[j := Consumer(cons[j].got + [x], going)]) == Got(cons) + multiset{x}
  {
    var n := |cons| - 1;
    var cons' := cons[j := Consumer(cons[j].got + [x], going)];
    if j < n {
      GotUpdate(cons[..n], j, x, going);
      assert cons'[..n] == cons[..n][j := Consumer(cons[j].got + [x], going)];
    } else {
      assert cons'[..n] == cons[..n];
    }
  }

  lemma OneMoreTaken(puts: seq<Item>, taken: nat)
    requires taken < |puts|
    ensures multiset(puts[..taken + 1]) == multiset(puts[..taken]) + multiset{puts[taken]}
  {
    assert puts[..taken + 1] == puts[..taken] + [puts[taken]];
  }

  /** The consumers' takings grow by exactly the item at the front. */
  lemma GotOneMore(puts: seq<Item>, taken: nat, cons: seq<Consumer>, j: nat, going: bool)
    requires taken < |puts| && j < |cons| && Got(cons) == multiset(puts[..taken])
    ensures Got(cons[j := Consumer(cons[j].got + [puts[taken]], going)]) == multiset(puts[..taken + 1])
  {
    GotUpdate(cons, j, puts[taken], going);
    OneMoreTaken(puts, taken);
  }

  lemma TakeCommon(s: State, j: nat)
    requires Common(s) && CanTake(s, j)
    ensures Common(Take(s, j))
  {
    GotOneMore(s.puts, s.taken, s.cons, j, Take(s, j).cons[j].going);
  }

  lemma TakeStopObjects(s: State, j: nat)
    requires s.kind.StopObjects? && Common(s) && StopObjectsOk(s) && CanTake(s, j)
    ensures StopObjectsOk(Take(s, j))
  {
    var s', x := Take(s, j), s.puts[s.taken];
    assert s.puts[..s.taken + 1] == s.puts[..s.taken] + [x];
    SumSnoc(s.puts[..s.taken], x, IsStop);
    SumUpdate(s.cons, j, s'.cons[j], ConsumerEnded);
    assert s'.cons[j].got[..|s.cons[j].got|] == s.cons[j].got;
    assert StopsOnce(s.cons[j]);
  }

  lemma TakeCounted(s: State, j: nat)
    requires s.kind.Counted? && Common(s) && CountedOk(s) && CanTake(s, j)
    ensures CountedOk(Take(s, j))
  {
    SumUpdate(s.cons, j, Take(s, j).cons[j], ConsumerEnded);
  }

  lemma TakeInv(s: State, j: nat)
    requires Inv(s) && CanTake(s, j)
    ensures Inv(Take(s, j))
  {
    TakeCommon(s, j);
    if s.kind.StopObjects? { TakeStopObjects(s, j); } else { TakeCounted(s, j); }
  }

  // ---- Why nobody is left waiting -----------------------------------------------------

  lemma DoneSum(s: State)
    ensures ProducersDone(s) <==> Sum(s.prods, ProducerEnded) == |s.prods|
    ensures ConsumersDone(s) <==> Sum(s.cons, ConsumerEnded) == |s.cons|
  {
    if ProducersDone(s) {
      SumOfConstant(s.prods, ProducerEnded, 1);
    } else if Sum(s.prods, ProducerEnded) == |s.prods| {
      var i :| 0 <= i < |s.prods| && s.prods[i].going;
      SumIsFull(s.prods, ProducerEnded, i);
    }
    if ConsumersDone(s) {
      SumOfConstant(s.cons, ConsumerEnded, 1);
    } else if Sum(s.cons, ConsumerEnded) == |s.cons| {
      var j :| 0 <= j < |s.cons| && s.cons[j].going;
      SumIsFull(s.cons, ConsumerEnded, j);
    }
  }

  /** A consumer ends only on what a producer that has ended left for it: there are never more such consumers. */
  lemma ConsumersNeedProducers(s: State)
    requires Inv(s)
    ensures Sum(s.cons, ConsumerEnded) <= Sum(s.prods, ProducerEnded) <= |s.prods|
    ensures ConsumersDone(s) ==> |s.cons| <= |s.prods|
  {
    DoneSum(s);
    SumAtMost(s.prods, ProducerEnded, 1);
    if s.kind.StopObjects? {
      SumPrefix(s.puts, s.taken, IsStop);
    }
  }

  /** Everybody has ended and the queue is empty only if there are as many consumers as producers. */
  lemma CompleteIsBalanced(s: State)
    requires Inv(s) && ProducersDone(s) && ConsumersDone(s) && s.taken == |s.puts|
    ensures |s.prods| == |s.cons|
  {
    DoneSum(s);
    assert s.puts[..s.taken] == s.puts;
  }

  /**
   * When all consumers have ended, and they are not fewer than the producers,
   * all producers have ended too, and the queue is empty.
   */
  lemma ConsumersLast(s: State)
    requires Inv(s) && ConsumersDone(s) && |s.prods| <= |s.cons|
    ensures ProducersDone(s) && s.taken == |s.puts| && |s.prods| == |s.cons|
  {
    DoneSum(s);
    ConsumersNeedProducers(s);
    if s.kind.StopObjects? {
      SumPrefix(s.puts, s.taken, IsStop);
    } else if |s.prods| == 0 {
      assert s.prods == [];
    }
  }

  /** When all producers have ended and the queue is empty, no consumer is waiting, unless there are more of them. */
  lemma ConsumersFollow(s: State)
    requires Inv(s) && ProducersDone(s) && s.taken == |s.puts| && |s.cons| <= |s.prods|
    ensures ConsumersDone(s)
  {
    DoneSum(s);
    SumAtMost(s.cons, ConsumerEnded, 1);
    assert s.puts[..s.taken] == s.puts;
  }

  lemma {:induction false} MadeAtMost(prods: seq<Producer>, c: nat)
    requires forall i | 0 <= i < |prods| :: prods[i].made <= c
    ensures Sum(prods, Made) <= |prods| * c
  {
    SumAtMost(prods, Made, c);
  }

  /** The program never makes more puts than its total; the shared counters never pass it. */
  lemma PutsBounded(s: State)
    requires Inv(s)
    ensures s.taken <= |s.puts| <= Total(s.kind, |s.prods|)
  {
    if s.kind.StopObjects? {
      MadeAtMost(s.prods, s.kind.items + 1);
    } else {
      SumAtMost(s.prods, ProducerEnded, 1);
      if |s.prods| == 0 { assert s.prods == []; }
    }
  }

  lemma AllMade(s: State)
    requires Inv(s) && ProducersDone(s)
    ensures |s.puts| == Total(s.kind, |s.prods|)
  {
    DoneSum(s);
    if s.kind.StopObjects? {
      SumOfConstant(s.prods, Made, s.kind.items + 1);
    } else if |s.prods| == 0 {
      assert s.prods == [];
    }
  }

  // ---- Complete delivery -------------------------------------------------------------

  lemma {:induction false} ByCount(puts: seq<Item>, author: nat, x: Item)
    requires x.Work? && x.author == author
    ensures multiset(puts)[x] == multiset(By(puts, author))[x]
  {
    if puts != [] {
      var n := |puts| - 1;
      ByCount(puts[..n], author, x);
      assert puts == puts[..n] + [puts[n]];
    }
  }

  lemma {:induction false} WorksCount(author: nat, m: nat, id: nat)
    ensures multiset(Works(author, m))[Work(author, id)] == if id < m then 1 else 0
  {
    if m > 0 {
      WorksCount(author, m - 1, id);
      assert Works(author, m) == Works(author, m - 1) + [Work(author, m - 1)];
    }
  }

  /** Every node of every producer was put exactly once, and no other. */
  lemma AllPutOnce(s: State, i: nat, d: nat)
    requires Inv(s) && s.kind.StopObjects? && ProducersDone(s)
    ensures multiset(s.puts)[Work(i, d)] == if i < |s.prods| && d < s.kind.items then 1 else 0
  {
    if i < |s.prods| {
      ByCount(s.puts, i, Work(i, d));
      WorksCount(i, s.kind.items, d);
    } else {
      assert Work(i, d) !in s.puts;
    }
  }

  /**
   * At the end of the stop-object program the queue is empty, every node of
   * every producer has been taken exactly once and no other, and every consumer
   * has taken exactly one stop object, as its last.
   */
  lemma StopObjectDelivery(s: State, i: nat, d: nat)
    requires Inv(s) && s.kind.StopObjects? && ConsumersDone(s) && |s.prods| <= |s.cons|
    ensures s.taken == |s.puts| == |s.prods| * (s.kind.items + 1)
    ensures Got(s.cons)[Work(i, d)] == if i < |s.prods| && d < s.kind.items then 1 else 0
    ensures forall j | 0 <= j < |s.cons| :: StopsOnce(s.cons[j]) && !s.cons[j].going
  {
    ConsumersLast(s);
    AllMade(s);
    assert s.puts[..s.taken] == s.puts;
    AllPutOnce(s, i, d);
  }

  /** At the end of the counter-based program exactly the ids 0 .. total + N - 1 have been taken, once each. */
  lemma CountedDelivery(s: State)
    requires Inv(s) && s.kind.Counted? && ConsumersDone(s) && 0 < |s.prods| <= |s.cons|
    ensures s.taken == |s.puts| == s.kind.total + |s.prods|
    ensures Got(s.cons) == multiset(s.puts)
    ensures forall m | 0 <= m < |s.puts| :: s.puts[m].Work? && s.puts[m].id == m
  {
    ConsumersLast(s);
    AllMade(s);
    assert s.puts[..s.taken] == s.puts;
  }
}
