/**
 * The unbounded blocking queue of a mutex and a counting semaphore that is
 * posted after the mutex is released.
 */
module SemaphoreQueue {
  import opened Counting
  import P = FifoProgram
  import opened FifoProgram

  datatype Putting = Idle | Locked | Pushed | Unlocked
  datatype Taking = Resting | Token | Holding | Popped

  datatype Queue = Queue(
    items: seq<Item>,
    mutex: nat,
    notEmpty: nat,
    putting: seq<Putting>,
    taking: seq<Taking>,
    prog: P.State)

  datatype Action = OfProducer(i: nat) | OfConsumer(j: nat)

  function Init(kind: Kind, n: nat, c: nat): Queue {
    Queue([], 1, 0, seq(n, _ => Idle), seq(c, _ => Resting), P.Init(kind, n, c))
  }

  predicate Shaped(q: Queue) {
    |q.putting| == |q.prog.prods| && |q.taking| == |q.prog.cons|
  }

  /** A pop needs an element; NeverPopsEmpty shows that this guard never holds a consumer up. */
  predicate Enabled(q: Queue, a: Action) {
    && Shaped(q)
    && match a
       case OfProducer(i) =>
         i < |q.putting| && (q.putting[i].Idle? ==> q.prog.prods[i].going && q.mutex > 0)
       case OfConsumer(j) =>
         && j < |q.taking|
         && (q.taking[j].Resting? ==> q.prog.cons[j].going && q.notEmpty > 0)
         && (q.taking[j].Token? ==> q.mutex > 0)
         && (q.taking[j].Holding? ==> q.items != [])
  }

  function Push(q: Queue, i: nat): Queue
    requires Shaped(q) && i < |q.putting|
  {
    var pr := q.prog.prods[i];
    var x := ItemOf(q.prog.kind, i, pr, |q.prog.puts|);
    q.(items := q.items + [x],
       putting := q.putting[i := Pushed],
       prog := q.prog.(puts := q.prog.puts + [x],
                       prods := q.prog.prods[i := AfterPut(q.prog.kind, pr, |q.prog.puts|)]))
  }

  function Pop(q: Queue, j: nat): Queue
    requires Shaped(q) && j < |q.taking| && q.items != []
  {
    q.(items := q.items[1..],
       taking := q.taking[j := Popped],
       prog := q.prog.(taken := q.prog.taken + 1,
                       cons := q.prog.cons[j := AfterTake(q.prog.kind, q.prog.cons[j], q.prog.taken, q.items[0])]))
  }

  function Next(q: Queue, a: Action): Queue
    requires Enabled(q, a)
  {
    match a
    case OfProducer(i) =>
      (match q.putting[i]
       case Idle => q.(mutex := q.mutex - 1, putting := q.putting[i := Locked])
       case Locked => Push(q, i)
       case Pushed => q.(mutex := q.mutex + 1, putting := q.putting[i := Unlocked])
       case Unlocked => q.(notEmpty := q.notEmpty + 1, putting := q.putting[i := Idle]))
    case OfConsumer(j) =>
      (match q.taking[j]
       case Resting => q.(notEmpty := q.notEmpty - 1, taking := q.taking[j := Token])
       case Token => q.(mutex := q.mutex - 1, taking := q.taking[j := Holding])
       case Holding => Pop(q, j)
       case Popped => q.(mutex := q.mutex + 1, taking := q.taking[j := Resting]))
  }

  // ---- The invariant ------------------------------------------------------------------

  function PutHoldsMutex(ph: Putting): int { Bit(ph.Locked? || ph.Pushed?) }
  function OwesPost(ph: Putting): int { Bit(ph.Pushed? || ph.Unlocked?) }
  function TakeHoldsMutex(ph: Taking): int { Bit(ph.Holding? || ph.Popped?) }
  function HoldsToken(ph: Taking): int { Bit(ph.Token? || ph.Holding?) }

  /** One unit of the semaphore, waiting, promised or in a consumer's hand, for each item. */
  ghost predicate Tokens(q: Queue) {
    && q.mutex + Sum(q.putting, PutHoldsMutex) + Sum(q.taking, TakeHoldsMutex) == 1
    && q.notEmpty + Sum(q.taking, HoldsToken) + Sum(q.putting, OwesPost) == |q.items|
  }

  ghost predicate Inv(q: Queue) {
    && Shaped(q)
    && P.Inv(q.prog)
    && q.prog.taken <= |q.prog.puts|
    && q.items == q.prog.puts[q.prog.taken..]
    && Tokens(q)
    && (forall i | 0 <= i < |q.putting| && q.putting[i].Locked? :: q.prog.prods[i].going)
    && (forall j | 0 <= j < |q.taking| && HoldsToken(q.taking[j]) == 1 :: q.prog.cons[j].going)
  }

  lemma InitInv(kind: Kind, n: nat, c: nat)
    ensures Inv(Init(kind, n, c))
  {
    P.InitInv(kind, n, c);
    var q := Init(kind, n, c);
    SumOfConstant(q.putting, PutHoldsMutex, 0);
    SumOfConstant(q.taking, TakeHoldsMutex, 0);
    SumOfConstant(q.putting, OwesPost, 0);
    SumOfConstant(q.taking, HoldsToken, 0);
  }

  lemma PuttingSums(s: seq<Putting>, i: nat, ph: Putting)
    requires i < |s|
    ensures Sum(s[i := ph], PutHoldsMutex) == Sum(s, PutHoldsMutex) - PutHoldsMutex(s[i]) + PutHoldsMutex(ph)
    ensures Sum(s[i := ph], OwesPost) == Sum(s, OwesPost) - OwesPost(s[i]) + OwesPost(ph)
  {
    SumUpdate(s, i, ph, PutHoldsMutex);
    SumUpdate(s, i, ph, OwesPost);
  }

  lemma TakingSums(s: seq<Taking>, j: nat, ph: Taking)
    requires j < |s|
    ensures Sum(s[j := ph], TakeHoldsMutex) == Sum(s, TakeHoldsMutex) - TakeHoldsMutex(s[j]) + TakeHoldsMutex(ph)
    ensures Sum(s[j := ph], HoldsToken) == Sum(s, HoldsToken) - HoldsToken(s[j]) + HoldsToken(ph)
  {
    SumUpdate(s, j, ph, TakeHoldsMutex);
    SumUpdate(s, j, ph, HoldsToken);
  }

  /** A consumer that got through the semaphore finds an item: front and pop are never called on an empty queue. */
  lemma NeverPopsEmpty(q: Queue, j: nat)
    requires Inv(q) && j < |q.taking| && q.taking[j].Holding?
    ensures q.items != []
  {
    SumAtLeast(q.taking, j, HoldsToken);
    SumNonNegative(q.putting, OwesPost);
  }

  lemma PushInv(q: Queue, i: nat)
    requires Inv(q) && i < |q.putting| && q.putting[i].Locked?
    ensures Inv(Push(q, i)) && CanPut(q.prog, i) && Push(q, i).prog == Put(q.prog, i)
  {
    assert CanPut(q.prog, i);
    PutInv(q.prog, i);
    PuttingSums(q.putting, i, Pushed);
  }

  lemma PopInv(q: Queue, j: nat)
    requires Inv(q) && j < |q.taking| && q.taking[j].Holding? && q.items != []
    ensures Inv(Pop(q, j)) && CanTake(q.prog, j) && Pop(q, j).prog == Take(q.prog, j)
  {
    assert CanTake(q.prog, j);
    TakeInv(q.prog, j);
    TakingSums(q.taking, j, Popped);
  }

  lemma TokensMove(q: Queue, a: Action)
    requires Enabled(q, a) && Tokens(q)
    requires if a.OfProducer? then !q.putting[a.i].Locked? else !q.taking[a.j].Holding?
    ensures Tokens(Next(q, a))
  {
    if a.OfProducer? {
      PuttingSums(q.putting, a.i, Next(q, a).putting[a.i]);
    } else {
      TakingSums(q.taking, a.j, Next(q, a).taking[a.j]);
    }
  }

  lemma NextInv(q: Queue, a: Action)
    requires Inv(q) && Enabled(q, a)
    ensures Inv(Next(q, a))
  {
    if a.OfProducer? && q.putting[a.i].Locked? {
      PushInv(q, a.i);
    } else if a.OfConsumer? && q.taking[a.j].Holding? {
      PopInv(q, a.j);
    } else {
      TokensMove(q, a);
    }
  }

  /** Every step is one put or one take of the atomic FIFO queue, or invisible to it. */
  lemma Refines(q: Queue, a: Action)
    requires Inv(q) && Enabled(q, a)
    ensures match a
      case OfProducer(i) => if q.putting[i].Locked? then CanPut(q.prog, i) && Next(q, a).prog == Put(q.prog, i)
                            else Next(q, a).prog == q.prog
      case OfConsumer(j) => if q.taking[j].Holding? then CanTake(q.prog, j) && Next(q, a).prog == Take(q.prog, j)
                            else Next(q, a).prog == q.prog
  {
    if a.OfProducer? && q.putting[a.i].Locked? {
      PushInv(q, a.i);
    } else if a.OfConsumer? && q.taking[a.j].Holding? {
      PopInv(q, a.j);
    }
  }

  // ---- What holds a thread up ----------------------------------------------------------------

  ghost predicate MutexHeld(q: Queue) {
    || (exists i :: 0 <= i < |q.putting| && PutHoldsMutex(q.putting[i]) == 1)
    || (exists j :: 0 <= j < |q.taking| && TakeHoldsMutex(q.taking[j]) == 1)
  }

  lemma MutexHeldExactly(q: Queue)
    requires Inv(q)
    ensures MutexHeld(q) <==> q.mutex == 0
  {
    SumNonNegative(q.putting, PutHoldsMutex);
    SumNonNegative(q.taking, TakeHoldsMutex);
    if Sum(q.putting, PutHoldsMutex) > 0 {
      var i := SumHasTerm(q.putting, PutHoldsMutex);
    } else if Sum(q.taking, TakeHoldsMutex) > 0 {
      var j := SumHasTerm(q.taking, TakeHoldsMutex);
    }
    if i :| 0 <= i < |q.putting| && PutHoldsMutex(q.putting[i]) == 1 { SumAtLeast(q.putting, i, PutHoldsMutex); }
    if j :| 0 <= j < |q.taking| && TakeHoldsMutex(q.taking[j]) == 1 { SumAtLeast(q.taking, j, TakeHoldsMutex); }
  }

  /** A producer that has something to do waits for nothing but the mutex. */
  lemma ProducerHeldUp(q: Queue, i: nat)
    requires Inv(q) && i < |q.putting| && (q.putting[i].Idle? ==> q.prog.prods[i].going)
    ensures !Enabled(q, OfProducer(i)) <==> q.putting[i].Idle? && MutexHeld(q)
  {
    MutexHeldExactly(q);
  }

  /**
   * A consumer that has something to do is held up in two cases only: every item
   * is claimed by a take or its put is not finished; or it needs the mutex while
   * another thread has it.
   */
  lemma ConsumerHeldUp(q: Queue, j: nat)
    requires Inv(q) && j < |q.taking| && (q.taking[j].Resting? ==> q.prog.cons[j].going)
    ensures !Enabled(q, OfConsumer(j)) <==>
      || (q.taking[j].Resting? && |q.items| == Sum(q.taking, HoldsToken) + Sum(q.putting, OwesPost))
      || (q.taking[j].Token? && MutexHeld(q))
  {
    MutexHeldExactly(q);
    if q.taking[j].Holding? { NeverPopsEmpty(q, j); }
  }

  // ---- No deadlock --------------------------------------------------------------------

  predicate Finished(q: Queue) {
    && ProducersDone(q.prog) && ConsumersDone(q.prog)
    && (forall i | 0 <= i < |q.putting| :: q.putting[i].Idle?)
    && (forall j | 0 <= j < |q.taking| :: q.taking[j].Resting?)
  }

  lemma MutexMoves(q: Queue) returns (a: Action)
    requires Inv(q)
    ensures q.mutex > 0 || Enabled(q, a)
  {
    a := OfProducer(0);
    if q.mutex == 0 {
      if Sum(q.putting, PutHoldsMutex) > 0 {
        var i := SumHasTerm(q.putting, PutHoldsMutex);
        a := OfProducer(i);
      } else {
        var j := SumHasTerm(q.taking, TakeHoldsMutex);
        if q.taking[j].Holding? { NeverPopsEmpty(q, j); }
        a := OfConsumer(j);
      }
    }
  }

  lemma NoDeadlockOutside(q: Queue) returns (a: Action)
    requires Inv(q) && !Finished(q) && |q.prog.cons| <= |q.prog.prods|
    requires forall i | 0 <= i < |q.putting| :: q.putting[i].Idle? && !q.prog.prods[i].going
    requires forall j | 0 <= j < |q.taking| :: q.taking[j].Resting?
    ensures Enabled(q, a)
  {
    SumOfConstant(q.putting, OwesPost, 0);
    SumOfConstant(q.taking, HoldsToken, 0);
    assert ProducersDone(q.prog);
    if q.notEmpty == 0 {
      ConsumersFollow(q.prog);
    }
    var j :| 0 <= j < |q.taking| && q.prog.cons[j].going;
    a := OfConsumer(j);
  }

  /** As long as somebody has not finished, somebody can make a step. */
  lemma NoDeadlock(q: Queue) returns (a: Action)
    requires Inv(q) && !Finished(q) && |q.prog.cons| <= |q.prog.prods|
    ensures Enabled(q, a)
  {
    a := MutexMoves(q);
    if !Enabled(q, a) {
      if i :| 0 <= i < |q.putting| && (!q.putting[i].Idle? || q.prog.prods[i].going) {
        a := OfProducer(i);
      } else if j :| 0 <= j < |q.taking| && !q.taking[j].Resting? {
        if q.taking[j].Holding? { NeverPopsEmpty(q, j); }
        a := OfConsumer(j);
      } else {
        a := NoDeadlockOutside(q);
      }
    }
  }

  // ---- Runs -----------------------------------------------------------------------------

  function IntoPut(ph: Putting): int {
    match ph case Idle => 0 case Locked => 1 case Pushed => 2 - 4 case Unlocked => 3 - 4
  }

  function IntoTake(ph: Taking): int {
    match ph case Resting => 0 case Token => 1 case Holding => 2 case Popped => 3 - 4
  }

  ghost function StepsMade(q: Queue): int {
    4 * |q.prog.puts| + 4 * q.prog.taken + Sum(q.putting, IntoPut) + Sum(q.taking, IntoTake)
  }

  lemma OneStepMore(q: Queue, a: Action)
    requires Inv(q) && Enabled(q, a)
    ensures StepsMade(Next(q, a)) == StepsMade(q) + 1
  {
    match a
    case OfProducer(i) => SumUpdate(q.putting, i, Next(q, a).putting[i], IntoPut);
    case OfConsumer(j) => SumUpdate(q.taking, j, Next(q, a).taking[j], IntoTake);
  }

  ghost predicate Steps(q: Queue, q': Queue) {
    exists a :: Enabled(q, a) && q' == Next(q, a)
  }

  ghost predicate Stuck(q: Queue) {
    forall a :: !Enabled(q, a)
  }

  ghost predicate StepAt(run: seq<Queue>, k: nat) {
    k + 1 < |run| && Steps(run[k], run[k + 1])
  }

  ghost predicate IsRun(run: seq<Queue>, kind: Kind, n: nat, c: nat) {
    && |run| > 0 && run[0] == Init(kind, n, c)
    && forall k: nat | k < |run| - 1 :: StepAt(run, k)
  }

  lemma Begin(kind: Kind, n: nat, c: nat)
    ensures Inv(Init(kind, n, c)) && StepsMade(Init(kind, n, c)) == 0
  {
    InitInv(kind, n, c);
    SumOfConstant(Init(kind, n, c).putting, IntoPut, 0);
    SumOfConstant(Init(kind, n, c).taking, IntoTake, 0);
  }

  lemma KindKept(q: Queue, a: Action)
    requires Enabled(q, a)
    ensures Next(q, a).prog.kind == q.prog.kind
    ensures |Next(q, a).prog.prods| == |q.prog.prods| && |Next(q, a).prog.cons| == |q.prog.cons|
  {
  }

  lemma StepKeeps(q: Queue, q': Queue)
    requires Inv(q) && Steps(q, q')
    ensures Inv(q') && StepsMade(q') == StepsMade(q) + 1
    ensures q'.prog.kind == q.prog.kind
    ensures |q'.prog.prods| == |q.prog.prods| && |q'.prog.cons| == |q.prog.cons|
  {
    var a :| Enabled(q, a) && q' == Next(q, a);
    NextInv(q, a);
    OneStepMore(q, a);
    KindKept(q, a);
  }

  lemma {:induction false} RunInv(run: seq<Queue>, kind: Kind, n: nat, c: nat, k: nat)
    requires IsRun(run, kind, n, c) && k < |run|
    ensures Inv(run[k]) && StepsMade(run[k]) == k
    ensures run[k].prog.kind == kind && |run[k].prog.prods| == n && |run[k].prog.cons| == c
  {
    if k == 0 {
      Begin(kind, n, c);
    } else {
      RunInv(run, kind, n, c, k - 1);
      assert StepAt(run, k - 1);
      StepKeeps(run[k - 1], run[k]);
    }
  }

  lemma RunsAreFinite(run: seq<Queue>, kind: Kind, n: nat, c: nat)
    requires IsRun(run, kind, n, c)
    ensures |run| - 1 <= 8 * Total(kind, n) + n + 2 * c
  {
    var q := run[|run| - 1];
    RunInv(run, kind, n, c, |run| - 1);
    PutsBounded(q.prog);
    SumAtMost(q.putting, IntoPut, 1);
    SumAtMost(q.taking, IntoTake, 2);
  }

  /**
   * The program with null pointers as stop objects: a run that cannot go on has
   * finished every thread and emptied the queue; every node was consumed exactly
   * once and every consumer took exactly one null pointer, as its last.
   */
  lemma RunsEndComplete(run: seq<Queue>, items: nat, n: nat, i: nat, d: nat)
    requires IsRun(run, StopObjects(items), n, n) && Stuck(run[|run| - 1])
    ensures var q := run[|run| - 1];
      && Finished(q) && q.items == []
      && |run| - 1 == 8 * (n * (items + 1))
      && Got(q.prog.cons)[Work(i, d)] == (if i < n && d < items then 1 else 0)
      && (forall j | 0 <= j < |q.prog.cons| :: StopsOnce(q.prog.cons[j]))
  {
    var q := run[|run| - 1];
    RunInv(run, StopObjects(items), n, n, |run| - 1);
    if !Finished(q) {
      var a := NoDeadlock(q);
    }
    StopObjectDelivery(q.prog, i, d);
    SumOfConstant(q.putting, IntoPut, 0);
    SumOfConstant(q.taking, IntoTake, 0);
  }
}
