/**
 * The unbounded blocking queue of a mutex and a condition variable that is
 * signalled after the mutex is released.  A signal wakes one waiting consumer
 * if there is one; consumers may also wake up for no reason.
 */
module CondvarQueue {
  import opened Counting
  import P = FifoProgram
  import opened FifoProgram

  datatype Putting = Idle | Locked | Pushed | Unlocked

  /** A consumer at the loop test remembers, for the argument only, whether it comes from a wake-up. */
  datatype Taking = Resting | Testing(woken: bool) | Waiting | Woken | Popped

  datatype Queue = Queue(
    items: seq<Item>,
    mutex: nat,
    putting: seq<Putting>,
    taking: seq<Taking>,
    prog: P.State)

  datatype Action =
    | OfProducer(i: nat)             // any step but the signal
    | SignalNobody(i: nat)           // pthread_cond_signal, no consumer waits
    | Signal(i: nat, j: nat)         // pthread_cond_signal wakes consumer j
    | OfConsumer(j: nat)
    | Spurious(j: nat)               // consumer j wakes up unasked

  function Init(kind: Kind, n: nat, c: nat): Queue {
    Queue([], 1, seq(n, _ => Idle), seq(c, _ => Resting), P.Init(kind, n, c))
  }

  predicate Shaped(q: Queue) {
    |q.putting| == |q.prog.prods| && |q.taking| == |q.prog.cons|
  }

  predicate NobodyWaits(q: Queue) {
    forall j | 0 <= j < |q.taking| :: !q.taking[j].Waiting?
  }

  predicate Enabled(q: Queue, a: Action) {
    && Shaped(q)
    && match a
       case OfProducer(i) =>
         && i < |q.putting| && !q.putting[i].Unlocked?
         && (q.putting[i].Idle? ==> q.prog.prods[i].going && q.mutex > 0)
       case SignalNobody(i) => i < |q.putting| && q.putting[i].Unlocked? && NobodyWaits(q)
       case Signal(i, j) =>
         i < |q.putting| && q.putting[i].Unlocked? && j < |q.taking| && q.taking[j].Waiting?
       case OfConsumer(j) =>
         && j < |q.taking| && !q.taking[j].Waiting?
         && (q.taking[j].Resting? ==> q.prog.cons[j].going && q.mutex > 0)
         && (q.taking[j].Woken? ==> q.mutex > 0)
       case Spurious(j) => j < |q.taking| && q.taking[j].Waiting?
  }

  function Push(q: Queue, i: nat): Queue
    requires Shaped(q) && i < |q.putting|
  {
    var pr := q.prog.prods[i];
    var x := ItemOf(q.prog.kind, i, pr, |q.prog.puts|);
    q.(items := q.items + [x],
       putting := q.putting[i := Pushed],
       prog := q.prog.(puts := q.prog.puts + [x],
                       prods := q.prog.prods[i := AfterPut(q.prog.kind, pr, |q.prog.puts|)]))
  }

  function Pop(q: Queue, j: nat): Queue
    requires Shaped(q) && j < |q.taking| && q.items != []
  {
    q.(items := q.items[1..],
       taking := q.taking[j := Popped],
       prog := q.prog.(taken := q.prog.taken + 1,
                       cons := q.prog.cons[j := AfterTake(q.prog.kind, q.prog.cons[j], q.prog.taken, q.items[0])]))
  }

  function Next(q: Queue, a: Action): Queue
    requires Enabled(q, a)
  {
    match a
    case OfProducer(i) =>
      (match q.putting[i]
       case Idle => q.(mutex := q.mutex - 1, putting := q.putting[i := Locked])
       case Locked => Push(q, i)
       case _ => q.(mutex := q.mutex + 1, putting := q.putting[i := Unlocked]))
    case SignalNobody(i) => q.(putting := q.putting[i := Idle])
    case Signal(i, j) => q.(putting := q.putting[i := Idle], taking := q.taking[j := Woken])
    case OfConsumer(j) =>
      (match q.taking[j]
       case Resting => q.(mutex := q.mutex - 1, taking := q.taking[j := Testing(false)])
       case Woken => q.(mutex := q.mutex - 1, taking := q.taking[j := Testing(true)])
       case Popped => q.(mutex := q.mutex + 1, taking := q.taking[j := Resting])
       case _ =>
         // while (queue.empty()) pthread_cond_wait: the test and the wait's release are one critical section
         if q.items == [] then q.(mutex := q.mutex + 1, taking := q.taking[j := Waiting]) else Pop(q, j))
    case Spurious(j) => q.(taking := q.taking[j := Woken])
  }

  // ---- The invariant -------------------------------------------------------------------

  function PutHoldsMutex(ph: Putting): int { Bit(ph.Locked? || ph.Pushed?) }
  function OwesSignal(ph: Putting): int { Bit(ph.Pushed? || ph.Unlocked?) }
  function TakeHoldsMutex(ph: Taking): int { Bit(ph.Testing? || ph.Popped?) }
  function Alerted(ph: Taking): int { Bit(ph.Woken? || ph == Testing(true)) }

  ghost predicate MutexOk(q: Queue) {
    q.mutex + Sum(q.putting, PutHoldsMutex) + Sum(q.taking, TakeHoldsMutex) == 1
  }

  /**
   * No lost wake-up: while a consumer sleeps, every item in the queue has an
   * alerted consumer on its way or a producer that is still to signal.
   */
  ghost predicate NoLostWakeup(q: Queue) {
    !NobodyWaits(q) ==> |q.items| <= Sum(q.taking, Alerted) + Sum(q.putting, OwesSignal)
  }

  ghost predicate Inv(q: Queue) {
    && Shaped(q)
    && P.Inv(q.prog)
    && q.prog.taken <= |q.prog.puts|
    && q.items == q.prog.puts[q.prog.taken..]
    && MutexOk(q)
    && NoLostWakeup(q)
    && (forall i | 0 <= i < |q.putting| && q.putting[i].Locked? :: q.prog.prods[i].going)
    && (forall j | 0 <= j < |q.taking| && !q.taking[j].Resting? && !q.taking[j].Popped? :: q.prog.cons[j].going)
  }

  /** Nobody sleeps on a non-empty queue unless a wake-up is on its way to a consumer or still owed by a producer. */
  lemma SleepersAreOwed(q: Queue)
    requires Inv(q) && !NobodyWaits(q) && q.items != []
    ensures (exists j :: 0 <= j < |q.taking| && Alerted(q.taking[j]) == 1) ||
            (exists i :: 0 <= i < |q.putting| && OwesSignal(q.putting[i]) == 1)
  {
    if Sum(q.taking, Alerted) > 0 {
      var j := SumHasTerm(q.taking, Alerted);
    } else {
      var i := SumHasTerm(q.putting, OwesSignal);
    }
  }

  lemma InitInv(kind: Kind, n: nat, c: nat)
    ensures Inv(Init(kind, n, c))
  {
    P.InitInv(kind, n, c);
    var q := Init(kind, n, c);
    SumOfConstant(q.putting, PutHoldsMutex, 0);
    SumOfConstant(q.taking, TakeHoldsMutex, 0);
  }

  lemma PuttingSums(s: seq<Putting>, i: nat, ph: Putting)
    requires i < |s|
    ensures Sum(s[i := ph], PutHoldsMutex) == Sum(s, PutHoldsMutex) - PutHoldsMutex(s[i]) + PutHoldsMutex(ph)
    ensures Sum(s[i := ph], OwesSignal) == Sum(s, OwesSignal) - OwesSignal(s[i]) + OwesSignal(ph)
  {
    SumUpdate(s, i, ph, PutHoldsMutex);
    SumUpdate(s, i, ph, OwesSignal);
  }

  lemma TakingSums(s: seq<Taking>, j: nat, ph: Taking)
    requires j < |s|
    ensures Sum(s[j := ph], TakeHoldsMutex) == Sum(s, TakeHoldsMutex) - TakeHoldsMutex(s[j]) + TakeHoldsMutex(ph)
    ensures Sum(s[j := ph], Alerted) == Sum(s, Alerted) - Alerted(s[j]) + Alerted(ph)
  {
    SumUpdate(s, j, ph, TakeHoldsMutex);
    SumUpdate(s, j, ph, Alerted);
  }

  lemma PushInv(q: Queue, i: nat)
    requires Inv(q) && i < |q.putting| && q.putting[i].Locked?
    ensures Inv(Push(q, i)) && CanPut(q.prog, i) && Push(q, i).prog == Put(q.prog, i)
  {
    assert CanPut(q.prog, i);
    PutInv(q.prog, i);
    PuttingSums(q.putting, i, Pushed);
  }

  lemma PopInv(q: Queue, j: nat)
    requires Inv(q) && j < |q.taking| && q.taking[j].Testing? && q.items != []
    ensures Inv(Pop(q, j)) && CanTake(q.prog, j) && Pop(q, j).prog == Take(q.prog, j)
  {
    assert CanTake(q.prog, j);
    TakeInv(q.prog, j);
    TakingSums(q.taking, j, Popped);
  }

  predicate Moves(q: Queue, a: Action)
    requires Enabled(q, a)
  {
    || (a.OfProducer? && q.putting[a.i].Locked?)
    || (a.OfConsumer? && q.taking[a.j].Testing? && q.items != [])
  }

  lemma ProducerQuiet(q: Queue, a: Action)
    requires Enabled(q, a) && !Moves(q, a) && !a.OfConsumer? && !a.Spurious?
    requires MutexOk(q) && NoLostWakeup(q)
    ensures MutexOk(Next(q, a)) && NoLostWakeup(Next(q, a))
  {
    PuttingSums(q.putting, a.i, Next(q, a).putting[a.i]);
    if a.Signal? {
      TakingSums(q.taking, a.j, Woken);
    }
  }

  lemma ConsumerQuiet(q: Queue, a: Action)
    requires Enabled(q, a) && !Moves(q, a) && (a.OfConsumer? || a.Spurious?)
    requires MutexOk(q) && NoLostWakeup(q)
    ensures MutexOk(Next(q, a)) && NoLostWakeup(Next(q, a))
  {
    TakingSums(q.taking, a.j, Next(q, a).taking[a.j]);
    SumNonNegative(Next(q, a).taking, Alerted);
    SumNonNegative(q.putting, OwesSignal);
  }

  lemma NextInv(q: Queue, a: Action)
    requires Inv(q) && Enabled(q, a)
    ensures Inv(Next(q, a))
  {
    if Moves(q, a) {
      if a.OfProducer? { PushInv(q, a.i); } else { PopInv(q, a.j); }
    } else if a.OfConsumer? || a.Spurious? {
      ConsumerQuiet(q, a);
    } else {
      ProducerQuiet(q, a);
    }
  }

  /** Every step is one put or one take of the atomic FIFO queue, or invisible to it. */
  lemma Refines(q: Queue, a: Action)
    requires Inv(q) && Enabled(q, a)
    ensures Moves(q, a) && a.OfProducer? ==> CanPut(q.prog, a.i) && Next(q, a).prog == Put(q.prog, a.i)
    ensures Moves(q, a) && a.OfConsumer? ==> CanTake(q.prog, a.j) && Next(q, a).prog == Take(q.prog, a.j)
    ensures !Moves(q, a) ==> Next(q, a).prog == q.prog
  {
    if Moves(q, a) {
      if a.OfProducer? { PushInv(q, a.i); } else { PopInv(q, a.j); }
    }
  }

  // ---- What holds a thread up ----------------------------------------------------------------

  ghost predicate MutexHeld(q: Queue) {
    || (exists i :: 0 <= i < |q.putting| && PutHoldsMutex(q.putting[i]) == 1)
    || (exists j :: 0 <= j < |q.taking| && TakeHoldsMutex(q.taking[j]) == 1)
  }

  lemma MutexHeldExactly(q: Queue)
    requires Inv(q)
    ensures MutexHeld(q) <==> q.mutex == 0
  {
    SumNonNegative(q.putting, PutHoldsMutex);
    SumNonNegative(q.taking, TakeHoldsMutex);
    if Sum(q.putting, PutHoldsMutex) > 0 {
      var i := SumHasTerm(q.putting, PutHoldsMutex);
    } else if Sum(q.taking, TakeHoldsMutex) > 0 {
      var j := SumHasTerm(q.taking, TakeHoldsMutex);
    }
    if i :| 0 <= i < |q.putting| && PutHoldsMutex(q.putting[i]) == 1 { SumAtLeast(q.putting, i, PutHoldsMutex); }
    if j :| 0 <= j < |q.taking| && TakeHoldsMutex(q.taking[j]) == 1 { SumAtLeast(q.taking, j, TakeHoldsMutex); }
  }

  predicate OfThatProducer(a: Action, i: nat) {
    a == OfProducer(i) || a == SignalNobody(i) || (a.Signal? && a.i == i)
  }

  ghost predicate ProducerCanMove(q: Queue, i: nat) {
    exists a :: OfThatProducer(a, i) && Enabled(q, a)
  }

  /** A producer that has something to do waits for nothing but the mutex. */
  lemma ProducerHeldUp(q: Queue, i: nat)
    requires Inv(q) && i < |q.putting| && (q.putting[i].Idle? ==> q.prog.prods[i].going)
    ensures !ProducerCanMove(q, i) <==> q.putting[i].Idle? && MutexHeld(q)
  {
    MutexHeldExactly(q);
    if q.putting[i].Unlocked? {
      if j :| 0 <= j < |q.taking| && q.taking[j].Waiting? {
        assert Enabled(q, Signal(i, j));
      } else {
        assert Enabled(q, SignalNobody(i));
      }
    } else if q.mutex > 0 || !q.putting[i].Idle? {
      assert Enabled(q, OfProducer(i));
    }
  }

  /** A consumer that has something to do is held up only by the mutex, or asleep until it is woken. */
  lemma ConsumerHeldUp(q: Queue, j: nat)
    requires Inv(q) && j < |q.taking| && (q.taking[j].Resting? ==> q.prog.cons[j].going)
    ensures !Enabled(q, OfConsumer(j)) <==>
      q.taking[j].Waiting? || ((q.taking[j].Resting? || q.taking[j].Woken?) && MutexHeld(q))
  {
    MutexHeldExactly(q);
  }

  /** Only a consumer that found the queue empty falls asleep. */
  lemma SleepsOnEmpty(q: Queue, a: Action, j: nat)
    requires Inv(q) && Enabled(q, a) && j < |q.taking| && !q.taking[j].Waiting? && Next(q, a).taking[j].Waiting?
    ensures a == OfConsumer(j) && q.taking[j].Testing? && q.items == []
  {
  }

  // ---- No deadlock -------------------------------------------------------------------------

  predicate Finished(q: Queue) {
    && ProducersDone(q.prog) && ConsumersDone(q.prog)
    && (forall i | 0 <= i < |q.putting| :: q.putting[i].Idle?)
    && (forall j | 0 <= j < |q.taking| :: q.taking[j].Resting?)
  }

  lemma MutexMoves(q: Queue) returns (a: Action)
    requires Inv(q)
    ensures q.mutex > 0 || (Enabled(q, a) && !a.Spurious?)
  {
    a := OfProducer(0);
    if q.mutex == 0 {
      if Sum(q.putting, PutHoldsMutex) > 0 {
        var i := SumHasTerm(q.putting, PutHoldsMutex);
        a := OfProducer(i);
      } else {
        var j := SumHasTerm(q.taking, TakeHoldsMutex);
        a := OfConsumer(j);
      }
    }
  }

  lemma SignalMoves(q: Queue, i: nat) returns (a: Action)
    requires Shaped(q) && i < |q.putting| && q.putting[i].Unlocked?
    ensures Enabled(q, a) && !a.Spurious?
  {
    if j :| 0 <= j < |q.taking| && q.taking[j].Waiting? {
      a := Signal(i, j);
    } else {
      a := SignalNobody(i);
    }
  }

  lemma SleepersServed(q: Queue)
    requires Inv(q) && |q.prog.cons| <= |q.prog.prods|
    requires forall i | 0 <= i < |q.putting| :: q.putting[i].Idle? && !q.prog.prods[i].going
    requires forall j | 0 <= j < |q.taking| :: q.taking[j].Waiting? || (q.taking[j].Resting? && !q.prog.cons[j].going)
    ensures Finished(q)
  {
    SumOfConstant(q.putting, OwesSignal, 0);
    SumOfConstant(q.taking, Alerted, 0);
    assert ProducersDone(q.prog);
    if !NobodyWaits(q) {
      ConsumersFollow(q.prog);
    }
  }

  /** Sleepers cannot be all that is left: without spurious wake-ups too, somebody can go on. */
  lemma NoDeadlock(q: Queue) returns (a: Action)
    requires Inv(q) && !Finished(q) && |q.prog.cons| <= |q.prog.prods|
    ensures Enabled(q, a) && !a.Spurious?
  {
    a := MutexMoves(q);
    if q.mutex > 0 {
      if i :| 0 <= i < |q.putting| && (!q.putting[i].Idle? || q.prog.prods[i].going) {
        a := OfProducer(i);
        if q.putting[i].Unlocked? { a := SignalMoves(q, i); }
      } else if j :| 0 <= j < |q.taking| && !q.taking[j].Waiting? && (!q.taking[j].Resting? || q.prog.cons[j].going) {
        a := OfConsumer(j);
      } else {
        SleepersServed(q);
      }
    }
  }

  // ---- Runs --------------------------------------------------------------------------------

  /** Each signal may send one consumer round its loop in vain, so a put weighs more than its own steps. */
  function PutWeight(ph: Putting): int {
    match ph case Idle => 0 case Locked => -1 case Pushed => 4 case Unlocked => 3
  }

  function TakeWeight(ph: Taking): int {
    match ph case Resting => 0 case Testing(_) => -1 case Waiting => -2 case Woken => 0 case Popped => 1
  }

  /** The work done so far, weighed. */
  ghost function WorkDone(q: Queue): int {
    6 * |q.prog.puts| + 3 * q.prog.taken - Sum(q.putting, PutWeight) - Sum(q.taking, TakeWeight)
  }

  ghost function WorkLeft(q: Queue): int {
    9 * Total(q.prog.kind, |q.prog.prods|) - WorkDone(q)
  }

  lemma ProducerWorks(q: Queue, i: nat)
    requires Shaped(q) && Enabled(q, OfProducer(i))
    ensures WorkDone(Next(q, OfProducer(i))) > WorkDone(q)
  {
    SumUpdate(q.putting, i, Next(q, OfProducer(i)).putting[i], PutWeight);
  }

  lemma ConsumerWorks(q: Queue, j: nat)
    requires Shaped(q) && Enabled(q, OfConsumer(j))
    ensures WorkDone(Next(q, OfConsumer(j))) > WorkDone(q)
  {
    SumUpdate(q.taking, j, Next(q, OfConsumer(j)).taking[j], TakeWeight);
  }

  lemma SignalWorks(q: Queue, a: Action)
    requires Shaped(q) && Enabled(q, a) && (a.Signal? || a.SignalNobody?)
    ensures WorkDone(Next(q, a)) > WorkDone(q)
  {
    SumUpdate(q.putting, a.i, Idle, PutWeight);
    if a.Signal? { SumUpdate(q.taking, a.j, Woken, TakeWeight); }
  }

  lemma SpuriousCosts(q: Queue, j: nat)
    requires Shaped(q) && Enabled(q, Spurious(j))
    ensures WorkDone(Next(q, Spurious(j))) == WorkDone(q) - 2
  {
    SumUpdate(q.taking, j, Woken, TakeWeight);
  }

  lemma KindKept(q: Queue, a: Action)
    requires Enabled(q, a)
    ensures Next(q, a).prog.kind == q.prog.kind
    ensures |Next(q, a).prog.prods| == |q.prog.prods| && |Next(q, a).prog.cons| == |q.prog.cons|
  {
  }

  /** Every step but a spurious wake-up lowers the work left; a spurious one costs two. */
  lemma WorkFalls(q: Queue, a: Action)
    requires Inv(q) && Enabled(q, a)
    ensures if a.Spurious? then WorkLeft(Next(q, a)) == WorkLeft(q) + 2 else WorkLeft(Next(q, a)) < WorkLeft(q)
  {
    KindKept(q, a);
    match a
    case OfProducer(i) => ProducerWorks(q, i);
    case OfConsumer(j) => ConsumerWorks(q, j);
    case Spurious(j) => SpuriousCosts(q, j);
    case _ => SignalWorks(q, a);
  }

  datatype Run = Run(states: seq<Queue>, actions: seq<Action>)

  ghost predicate StepAt(run: Run, k: nat) {
    && k < |run.actions| && k + 1 < |run.states|
    && Enabled(run.states[k], run.actions[k])
    && run.states[k + 1] == Next(run.states[k], run.actions[k])
  }

  ghost predicate IsRun(run: Run, kind: Kind, n: nat, c: nat) {
    && |run.states| == |run.actions| + 1 && run.states[0] == Init(kind, n, c)
    && forall k: nat | k < |run.actions| :: StepAt(run, k)
  }

  function IsSpurious(a: Action): int { Bit(a.Spurious?) }

  lemma Begin(kind: Kind, n: nat, c: nat)
    ensures Inv(Init(kind, n, c)) && WorkLeft(Init(kind, n, c)) == 9 * Total(kind, n)
  {
    InitInv(kind, n, c);
    SumOfConstant(Init(kind, n, c).putting, PutWeight, 0);
    SumOfConstant(Init(kind, n, c).taking, TakeWeight, 0);
  }

  lemma OneStep(q: Queue, a: Action)
    requires Inv(q) && Enabled(q, a)
    ensures Inv(Next(q, a)) && WorkLeft(Next(q, a)) <= WorkLeft(q) - 1 + 3 * IsSpurious(a)
    ensures Next(q, a).prog.kind == q.prog.kind && |Next(q, a).prog.prods| == |q.prog.prods|
    ensures |Next(q, a).prog.cons| == |q.prog.cons|
  {
    NextInv(q, a);
    KindKept(q, a);
    WorkFalls(q, a);
  }

  lemma {:induction false} OneMoreAction(actions: seq<Action>, k: nat)
    requires 0 < k <= |actions|
    ensures Sum(actions[..k], IsSpurious) == Sum(actions[..k - 1], IsSpurious) + IsSpurious(actions[k - 1])
  {
    assert actions[..k] == actions[..k - 1] + [actions[k - 1]];
    SumSnoc(actions[..k - 1], actions[k - 1], IsSpurious);
  }

  lemma {:induction false} RunInv(run: Run, kind: Kind, n: nat, c: nat, k: nat)
    requires IsRun(run, kind, n, c) && k < |run.states|
    ensures Inv(run.states[k])
    ensures WorkLeft(run.states[k]) <= 9 * Total(kind, n) - k + 3 * Sum(run.actions[..k], IsSpurious)
    ensures run.states[k].prog.kind == kind && |run.states[k].prog.prods| == n
    ensures |run.states[k].prog.cons| == c
  {
    if k == 0 {
      Begin(kind, n, c);
    } else {
      RunInv(run, kind, n, c, k - 1);
      assert StepAt(run, k - 1);
      OneStep(run.states[k - 1], run.actions[k - 1]);
      OneMoreAction(run.actions, k);
    }
  }

  /** A run with finitely many spurious wake-ups is finite. */
  lemma RunsAreFinite(run: Run, kind: Kind, n: nat, c: nat)
    requires IsRun(run, kind, n, c)
    ensures |run.actions| <= 9 * Total(kind, n) + n + 2 * c + 3 * Sum(run.actions, IsSpurious)
  {
    var k := |run.actions|;
    RunInv(run, kind, n, c, k);
    assert run.actions[..k] == run.actions;
    var q := run.states[k];
    PutsBounded(q.prog);
    SumAtLeastEach(q.putting, PutWeight, -1);
    SumAtLeastEach(q.taking, TakeWeight, -2);
  }

  /**
   * The program with null pointers as stop objects: when nothing but spurious
   * wake-ups can happen, every thread has finished, the queue is empty, every
   * node was consumed exactly once and every consumer took one null pointer.
   */
  lemma RunsEndComplete(run: Run, items: nat, n: nat, i: nat, d: nat)
    requires IsRun(run, StopObjects(items), n, n)
    requires forall a :: Enabled(run.states[|run.actions|], a) ==> a.Spurious?
    ensures var q := run.states[|run.actions|];
      && Finished(q) && q.items == []
      && Got(q.prog.cons)[Work(i, d)] == (if i < n && d < items then 1 else 0)
      && (forall j | 0 <= j < |q.prog.cons| :: StopsOnce(q.prog.cons[j]))
  {
    var q := run.states[|run.actions|];
    RunInv(run, StopObjects(items), n, n, |run.actions|);
    if !Finished(q) {
      var a := NoDeadlock(q);
    }
    StopObjectDelivery(q.prog, i, d);
  }
}
