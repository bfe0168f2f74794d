/**
 * The semaphore-bounded circular queue shared by forked processes.  Any number
 * of producers and consumers interleave at every sem_wait, sem_post and access
 * to the shared memory.
 */
module BoundedQueue {
  import opened Counting
  import P = FifoProgram
  import opened FifoProgram

  /** Where a process stands inside put or take; Ready is outside. */
  datatype Phase =
    | Ready      // about to wait on its counting semaphore
    | Token      // has a unit of it, about to wait on the mutex
    | Locked     // in the critical section, the item not yet moved
    | Moved      // the item moved, about to post the mutex
    | Released   // about to post the other counting semaphore

  datatype Queue = Queue(
    cap: nat,
    slots: seq<Item>,
    f: nat,
    p: nat,
    empty: nat,
    full: nat,
    mutex: nat,
    putting: seq<Phase>,
    taking: seq<Phase>,
    prog: P.State)

  datatype Action = OfProducer(i: nat) | OfConsumer(j: nat)

  function Init(kind: Kind, n: nat, c: nat, cap: nat, garbage: seq<Item>): Queue {
    Queue(cap, garbage, 0, 0, cap, 0, 1, seq(n, _ => Ready), seq(c, _ => Ready), P.Init(kind, n, c))
  }

  predicate Shaped(q: Queue) {
    && q.cap > 0 && |q.slots| == q.cap
    && |q.putting| == |q.prog.prods| && |q.taking| == |q.prog.cons|
  }

  predicate Enabled(q: Queue, a: Action) {
    && Shaped(q)
    && match a
       case OfProducer(i) =>
         && i < |q.putting|
         && (q.putting[i].Ready? ==> q.prog.prods[i].going && q.empty > 0)
         && (q.putting[i].Token? ==> q.mutex > 0)
       case OfConsumer(j) =>
         && j < |q.taking|
         && (q.taking[j].Ready? ==> q.prog.cons[j].going && q.full > 0)
         && (q.taking[j].Token? ==> q.mutex > 0)
  }

  /** The item goes to slot p mod queue_size. */
  function Store(slots: seq<Item>, p: nat, x: Item): seq<Item>
    requires |slots| > 0
  {
    slots[p % |slots| := x]
  }

  /** The item is read from slot f mod queue_size. */
  function Fetch(slots: seq<Item>, f: nat): Item
    requires |slots| > 0
  {
    slots[f % |slots|]
  }

  function SetPutting(q: Queue, i: nat, ph: Phase): Queue
    requires i < |q.putting|
  {
    q.(putting := q.putting[i := ph])
  }

  function SetTaking(q: Queue, j: nat, ph: Phase): Queue
    requires j < |q.taking|
  {
    q.(taking := q.taking[j := ph])
  }

  function PutItem(q: Queue, i: nat): Queue
    requires Shaped(q) && i < |q.putting|
  {
    var pr := q.prog.prods[i];
    var x := ItemOf(q.prog.kind, i, pr, q.p);
    SetPutting(q, i, Moved).(
      slots := Store(q.slots, q.p, x),
      p := q.p + 1,
      prog := q.prog.(puts := q.prog.puts + [x],
                      prods := q.prog.prods[i := AfterPut(q.prog.kind, pr, q.p)]))
  }

  function TakeItem(q: Queue, j: nat): Queue
    requires Shaped(q) && j < |q.taking|
  {
    var x := Fetch(q.slots, q.f);
    SetTaking(q, j, Moved).(
      f := q.f + 1,
      prog := q.prog.(taken := q.prog.taken + 1,
                      cons := q.prog.cons[j := AfterTake(q.prog.kind, q.prog.cons[j], q.f, x)]))
  }

  function Next(q: Queue, a: Action): Queue
    requires Enabled(q, a)
  {
    match a
    case OfProducer(i) =>
      (match q.putting[i]
       case Ready => SetPutting(q, i, Token).(empty := q.empty - 1)
       case Token => SetPutting(q, i, Locked).(mutex := q.mutex - 1)
       case Locked => PutItem(q, i)
       case Moved => SetPutting(q, i, Released).(mutex := q.mutex + 1)
       case Released => SetPutting(q, i, Ready).(full := q.full + 1))
    case OfConsumer(j) =>
      (match q.taking[j]
       case Ready => SetTaking(q, j, Token).(full := q.full - 1)
       case Token => SetTaking(q, j, Locked).(mutex := q.mutex - 1)
       case Locked => TakeItem(q, j)
       case Moved => SetTaking(q, j, Released).(mutex := q.mutex + 1)
       case Released => SetTaking(q, j, Ready).(empty := q.empty + 1))
  }

  // ---- The invariant -----------------------------------------------------------------

  /** A unit of the counting semaphore that was waited on. */
  function HoldsToken(ph: Phase): int { Bit(ph.Token? || ph.Locked?) }

  /** A unit of the other counting semaphore that is still to be posted. */
  function OwesPost(ph: Phase): int { Bit(ph.Moved? || ph.Released?) }

  function HoldsMutex(ph: Phase): int { Bit(ph.Locked? || ph.Moved?) }

  /** Tokens are conserved: each slot is empty, being filled, full, or being emptied. */
  ghost predicate Tokens(q: Queue) {
    && q.mutex + Sum(q.putting, HoldsMutex) + Sum(q.taking, HoldsMutex) == 1
    && q.empty + Sum(q.putting, HoldsToken) + (q.p - q.f) + Sum(q.taking, OwesPost) == q.cap
    && q.full + Sum(q.taking, HoldsToken) + Sum(q.putting, OwesPost) == q.p - q.f
  }

  /** The slots between f and p hold what was put and not yet taken. */
  ghost predicate SlotsOk(q: Queue)
    requires Shaped(q)
  {
    forall m: nat | q.f <= m < q.p && m < |q.prog.puts| :: q.slots[m % q.cap] == q.prog.puts[m]
  }

  ghost predicate Inv(q: Queue) {
    && Shaped(q)
    && P.Inv(q.prog)
    && q.f == q.prog.taken && q.p == |q.prog.puts|
    && Tokens(q)
    && SlotsOk(q)
    && (forall i | 0 <= i < |q.putting| && HoldsToken(q.putting[i]) == 1 :: q.prog.prods[i].going)
    && (forall j | 0 <= j < |q.taking| && HoldsToken(q.taking[j]) == 1 :: q.prog.cons[j].going)
  }

  lemma InitInv(kind: Kind, n: nat, c: nat, cap: nat, garbage: seq<Item>)
    requires cap > 0 && |garbage| == cap
    ensures Inv(Init(kind, n, c, cap, garbage))
  {
    P.InitInv(kind, n, c);
    var q := Init(kind, n, c, cap, garbage);
    SumOfConstant(q.putting, HoldsMutex, 0);
    SumOfConstant(q.taking, HoldsMutex, 0);
    SumOfConstant(q.putting, HoldsToken, 0);
    SumOfConstant(q.taking, HoldsToken, 0);
    SumOfConstant(q.putting, OwesPost, 0);
    SumOfConstant(q.taking, OwesPost, 0);
  }

  /** How the three sums move with one process. */
  lemma PhaseSums(s: seq<Phase>, i: nat, ph: Phase)
    requires i < |s|
    ensures Sum(s[i := ph], HoldsMutex) == Sum(s, HoldsMutex) - HoldsMutex(s[i]) + HoldsMutex(ph)
    ensures Sum(s[i := ph], HoldsToken) == Sum(s, HoldsToken) - HoldsToken(s[i]) + HoldsToken(ph)
    ensures Sum(s[i := ph], OwesPost) == Sum(s, OwesPost) - OwesPost(s[i]) + OwesPost(ph)
  {
    SumUpdate(s, i, ph, HoldsMutex);
    SumUpdate(s, i, ph, HoldsToken);
    SumUpdate(s, i, ph, OwesPost);
  }

  lemma SumsNonNegative(s: seq<Phase>)
    ensures Sum(s, HoldsMutex) >= 0 && Sum(s, HoldsToken) >= 0 && Sum(s, OwesPost) >= 0
  {
    SumNonNegative(s, HoldsMutex);
    SumNonNegative(s, HoldsToken);
    SumNonNegative(s, OwesPost);
  }

  /** A producer in the critical section finds a free slot: nothing unread is overwritten. */
  lemma RoomToPut(q: Queue, i: nat)
    requires Inv(q) && i < |q.putting| && q.putting[i].Locked?
    ensures q.p - q.f < q.cap
  {
    SumAtLeast(q.putting, i, HoldsToken);
    SumNonNegative(q.taking, OwesPost);
  }

  /** A consumer in the critical section finds an item. */
  lemma ItemToTake(q: Queue, j: nat)
    requires Inv(q) && j < |q.taking| && q.taking[j].Locked?
    ensures q.f < q.p
  {
    SumAtLeast(q.taking, j, HoldsToken);
    SumNonNegative(q.putting, OwesPost);
  }

  lemma MultipleApart(d: int, cap: nat)
    ensures d * cap <= 0 || d * cap >= cap
  {
    if d >= 1 { assert d * cap >= 1 * cap; } else { assert d * cap <= 0 * cap; }
  }

  /** Positions less than a lap apart use different slots. */
  lemma SlotsDiffer(m: nat, p: nat, cap: nat)
    requires m < p < m + cap
    ensures m % cap != p % cap
  {
    var a, b := m / cap, p / cap;
    assert m == a * cap + m % cap && p == b * cap + p % cap;
    assert p - m == (b - a) * cap + (p % cap - m % cap);
    MultipleApart(b - a, cap);
  }

  /** Storing at p leaves the unread slots alone. */
  lemma StoreApart(slots: seq<Item>, p: nat, x: Item, m: nat)
    requires 0 < |slots| && m <= p < m + |slots|
    ensures Store(slots, p, x)[m % |slots|] == if m == p then x else slots[m % |slots|]
  {
    if m < p { SlotsDiffer(m, p, |slots|); }
  }

  lemma PutItemInv(q: Queue, i: nat)
    requires Inv(q) && i < |q.putting| && q.putting[i].Locked?
    ensures Inv(PutItem(q, i)) && CanPut(q.prog, i) && PutItem(q, i).prog == Put(q.prog, i)
  {
    var q' := PutItem(q, i);
    RoomToPut(q, i);
    assert CanPut(q.prog, i);
    PutInv(q.prog, i);
    PhaseSums(q.putting, i, Moved);
    forall m: nat | q'.f <= m < q'.p ensures q'.slots[m % q.cap] == q'.prog.puts[m] {
      StoreApart(q.slots, q.p, q'.prog.puts[q.p], m);
    }
  }

  lemma TakeItemInv(q: Queue, j: nat)
    requires Inv(q) && j < |q.taking| && q.taking[j].Locked?
    ensures Inv(TakeItem(q, j)) && CanTake(q.prog, j) && TakeItem(q, j).prog == Take(q.prog, j)
  {
    ItemToTake(q, j);
    assert CanTake(q.prog, j);
    TakeInv(q.prog, j);
    PhaseSums(q.taking, j, Moved);
  }

  lemma ProducerTokens(q: Queue, i: nat)
    requires Enabled(q, OfProducer(i)) && Tokens(q) && !q.putting[i].Locked?
    ensures Tokens(Next(q, OfProducer(i)))
  {
    PhaseSums(q.putting, i, Next(q, OfProducer(i)).putting[i]);
  }

  lemma ConsumerTokens(q: Queue, j: nat)
    requires Enabled(q, OfConsumer(j)) && Tokens(q) && !q.taking[j].Locked?
    ensures Tokens(Next(q, OfConsumer(j)))
  {
    PhaseSums(q.taking, j, Next(q, OfConsumer(j)).taking[j]);
  }

  /** Outside the critical section only tokens and phases change. */
  lemma QuietStep(q: Queue, a: Action)
    requires Enabled(q, a)
    requires if a.OfProducer? then !q.putting[a.i].Locked? else !q.taking[a.j].Locked?
    ensures var q' := Next(q, a);
      && q'.slots == q.slots && q'.prog == q.prog && q'.f == q.f && q'.p == q.p && q'.cap == q.cap
      && q'.putting == (if a.OfProducer? then q.putting[a.i := q'.putting[a.i]] else q.putting)
      && q'.taking == (if a.OfProducer? then q.taking else q.taking[a.j := q'.taking[a.j]])
  {
  }

  lemma ProducerInv(q: Queue, i: nat)
    requires Inv(q) && Enabled(q, OfProducer(i))
    ensures Inv(Next(q, OfProducer(i)))
  {
    if q.putting[i].Locked? {
      PutItemInv(q, i);
    } else {
      ProducerTokens(q, i);
      QuietStep(q, OfProducer(i));
    }
  }

  lemma ConsumerInv(q: Queue, j: nat)
    requires Inv(q) && Enabled(q, OfConsumer(j))
    ensures Inv(Next(q, OfConsumer(j)))
  {
    if q.taking[j].Locked? {
      TakeItemInv(q, j);
    } else {
      ConsumerTokens(q, j);
      QuietStep(q, OfConsumer(j));
    }
  }

  lemma NextInv(q: Queue, a: Action)
    requires Inv(q) && Enabled(q, a)
    ensures Inv(Next(q, a))
  {
    if a.OfProducer? { ProducerInv(q, a.i); } else { ConsumerInv(q, a.j); }
  }

  // ---- What holds a process up ---------------------------------------------------------------

  ghost predicate MutexHeld(q: Queue) {
    || (exists i :: 0 <= i < |q.putting| && HoldsMutex(q.putting[i]) == 1)
    || (exists j :: 0 <= j < |q.taking| && HoldsMutex(q.taking[j]) == 1)
  }

  lemma MutexHeldExactly(q: Queue)
    requires Inv(q)
    ensures MutexHeld(q) <==> q.mutex == 0
  {
    SumsNonNegative(q.putting);
    SumsNonNegative(q.taking);
    if Sum(q.putting, HoldsMutex) > 0 {
      var i := SumHasTerm(q.putting, HoldsMutex);
    } else if Sum(q.taking, HoldsMutex) > 0 {
      var j := SumHasTerm(q.taking, HoldsMutex);
    }
    if i :| 0 <= i < |q.putting| && HoldsMutex(q.putting[i]) == 1 { SumAtLeast(q.putting, i, HoldsMutex); }
    if j :| 0 <= j < |q.taking| && HoldsMutex(q.taking[j]) == 1 { SumAtLeast(q.taking, j, HoldsMutex); }
  }

  /**
   * A producer that has something to do is held up in two cases only: every slot
   * is filled, claimed by a put or not yet given back by a take; or it needs the
   * mutex while another process is in the critical section.
   */
  lemma ProducerHeldUp(q: Queue, i: nat)
    requires Inv(q) && i < |q.putting| && (q.putting[i].Ready? ==> q.prog.prods[i].going)
    ensures !Enabled(q, OfProducer(i)) <==>
      || (q.putting[i].Ready? && (q.p - q.f) + Sum(q.putting, HoldsToken) + Sum(q.taking, OwesPost) == q.cap)
      || (q.putting[i].Token? && MutexHeld(q))
  {
    MutexHeldExactly(q);
  }

  /**
   * A consumer that has something to do is held up in two cases only: every item
   * is claimed by a take or its put is not finished; or it needs the mutex while
   * another process is in the critical section.
   */
  lemma ConsumerHeldUp(q: Queue, j: nat)
    requires Inv(q) && j < |q.taking| && (q.taking[j].Ready? ==> q.prog.cons[j].going)
    ensures !Enabled(q, OfConsumer(j)) <==>
      || (q.taking[j].Ready? && q.p - q.f == Sum(q.taking, HoldsToken) + Sum(q.putting, OwesPost))
      || (q.taking[j].Token? && MutexHeld(q))
  {
    MutexHeldExactly(q);
  }

  // ---- Refinement of the atomic queue ----------------------------------------------------

  /** Every step is one put or one take of the atomic FIFO queue, or invisible to it. */
  lemma Refines(q: Queue, a: Action)
    requires Inv(q) && Enabled(q, a)
    ensures match a
      case OfProducer(i) => if q.putting[i].Locked? then CanPut(q.prog, i) && Next(q, a).prog == Put(q.prog, i)
                          else Next(q, a).prog == q.prog
      case OfConsumer(j) => if q.taking[j].Locked? then CanTake(q.prog, j) && Next(q, a).prog == Take(q.prog, j)
                          else Next(q, a).prog == q.prog
  {
    match a
    case OfProducer(i) => if q.putting[i].Locked? { PutItemInv(q, i); }
    case OfConsumer(j) => if q.taking[j].Locked? { TakeItemInv(q, j); }
  }

  /** The queue never holds more than it can, nor less than nothing. */
  lemma Occupancy(q: Queue)
    requires Inv(q)
    ensures 0 <= q.p - q.f <= q.cap
  {
    SumsNonNegative(q.putting);
    SumsNonNegative(q.taking);
  }

  // ---- No deadlock ------------------------------------------------------------------------

  predicate Finished(q: Queue) {
    && ProducersDone(q.prog) && ConsumersDone(q.prog)
    && (forall i | 0 <= i < |q.putting| :: q.putting[i].Ready?)
    && (forall j | 0 <= j < |q.taking| :: q.taking[j].Ready?)
  }

  /** Whoever holds the mutex can go on, and if nobody does it is free. */
  lemma MutexMoves(q: Queue) returns (a: Action)
    requires Inv(q)
    ensures q.mutex > 0 || Enabled(q, a)
  {
    a := OfProducer(0);
    if q.mutex == 0 {
      if Sum(q.putting, HoldsMutex) > 0 {
        var i := SumHasTerm(q.putting, HoldsMutex);
        a := OfProducer(i);
      } else {
        var j := SumHasTerm(q.taking, HoldsMutex);
        a := OfConsumer(j);
      }
    }
  }

  /** With the mutex free, a process inside put or take can go on. */
  lemma InsideMoves(q: Queue, a: Action)
    requires Shaped(q) && q.mutex > 0
    requires match a
      case OfProducer(i) => i < |q.putting| && !q.putting[i].Ready?
      case OfConsumer(j) => j < |q.taking| && !q.taking[j].Ready?
    ensures Enabled(q, a)
  {
  }

  lemma AllOutside(q: Queue)
    requires Inv(q)
    requires forall i | 0 <= i < |q.putting| :: q.putting[i].Ready?
    requires forall j | 0 <= j < |q.taking| :: q.taking[j].Ready?
    ensures q.empty + q.full == q.cap && q.full == q.p - q.f
  {
    SumOfConstant(q.putting, HoldsToken, 0);
    SumOfConstant(q.taking, HoldsToken, 0);
    SumOfConstant(q.putting, OwesPost, 0);
    SumOfConstant(q.taking, OwesPost, 0);
  }

  lemma NoDeadlockOutside(q: Queue) returns (a: Action)
    requires Inv(q) && !Finished(q) && |q.prog.prods| == |q.prog.cons|
    requires forall i | 0 <= i < |q.putting| :: q.putting[i].Ready?
    requires forall j | 0 <= j < |q.taking| :: q.taking[j].Ready?
    ensures Enabled(q, a)
  {
    AllOutside(q);
    if ConsumersDone(q.prog) {
      ConsumersLast(q.prog);
    }
    if ProducersDone(q.prog) && q.full == 0 {
      ConsumersFollow(q.prog);
    }
    if q.full > 0 {
      var j :| 0 <= j < |q.taking| && q.prog.cons[j].going;
      a := OfConsumer(j);
    } else {
      var i :| 0 <= i < |q.putting| && q.prog.prods[i].going;
      a := OfProducer(i);
    }
  }

  /** As long as somebody has not finished, somebody can make a step. */
  lemma NoDeadlock(q: Queue) returns (a: Action)
    requires Inv(q) && !Finished(q) && |q.prog.prods| == |q.prog.cons|
    ensures Enabled(q, a)
  {
    a := MutexMoves(q);
    if !Enabled(q, a) {
      if i :| 0 <= i < |q.putting| && !q.putting[i].Ready? {
        a := OfProducer(i);
        InsideMoves(q, a);
      } else if j :| 0 <= j < |q.taking| && !q.taking[j].Ready? {
        a := OfConsumer(j);
        InsideMoves(q, a);
      } else {
        a := NoDeadlockOutside(q);
      }
    }
  }

  // ---- Runs ---------------------------------------------------------------------------------

  /** How many of its five steps a process has made of the put or take under way. */
  function StepsInto(ph: Phase): int {
    match ph
    case Ready => 0
    case Token => 1
    case Locked => 2
    case Moved => 3 - 5
    case Released => 4 - 5
  }

  /** The number of steps made so far. */
  ghost function StepsMade(q: Queue): int {
    5 * |q.prog.puts| + 5 * q.prog.taken + Sum(q.putting, StepsInto) + Sum(q.taking, StepsInto)
  }

  lemma ProducerStep(q: Queue, i: nat)
    requires Shaped(q) && Enabled(q, OfProducer(i))
    ensures StepsMade(Next(q, OfProducer(i))) == StepsMade(q) + 1
  {
    SumUpdate(q.putting, i, Next(q, OfProducer(i)).putting[i], StepsInto);
  }

  lemma ConsumerStep(q: Queue, j: nat)
    requires Shaped(q) && Enabled(q, OfConsumer(j))
    ensures StepsMade(Next(q, OfConsumer(j))) == StepsMade(q) + 1
  {
    SumUpdate(q.taking, j, Next(q, OfConsumer(j)).taking[j], StepsInto);
  }

  /** Each step is counted once. */
  lemma OneStepMore(q: Queue, a: Action)
    requires Shaped(q) && Enabled(q, a)
    ensures StepsMade(Next(q, a)) == StepsMade(q) + 1
  {
    match a
    case OfProducer(i) => ProducerStep(q, i);
    case OfConsumer(j) => ConsumerStep(q, j);
  }

  ghost predicate Steps(q: Queue, q': Queue) {
    exists a :: Enabled(q, a) && q' == Next(q, a)
  }

  ghost predicate StepAt(run: seq<Queue>, k: nat) {
    k + 1 < |run| && Steps(run[k], run[k + 1])
  }

  ghost predicate Stuck(q: Queue) {
    forall a :: !Enabled(q, a)
  }

  /** A run starts with garbage in the slots and takes any steps that are possible. */
  ghost predicate IsRun(run: seq<Queue>, kind: Kind, n: nat, c: nat, cap: nat) {
    && |run| > 0 && cap > 0
    && |run[0].slots| == cap && run[0] == Init(kind, n, c, cap, run[0].slots)
    && forall k: nat | k < |run| - 1 :: StepAt(run, k)
  }

  lemma Begin(q: Queue, kind: Kind, n: nat, c: nat, cap: nat)
    requires cap > 0 && |q.slots| == cap && q == Init(kind, n, c, cap, q.slots)
    ensures Inv(q) && StepsMade(q) == 0
    ensures q.prog.kind == kind && |q.prog.prods| == n && |q.prog.cons| == c
  {
    InitInv(kind, n, c, cap, q.slots);
    SumOfConstant(q.putting, StepsInto, 0);
    SumOfConstant(q.taking, StepsInto, 0);
  }

  lemma KindKept(q: Queue, a: Action)
    requires Enabled(q, a)
    ensures Next(q, a).prog.kind == q.prog.kind
    ensures |Next(q, a).prog.prods| == |q.prog.prods| && |Next(q, a).prog.cons| == |q.prog.cons|
  {
  }

  lemma StepKeeps(q: Queue, q': Queue)
    requires Inv(q) && Steps(q, q')
    ensures Inv(q') && StepsMade(q') == StepsMade(q) + 1
    ensures q'.prog.kind == q.prog.kind
    ensures |q'.prog.prods| == |q.prog.prods| && |q'.prog.cons| == |q.prog.cons|
  {
    var a :| Enabled(q, a) && q' == Next(q, a);
    NextInv(q, a);
    OneStepMore(q, a);
    KindKept(q, a);
  }

  lemma {:induction false} RunInv(run: seq<Queue>, kind: Kind, n: nat, c: nat, cap: nat, k: nat)
    requires IsRun(run, kind, n, c, cap) && k < |run|
    ensures Inv(run[k]) && StepsMade(run[k]) == k
    ensures run[k].prog.kind == kind && |run[k].prog.prods| == n && |run[k].prog.cons| == c
  {
    if k == 0 {
      Begin(run[0], kind, n, c, cap);
    } else {
      RunInv(run, kind, n, c, cap, k - 1);
      assert StepAt(run, k - 1);
      StepKeeps(run[k - 1], run[k]);
    }
  }

  /** Every run is finite: no run has more steps than ten for each put of the program and two for each process. */
  lemma RunsAreFinite(run: seq<Queue>, kind: Kind, n: nat, c: nat, cap: nat)
    requires IsRun(run, kind, n, c, cap)
    ensures |run| - 1 <= 10 * Total(kind, n) + 2 * n + 2 * c
  {
    var q := run[|run| - 1];
    RunInv(run, kind, n, c, cap, |run| - 1);
    PutsBounded(q.prog);
    SumAtMost(q.putting, StepsInto, 2);
    SumAtMost(q.taking, StepsInto, 2);
  }

  /**
   * The whole program, for any number of producers and as many consumers, any
   * number of items and any capacity: a run that cannot go on has finished every process, made exactly ten steps
   * for each put, and left the queue empty with everything put taken.
   */
  lemma RunsEndComplete(run: seq<Queue>, kind: Kind, n: nat, cap: nat)
    requires IsRun(run, kind, n, n, cap)
    requires Stuck(run[|run| - 1])
    ensures var q := run[|run| - 1];
      && Finished(q) && P.Inv(q.prog)
      && |run| - 1 == 10 * Total(kind, n)
      && q.f == q.p == Total(kind, n)
  {
    var q := run[|run| - 1];
    RunInv(run, kind, n, n, cap, |run| - 1);
    if !Finished(q) {
      var a := NoDeadlock(q);
    }
    ConsumersLast(q.prog);
    AllMade(q.prog);
    SumOfConstant(q.putting, StepsInto, 0);
    SumOfConstant(q.taking, StepsInto, 0);
  }

  /**
   * A run that cannot go on has finished every process and left the queue empty
   * if and only if there are as many consumers as producers.
   */
  lemma CompleteIffBalanced(run: seq<Queue>, kind: Kind, n: nat, c: nat, cap: nat)
    requires IsRun(run, kind, n, c, cap)
    requires Stuck(run[|run| - 1])
    ensures var q := run[|run| - 1]; Finished(q) && q.f == q.p <==> n == c
  {
    var q := run[|run| - 1];
    RunInv(run, kind, n, c, cap, |run| - 1);
    if Finished(q) && q.f == q.p {
      CompleteIsBalanced(q.prog);
    }
    if n == c {
      RunsEndComplete(run, kind, n, cap);
    }
  }

  /** In every state of every run each producer's nodes have been put in the order it made them, without gaps. */
  lemma PutsInOrder(run: seq<Queue>, items: nat, n: nat, c: nat, cap: nat, k: nat, i: nat)
    requires IsRun(run, StopObjects(items), n, c, cap) && k < |run| && i < n
    ensures var s := run[k].prog;
      && i < |s.prods| && By(s.puts, i) == Works(i, if s.prods[i].going then s.prods[i].made else items)
  {
    RunInv(run, StopObjects(items), n, c, cap, k);
  }

  /** Stop objects over the bounded queue: every node is consumed exactly once, every consumer stops exactly once. */
  lemma StopObjectProgram(run: seq<Queue>, items: nat, n: nat, cap: nat, i: nat, d: nat)
    requires IsRun(run, StopObjects(items), n, n, cap) && Stuck(run[|run| - 1])
    ensures var q := run[|run| - 1];
      && Got(q.prog.cons)[Work(i, d)] == (if i < n && d < items then 1 else 0)
      && (forall j | 0 <= j < |q.prog.cons| :: StopsOnce(q.prog.cons[j]) && !q.prog.cons[j].going)
  {
    RunInv(run, StopObjects(items), n, n, cap, |run| - 1);
    RunsEndComplete(run, StopObjects(items), n, cap);
    StopObjectDelivery(run[|run| - 1].prog, i, d);
  }

  /** The shared counter over the bounded queue: the ids consumed are 0 .. total + N - 1, once each. */
  lemma CountedProgram(run: seq<Queue>, total: nat, n: nat, cap: nat)
    requires IsRun(run, Counted(total), n, n, cap) && Stuck(run[|run| - 1]) && n > 0
    ensures var q := run[|run| - 1];
      && q.f == q.p == total + n
      && Got(q.prog.cons) == multiset(q.prog.puts)
      && |q.prog.puts| == total + n
      && (forall m | 0 <= m < total + n :: q.prog.puts[m].Work? && q.prog.puts[m].id == m)
  {
    RunInv(run, Counted(total), n, n, cap, |run| - 1);
    RunsEndComplete(run, Counted(total), n, cap);
    CountedDelivery(run[|run| - 1].prog);
  }

  /** The counters f and p fit a 32-bit int whenever the program's puts do. */
  lemma CountersFit(run: seq<Queue>, kind: Kind, n: nat, c: nat, cap: nat, k: nat)
    requires IsRun(run, kind, n, c, cap) && k < |run| && Total(kind, n) < 0x8000_0000
    ensures 0 <= run[k].f <= run[k].p < 0x8000_0000
  {
    RunInv(run, kind, n, c, cap, k);
    PutsBounded(run[k].prog);
  }
}
