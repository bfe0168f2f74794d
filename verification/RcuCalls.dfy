/** Insert and remove take effect at one instant of the call, and return what happened there. */
module RcuCalls {
  import opened PeMapSpec
  import opened RcuBucket
  import opened RcuInvariant
  import opened RcuTheorems
  import opened RcuMap

  datatype Call = InsertCall(key: Key, value: Value) | RemoveCall(key: Key)

  function CallAction(call: Call, w: nat): Action {
    match call
    case InsertCall(k, v) => CallInsert(w, k, v)
    case RemoveCall(k) => CallRemove(w, k)
  }

  /** At state s, action a is the instant at which the call of writer w takes effect and earns `ret`. */
  predicate TakesEffect(s: State, a: Action, w: nat, call: Call, ret: int) {
    && Enabled(s, a)
    && match call
       case InsertCall(k, v) =>
         || (ret == 0 && (a == AddHead(w) || a == Replace(w)) && WriteOf(s, a) == Put(k, v))
         || (ret == -1 && a == AllocFail(w))
       case RemoveCall(k) =>
         || (ret == 0 && a == Delete(w) && WriteOf(s, a) == Drop(k) && k in Contents(s))
         || (ret == -1 && a == Miss(w) && k !in Contents(s))
  }

  ghost predicate EffectAt(run: Run, b: Word, w: nat, call: Call, i: nat, ret: int) {
    && i < |run.events| && i < |run.states|
    && run.events[i].b == b && b in run.states[i]
    && TakesEffect(run.states[i][b], run.events[i].a, w, call, ret)
  }

  predicate OpMatches(op: Op, call: Call) {
    match op
    case Insert(k, v, _) => call == InsertCall(k, v)
    case Remove(k) => call == RemoveCall(k)
  }

  predicate ActsFor(a: Action, w: nat) {
    (a.CallInsert? || a.AllocFail? || a.AllocOk? || a.CallRemove? || a.Lock? || a.Advance? || a.Replace? ||
     a.AddHead? || a.Delete? || a.Miss? || a.Unlock? || a.CallRcu? || a.Leave?) && a.w == w
  }

  /** At state j the writer w of bucket b changes the abstract map. */
  ghost predicate Writes(run: Run, b: Word, w: nat, j: nat) {
    && j < |run.events| && j < |run.states|
    && run.events[j].b == b && b in run.states[j]
    && ActsFor(run.events[j].a, w) && Enabled(run.states[j][b], run.events[j].a)
    && !WriteOf(run.states[j][b], run.events[j].a).NoWrite?
  }

  ghost predicate Silent(run: Run, b: Word, w: nat, m: nat, n: nat) {
    forall j | m < j < n :: !Writes(run, b, w, j)
  }

  /** The call took effect at state i and wrote nothing at any other. */
  ghost predicate OnlyEffect(run: Run, b: Word, w: nat, call: Call, m: nat, n: nat, i: nat, ret: int) {
    && m < i < n && EffectAt(run, b, w, call, i, ret)
    && Silent(run, b, w, m, i) && Silent(run, b, w, i, n)
  }

  /** What a call has achieved, told from where it stands. */
  ghost predicate Progress(run: Run, b: Word, w: nat, call: Call, m: nat, n: nat, wr: Writer) {
    match wr
    case Calling(k, v) => call == InsertCall(k, v) && Silent(run, b, w, m, n)
    case Ready(op) => OpMatches(op, call) && Silent(run, b, w, m, n)
    case Walking(op, _, _) => OpMatches(op, call) && Silent(run, b, w, m, n)
    case Holding(_, ret) => exists i :: OnlyEffect(run, b, w, call, m, n, i, ret)
    case Retiring(_, ret) => exists i :: OnlyEffect(run, b, w, call, m, n, i, ret)
    case Returned(ret) => exists i :: OnlyEffect(run, b, w, call, m, n, i, ret)
  }

  /** The actions that end a call's loop. */
  predicate Effective(a: Action) {
    a.AllocFail? || a.Replace? || a.AddHead? || a.Delete? || a.Miss?
  }

  /** Any other action writes nothing, so what is known of the call goes on. */
  lemma EffectKept(run: Run, b: Word, w: nat, call: Call, m: nat, n: nat, i: nat, ret: int)
    requires OnlyEffect(run, b, w, call, m, n, i, ret) && !Writes(run, b, w, n)
    ensures OnlyEffect(run, b, w, call, m, n + 1, i, ret)
  {
  }

  lemma OthersAside(s: State, a: Action, w: nat)
    requires Enabled(s, a) && w in s.writers && !ActsFor(a, w)
    ensures w in Next(s, a).writers && Next(s, a).writers[w] == s.writers[w]
  {
  }

  /** The action that ends the loop is the one at which the call takes effect. */
  lemma EffectNow(s: State, a: Action, w: nat, call: Call)
    requires Inv(s) && Enabled(s, a) && w in s.writers && ActsFor(a, w)
    requires Effective(a)
    requires a.AllocFail? ==> call == InsertCall(s.writers[w].key, s.writers[w].value)
    requires s.writers[w].Walking? ==> OpMatches(s.writers[w].op, call)
    ensures var wr' := Next(s, a).writers[w]; (wr'.Holding? || wr'.Returned?) && TakesEffect(s, a, w, call, wr'.ret)
  {
    StepRefines(s, a);
  }

  /** Where the call stood before its own action, and where it stands after. */
  lemma OwnStep(s: State, a: Action, w: nat)
    requires Enabled(s, a) && w in s.writers && ActsFor(a, w) && !Effective(a)
    ensures w in Next(s, a).writers && WriteOf(s, a).NoWrite?
    ensures var wr, wr' := s.writers[w], Next(s, a).writers[w];
      || (wr.Calling? && wr' == Ready(Insert(wr.key, wr.value, a.e)))
      || (wr.Ready? && wr'.Walking? && wr'.op == wr.op)
      || (wr.Walking? && wr'.Walking? && wr'.op == wr.op)
      || (wr.Holding? && wr'.Retiring? && wr'.ret == wr.ret)
      || (wr.Retiring? && wr'.Returned? && wr'.ret == wr.ret)
  {
  }

  /** A state in which the call makes no progress that shows. */
  lemma ProgressQuiet(run: Run, b: Word, w: nat, call: Call, m: nat, n: nat, wr: Writer, wr': Writer)
    requires Progress(run, b, w, call, m, n, wr) && !Writes(run, b, w, n) && m < n
    requires
      || wr' == wr
      || (wr.Calling? && wr'.Ready? && wr'.op.Insert? && wr'.op.key == wr.key && wr'.op.value == wr.value)
      || (wr.Ready? && wr'.Walking? && wr'.op == wr.op)
      || (wr.Walking? && wr'.Walking? && wr'.op == wr.op)
      || (wr.Holding? && wr'.Retiring? && wr'.ret == wr.ret)
      || (wr.Retiring? && wr'.Returned? && wr'.ret == wr.ret)
    ensures Progress(run, b, w, call, m, n + 1, wr')
  {
    if wr.Holding? || wr.Retiring? || wr.Returned? {
      var i :| OnlyEffect(run, b, w, call, m, n, i, wr.ret);
      EffectKept(run, b, w, call, m, n, i, wr.ret);
    }
  }

  /** An effective action finds the call at work, with nothing written so far. */
  lemma EffectiveFrom(run: Run, b: Word, w: nat, call: Call, m: nat, n: nat, s: State, a: Action)
    requires Enabled(s, a) && w in s.writers && ActsFor(a, w) && Effective(a)
    requires Progress(run, b, w, call, m, n, s.writers[w])
    ensures Silent(run, b, w, m, n)
    ensures a.AllocFail? ==> call == InsertCall(s.writers[w].key, s.writers[w].value)
    ensures s.writers[w].Walking? ==> OpMatches(s.writers[w].op, call)
  {
  }

  lemma EffectShows(run: Run, b: Word, w: nat, call: Call, m: nat, n: nat, wr': Writer)
    requires m < n && Silent(run, b, w, m, n) && (wr'.Holding? || wr'.Returned?)
    requires EffectAt(run, b, w, call, n, wr'.ret)
    ensures Progress(run, b, w, call, m, n + 1, wr')
  {
    assert OnlyEffect(run, b, w, call, m, n + 1, n, wr'.ret);
  }

  lemma ProgressEffect(run: Run, mask: bv64, b: Word, w: nat, call: Call, m: nat, n: nat)
    requires IsRun(run, mask) && m < n < |run.states| - 1
    requires b in run.states[n] && w in run.states[n][b].writers && run.events[n].b == b
    requires ActsFor(run.events[n].a, w) && Effective(run.events[n].a)
    requires Progress(run, b, w, call, m, n, run.states[n][b].writers[w])
    ensures b in run.states[n + 1] && w in run.states[n + 1][b].writers
    ensures Progress(run, b, w, call, m, n + 1, run.states[n + 1][b].writers[w])
  {
    assert StepAt(run, mask, n);
    RunOk(run, mask, n);
    assert BucketOk(run.states[n], mask, b);
    var s, a := run.states[n][b], run.events[n].a;
    EffectiveFrom(run, b, w, call, m, n, s, a);
    EffectNow(s, a, w, call);
    EffectShows(run, b, w, call, m, n, Next(s, a).writers[w]);
  }

  lemma ProgressStep(run: Run, mask: bv64, b: Word, w: nat, call: Call, m: nat, n: nat)
    requires IsRun(run, mask) && m < n < |run.states| - 1
    requires b in run.states[n] && w in run.states[n][b].writers
    requires Progress(run, b, w, call, m, n, run.states[n][b].writers[w])
    ensures b in run.states[n + 1] && w in run.states[n + 1][b].writers
    ensures Progress(run, b, w, call, m, n + 1, run.states[n + 1][b].writers[w])
  {
    assert StepAt(run, mask, n);
    var s, a := run.states[n][b], run.events[n].a;
    if run.events[n].b == b && ActsFor(a, w) && Effective(a) {
      ProgressEffect(run, mask, b, w, call, m, n);
    } else {
      if run.events[n].b == b {
        if ActsFor(a, w) { OwnStep(s, a, w); } else { OthersAside(s, a, w); }
      }
      ProgressQuiet(run, b, w, call, m, n, s.writers[w], run.states[n + 1][b].writers[w]);
    }
  }

  lemma {:induction false} ProgressKept(run: Run, mask: bv64, b: Word, w: nat, call: Call, m: nat, n: nat)
    requires IsRun(run, mask) && m < n < |run.states|
    requires run.events[m] == Event(b, CallAction(call, w))
    ensures b in run.states[n] && w in run.states[n][b].writers
    ensures Progress(run, b, w, call, m, n, run.states[n][b].writers[w])
    decreases n
  {
    if n == m + 1 {
      assert StepAt(run, mask, m);
    } else {
      ProgressKept(run, mask, b, w, call, m, n - 1);
      ProgressStep(run, mask, b, w, call, m, n - 1);
    }
  }

  /**
   * A call that has returned took effect at one instant of its duration: an
   * insert returns 0 and wrote its value, or returns -1 because no memory was
   * had; a remove returns 0 and dropped a key that was there, or returns -1 at an
   * instant at which its key was absent.  At no other instant does it write.
   */
  lemma CallLinearizable(run: Run, mask: bv64, b: Word, w: nat, call: Call, m: nat, n: nat) returns (i: nat)
    requires IsRun(run, mask) && m < n < |run.states|
    requires run.events[m] == Event(b, CallAction(call, w))
    requires b in run.states[n] && w in run.states[n][b].writers && run.states[n][b].writers[w].Returned?
    ensures m < i < n && EffectAt(run, b, w, call, i, run.states[n][b].writers[w].ret)
    ensures forall j | m < j < n && j != i :: !Writes(run, b, w, j)
  {
    ProgressKept(run, mask, b, w, call, m, n);
    i :| OnlyEffect(run, b, w, call, m, n, i, run.states[n][b].writers[w].ret);
  }

  // ---- Entries are conserved --------------------------------------------------------

  /** Nobody is inside insert, remove or get. */
  predicate Quiescent(s: State) {
    && (forall w | w in s.writers :: s.writers[w].Returned?)
    && (forall r | r in s.readers :: s.readers[r].Finished?)
  }

  /** Every entry ever allocated is accounted for, once. */
  lemma EntriesConserved(s: State, e: nat)
    requires Inv(s) && e in s.entries
    ensures e in s.status
    ensures s.status[e].Live? <==> e in Last(s.log)
    ensures NeedsOwner(s.status[e]) <==> exists w :: w in s.writers && Owned(s.writers[w]) == Some(e)
    ensures forall w, v | w in s.writers && v in s.writers ::
      Owned(s.writers[w]) == Some(e) && Owned(s.writers[v]) == Some(e) ==> w == v
    ensures Quiescent(s) ==> s.status[e].Live? || s.status[e].Queued? || s.status[e].Freed?
  {
    if NeedsOwner(s.status[e]) {
      assert HasOwner(s.writers, e);
    }
    forall w | w in s.writers && Owned(s.writers[w]) == Some(e) ensures NeedsOwner(s.status[e]) {
      assert WriterOk(s.entries, s.status, Last(s.log), s.writers[w]);
    }
  }

  /** How far an entry is on its way: it only moves forward, so it is retired, queued and freed once each. */
  function Stage(st: Status): nat {
    match st
    case Private => 0
    case Live => 1
    case Retired => 2
    case Queued(_) => 3
    case Freed => 4
  }

  /** The entries an action touches are at the stage it expects. */
  predicate AtStage(s: State, a: Action)
    requires Enabled(s, a)
  {
    match a
    case AllocOk(_, e) => e !in s.status
    case AddHead(w) => var n := s.writers[w].op.node; n in s.status && s.status[n].Private?
    case Replace(w) =>
      var n, e := s.writers[w].op.node, s.writers[w].cur.value;
      n in s.status && s.status[n].Private? && e in s.status && s.status[e].Live?
    case Delete(w) => var e := s.writers[w].cur.value; e in s.status && s.status[e].Live?
    case CallRcu(w) => var e := s.writers[w].gone.value; e in s.status && s.status[e].Retired?
    case _ => true
  }

  lemma StageExpected(s: State, a: Action)
    requires Inv(s) && Enabled(s, a)
    ensures AtStage(s, a)
  {
    if a.AddHead? || a.Replace? || a.Delete? {
      assert WriterOk(s.entries, s.status, Last(s.log), s.writers[a.w]);
      WriterSafe(s, a.w);
    } else if a.CallRcu? {
      assert WriterOk(s.entries, s.status, Last(s.log), s.writers[a.w]);
    }
  }

  lemma LinkStages(s: State, a: Action, e: nat)
    requires Enabled(s, a) && AtStage(s, a) && e in s.status
    requires a.AddHead? || a.Replace? || a.Delete?
    ensures e in Next(s, a).status
    ensures var from, to := Stage(s.status[e]), Stage(Next(s, a).status[e]);
      (to == from || to == from + 1) && !(from == 3 && to == 4)
  {
  }

  lemma OtherStages(s: State, a: Action, e: nat)
    requires Enabled(s, a) && AtStage(s, a) && e in s.status
    requires !a.AddHead? && !a.Replace? && !a.Delete?
    ensures e in Next(s, a).status
    ensures var from, to := Stage(s.status[e]), Stage(Next(s, a).status[e]);
      (to == from || to == from + 1) && (a == Free(e) <==> from == 3 && to == 4)
  {
  }

  lemma StagesAdvance(s: State, a: Action, e: nat)
    requires Inv(s) && Enabled(s, a) && e in s.status
    ensures e in Next(s, a).status
    ensures var from, to := Stage(s.status[e]), Stage(Next(s, a).status[e]);
      (to == from || to == from + 1) && (a == Free(e) <==> from == 3 && to == 4)
  {
    StageExpected(s, a);
    if a.AddHead? || a.Replace? || a.Delete? {
      LinkStages(s, a, e);
    } else {
      OtherStages(s, a, e);
    }
  }
}
