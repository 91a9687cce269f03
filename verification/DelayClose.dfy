/** The delay pool (delay/pool.go) makes progress: the processor never starts a round in vain, items go
    out in order, and closing always gets through. */
module DelayClose {
  import opened DelayPool
  import opened DelayRuns
  import opened DelaySpace

  ghost predicate DueBy<T>(heap: multiset<Item<T>>, t: int)
  {
    exists x :: x in heap && x.due <= t
  }

  /** The processor waits for something that is there, and a round it starts has something to send. */
  ghost predicate Purposeful<T>(s: State<T>)
  {
    (s.pool.space ==> s.pool.capacity > 0) && ToTheEnd(s)
  }

  ghost predicate ToTheEnd<T>(s: State<T>)
  {
    match s.proc
    case Have(next) => DueBy(s.pool.heap, next)
    case WaitTimer(next) => DueBy(s.pool.heap, next)
    case Starting => DueBy(s.pool.heap, s.now)
    case Ready(asOf, processed) => processed > 0 || DueBy(s.pool.heap, asOf)
    case Leaving(processed) => processed > 0
    case _ => true
  }

  lemma DueByMore<T>(heap: multiset<Item<T>>, heap': multiset<Item<T>>, t: int, t': int)
    requires DueBy(heap, t) && heap <= heap' && t <= t'
    ensures DueBy(heap', t')
  {
    var x :| x in heap && x.due <= t;
    assert x in heap';
  }

  lemma AdderPurposeful<T>(s: State<T>, a: nat, step: AdderStep<T>)
    requires Purposeful(s) && AdderEnabled(s, a, step)
    ensures Purposeful(AdderApply(s, a, step))
  {
    var s' := AdderApply(s, a, step);
    assert s.pool.heap <= s'.pool.heap;
    match s.proc
    case Have(next) => DueByMore(s.pool.heap, s'.pool.heap, next, next);
    case WaitTimer(next) => DueByMore(s.pool.heap, s'.pool.heap, next, next);
    case Starting => DueByMore(s.pool.heap, s'.pool.heap, s.now, s.now);
    case Ready(asOf, processed) => if processed == 0 { DueByMore(s.pool.heap, s'.pool.heap, asOf, asOf); }
    case _ =>
  }

  lemma ProcPurposeful<T>(s: State<T>, step: ProcStep<T>)
    requires Purposeful(s) && InTime(s) && ProcEnabled(s, step)
    ensures Purposeful(ProcApply(s, step))
  {
    match step
    case Snapshot(x) => assert DueBy(s.pool.heap, x.due);
    case CheckClock => if s.proc.next <= s.now { DueByMore(s.pool.heap, s.pool.heap, s.proc.next, s.now); }
    case TimerFires => DueByMore(s.pool.heap, s.pool.heap, s.proc.next, s.now);
    case _ =>
  }

  lemma StepPurposeful<T>(s: State<T>, step: Step<T>)
    requires Inv(s) && Purposeful(s) && Enabled(s, step)
    ensures Purposeful(Apply(s, step))
  {
    match step
    case Tick(to) => if s.proc.Starting? { DueByMore(s.pool.heap, s.pool.heap, s.now, to); }
    case AdderDoes(a, add) => AdderPurposeful(s, a, add);
    case ProcDoes(p) => ProcPurposeful(s, p);
    case CloserDoes(c) =>
  }

  lemma {:induction false} RunPurposeful<T>(s: State<T>, steps: seq<Step<T>>)
    requires Inv(s) && Purposeful(s) && Legal(s, steps)
    ensures Purposeful(After(s, steps))
    decreases |steps|
  {
    if steps != [] {
      StepPurposeful(s, steps[0]);
      StepKeeps(s, steps[0]);
      RunPurposeful(Apply(s, steps[0]), steps[1..]);
    }
  }

  /** In every run the processor starts sending only when something is due, and ends no round
      without having taken something out; and room is only signalled where there can be too
      little. */
  lemma EveryRoundDelivers<T>(start: State<T>, steps: seq<Step<T>>)
    requires Init(start) && Legal(start, steps)
    ensures var s := After(start, steps);
            && (s.proc.Starting? ==> DueBy(s.pool.heap, s.now))
            && (s.proc.Leaving? ==> s.proc.processed > 0)
            && (s.pool.space ==> s.pool.capacity > 0)
  {
    RunPurposeful(start, steps);
  }

  // ---------- Order ----------

  /** Item x is taken out of the heap, by the processor or the closer. */
  predicate TakesOut<T(==)>(step: Step<T>, x: Item<T>)
  {
    step == ProcDoes(Pop(x)) || step == CloserDoes(DrainPop(x))
  }

  ghost predicate NoneDueBefore<T>(heap: multiset<Item<T>>, t: int)
  {
    forall x | x in heap :: t <= x.due
  }

  lemma StepNoneBefore<T>(s: State<T>, step: Step<T>, t: int)
    requires NoneDueBefore(s.pool.heap, t) && Enabled(s, step) && !step.AdderDoes?
    ensures NoneDueBefore(Apply(s, step).pool.heap, t)
  {
    match step
    case Tick(_) =>
    case ProcDoes(p) => assert ProcApply(s, p).pool.heap <= s.pool.heap;
    case CloserDoes(c) => assert CloserApply(s, c).pool.heap <= s.pool.heap;
  }

  lemma {:induction false} NoneBefore<T>(s: State<T>, steps: seq<Step<T>>, t: int, y: Item<T>)
    requires NoneDueBefore(s.pool.heap, t) && Legal(s, steps)
    requires forall k | 0 <= k < |steps| :: !steps[k].AdderDoes?
    requires exists k :: 0 <= k < |steps| && TakesOut(steps[k], y)
    ensures t <= y.due
    decreases |steps|
  {
    var k :| 0 <= k < |steps| && TakesOut(steps[k], y);
    if k > 0 {
      StepNoneBefore(s, steps[0], t);
      assert TakesOut(steps[1..][k - 1], y);
      NoneBefore(Apply(s, steps[0]), steps[1..], t, y);
    }
  }

  /** Items go out in the order they are due, as long as nobody adds one. */
  lemma OutInOrder<T>(s: State<T>, steps: seq<Step<T>>, x: Item<T>, y: Item<T>)
    requires Legal(s, steps) && steps != [] && TakesOut(steps[0], x)
    requires forall k | 0 <= k < |steps| :: !steps[k].AdderDoes?
    requires exists k :: 0 < k < |steps| && TakesOut(steps[k], y)
    ensures x.due <= y.due
  {
    var k :| 0 < k < |steps| && TakesOut(steps[k], y);
    assert TakesOut(steps[1..][k - 1], y);
    assert NoneDueBefore(s.pool.heap, x.due);
    StepNoneBefore(s, steps[0], x.due);
    NoneBefore(Apply(s, steps[0]), steps[1..], x.due, y);
  }

  // ---------- Closing ----------

  /** How far the processor is from leaving, with the context cancelled. */
  ghost function ProcRank<T>(s: State<T>): (n: nat)
  {
    10 * |s.pool.heap| +
    match s.proc
    case Sending(_, _, _) => 9
    case Ready(_, processed) => if processed > 0 then 8 else 3
    case Leaving(_) => 7
    case Top => 6
    case Have(_) => 5
    case Starting => 4
    case WaitTimer(_) => 1
    case WaitEmpty => 1
    case Exited => 0
  }

  /** What the processor can do next. */
  lemma ProcNext<T(!new)>(s: State<T>) returns (step: ProcStep<T>)
    requires Inv(s) && Purposeful(s) && s.closer.Cancelled() && !s.proc.Exited?
    ensures ProcEnabled(s, step) && ProcRank(ProcApply(s, step)) < ProcRank(s)
  {
    match s.proc
    case Top =>
      if s.pool.heap == multiset{} {
        step := SnapshotEmpty;
      } else {
        var x := PickEarliest(s.pool.heap);
        step := Snapshot(x);
      }
    case Have(_) => step := CheckClock;
    case WaitEmpty => step := ProcessorStops;
    case WaitTimer(_) => step := ProcessorStops;
    case Starting => step := StartReady;
    case Ready(asOf, processed) => step := ReadyNext(s);
    case Sending(_, _, _) => step := Send;
    case Leaving(_) => step := Signal;
  }

  lemma ReadyNext<T(!new)>(s: State<T>) returns (step: ProcStep<T>)
    requires Purposeful(s) && s.proc.Ready?
    ensures ProcEnabled(s, step) && ProcRank(ProcApply(s, step)) < ProcRank(s)
  {
    if x :| x in s.pool.heap && x.due <= s.proc.asOf {
      var first := PickEarliest(s.pool.heap);
      assert |s.pool.heap - multiset{first}| == |s.pool.heap| - 1;
      step := Pop(first);
    } else {
      step := ReadyDone;
    }
  }

  lemma {:induction false} ProcessorLeaves<T(!new)>(s0: State<T>, s: State<T>) returns (s': State<T>)
    requires Leads(s0, s) && Inv(s) && Purposeful(s) && s.closer.Joining?
    ensures Leads(s0, s') && Inv(s') && s'.proc.Exited? && s'.closer == s.closer && s'.now == s.now
    decreases ProcRank(s)
  {
    if s.proc.Exited? { return s; }
    var step := ProcNext(s);
    s' := Then(s0, s, ProcDoes(step));
    StepKeeps(s, ProcDoes(step));
    StepPurposeful(s, ProcDoes(step));
    s' := ProcessorLeaves(s0, s');
  }

  lemma {:induction false} Drains<T(!new)>(s0: State<T>, s: State<T>) returns (s': State<T>)
    requires Leads(s0, s) && s.closer.Draining?
    ensures Leads(s0, s') && s'.closer == OutputClosed(s.closer.respect) && (!s.closer.respect ==> s'.now == s.now)
    decreases |s.pool.heap|
  {
    if s.pool.heap == multiset{} {
      s' := Then(s0, s, CloserDoes(DrainDone));
    } else {
      var x := PickEarliest(s.pool.heap);
      var s1 := Then(s0, s, Tick(if s.closer.respect && x.due > s.now then x.due else s.now));
      var s2 := Then(s0, s1, CloserDoes(DrainPop(x)));
      var s3 := Then(s0, s2, CloserDoes(DrainSend));
      assert |s.pool.heap - multiset{x}| == |s.pool.heap| - 1;
      s' := Drains(s0, s3);
    }
  }

  /** From every state of every run, Close and CloseImmediate can get to their end, provided that
      somebody takes what is sent: no adder has to do anything, and nobody has to cancel.
      CloseImmediate does not wait for any item to be due. */
  lemma CloseCanFinish<T(!new)>(s: State<T>) returns (s': State<T>)
    requires Reachable(s) && !s.closer.NotClosing?
    ensures Leads(s, s') && s'.closer == OutputClosed(s.closer.respect) && (!s.closer.respect ==> s'.now == s.now)
  {
    var start :| Init(start) && Leads(start, s);
    var steps :| Legal(start, steps) && After(start, steps) == s;
    RunInv(start, steps);
    RunPurposeful(start, steps);
    Stand(s);
    s' := s;
    if s'.closer.Marked? {
      StepKeeps(s', CloserDoes(Cancel));
      StepPurposeful(s', CloserDoes(Cancel));
      s' := Then(s, s', CloserDoes(Cancel));
    }
    if s'.closer.Joining? {
      s' := ProcessorLeaves(s, s');
      s' := Then(s, s', CloserDoes(Joined));
    }
    if s'.closer.DrainSending? { s' := Then(s, s', CloserDoes(DrainSend)); }
    if s'.closer.Draining? { s' := Drains(s, s'); }
  }
}
