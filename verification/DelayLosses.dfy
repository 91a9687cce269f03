/** What closing a delay pool can lose (delay/pool.go:309-319): an item in the processor's hand is
    dropped when the close context wins the select against the receiver. */
module DelayLosses {
  import opened Sequences
  import opened DelayPool
  import opened DelayRuns
  import opened DelaySpace
  import opened DelayClose

  // ---------- Only the processor drops ----------

  lemma StepDrops<T>(s: State<T>, step: Step<T>)
    requires Enabled(s, step)
    ensures |Apply(s, step).dropped| == |s.dropped| + One(step == ProcDoes(Drop))
  {
  }

  lemma HeadCount<T>(steps: seq<Step<T>>, step: Step<T>)
    requires steps != []
    ensures multiset(steps)[step] == One(steps[0] == step) + multiset(steps[1..])[step]
  {
    assert steps == [steps[0]] + steps[1..];
  }

  lemma {:induction false} RunDrops<T>(s: State<T>, steps: seq<Step<T>>)
    requires Legal(s, steps)
    ensures |After(s, steps).dropped| == |s.dropped| + multiset(steps)[ProcDoes(Drop)]
    decreases |steps|
  {
    if steps != [] {
      StepDrops(s, steps[0]);
      HeadCount(steps, ProcDoes(Drop));
      RunDrops(Apply(s, steps[0]), steps[1..]);
    }
  }

  /** When the output has been closed, everything accepted went out exactly if the context never won
      that select. */
  lemma AllOutIffNoDrop<T(!new)>(start: State<T>, steps: seq<Step<T>>)
    requires Init(start) && Legal(start, steps) && After(start, steps).closer.OutputClosed?
    ensures var s := After(start, steps); s.accepted == s.delivered + s.flushed <==> ProcDoes(Drop) !in steps
  {
    var s := After(start, steps);
    ClosedMeansDrained(start, steps);
    RunDrops(start, steps);
    assert ProcDoes(Drop) in steps <==> ProcDoes(Drop) in multiset(steps);
    assert |s.accepted| == |s.delivered + s.flushed| + |s.dropped|;
  }

  // ---------- When an item can still be dropped ----------

  /** Some run from here drops an item. */
  ghost predicate CanDrop<T(!new)>(s: State<T>)
  {
    exists s' :: Leads(s, s') && |s'.dropped| > |s.dropped|
  }

  /** The processor has left, or nothing is left for it and nothing more can come. */
  ghost predicate Safe<T>(s: State<T>)
  {
    s.proc.Exited? || (s.pool.closed && s.pool.heap == multiset{} && !s.proc.Sending?)
  }

  lemma AdderSafe<T>(s: State<T>, a: nat, step: AdderStep<T>)
    requires Inv(s) && Safe(s) && AdderEnabled(s, a, step)
    ensures Safe(AdderApply(s, a, step)) && AdderApply(s, a, step).dropped == s.dropped
  {
  }

  lemma ProcSafe<T>(s: State<T>, step: ProcStep<T>)
    requires Safe(s) && ProcEnabled(s, step)
    ensures Safe(ProcApply(s, step)) && ProcApply(s, step).dropped == s.dropped
  {
  }

  lemma CloserSafe<T>(s: State<T>, step: CloserStep<T>)
    requires InOrder(s) && Safe(s) && CloserEnabled(s, step)
    ensures Safe(CloserApply(s, step)) && CloserApply(s, step).dropped == s.dropped
  {
  }

  lemma StepSafe<T>(s: State<T>, step: Step<T>)
    requires Inv(s) && Safe(s) && Enabled(s, step)
    ensures Safe(Apply(s, step)) && Apply(s, step).dropped == s.dropped
  {
    match step
    case Tick(_) =>
    case AdderDoes(a, add) => AdderSafe(s, a, add);
    case ProcDoes(p) => ProcSafe(s, p);
    case CloserDoes(c) => CloserSafe(s, c);
  }

  lemma {:induction false} RunSafe<T>(s: State<T>, steps: seq<Step<T>>)
    requires Inv(s) && Safe(s) && Legal(s, steps)
    ensures After(s, steps).dropped == s.dropped
    decreases |steps|
  {
    if steps != [] {
      StepSafe(s, steps[0]);
      StepKeeps(s, steps[0]);
      RunSafe(Apply(s, steps[0]), steps[1..]);
    }
  }

  /** Closing with the processor at work on something. */
  ghost predicate Losing<T>(s: State<T>)
  {
    Inv(s) && Purposeful(s) && s.closer.Joining? && !s.proc.Exited?
  }

  lemma Go<T(!new)>(s0: State<T>, s: State<T>, step: Step<T>) returns (s': State<T>)
    requires Leads(s0, s) && Inv(s) && Purposeful(s) && Enabled(s, step)
    ensures s' == Apply(s, step) && Leads(s0, s') && Inv(s') && Purposeful(s')
  {
    s' := Then(s0, s, step);
    StepPurposeful(s, step);
  }

  ghost predicate SameLosses<T>(s: State<T>, s': State<T>)
  {
    s'.delivered == s.delivered && s'.flushed == s.flushed && s'.dropped == s.dropped && s'.closer == s.closer
  }

  /** From a round that has started, with something due. */
  lemma ReadySends<T(!new)>(s0: State<T>, s: State<T>) returns (s': State<T>)
    requires Leads(s0, s) && Losing(s) && s.proc.Ready? && DueBy(s.pool.heap, s.proc.asOf)
    ensures Leads(s0, s') && Losing(s') && SameLosses(s, s') && s'.proc.Sending?
    ensures s.pool.heap == s'.pool.heap + multiset{s'.proc.item}
  {
    var x := PickEarliest(s.pool.heap);
    s' := Go(s0, s, ProcDoes(Pop(x)));
  }

  lemma StartingSends<T(!new)>(s0: State<T>, s: State<T>) returns (s': State<T>)
    requires Leads(s0, s) && Losing(s) && s.proc.Starting?
    ensures Leads(s0, s') && Losing(s') && SameLosses(s, s') && s'.proc.Sending?
    ensures s.pool.heap == s'.pool.heap + multiset{s'.proc.item}
  {
    var s1 := Go(s0, s, ProcDoes(StartReady));
    s' := ReadySends(s0, s1);
  }

  lemma WaitingSends<T(!new)>(s0: State<T>, s: State<T>) returns (s': State<T>)
    requires Leads(s0, s) && Losing(s) && (s.proc.Have? || s.proc.WaitTimer?)
    ensures Leads(s0, s') && Losing(s') && SameLosses(s, s') && s'.proc.Sending?
    ensures s.pool.heap == s'.pool.heap + multiset{s'.proc.item}
  {
    var s1 := Go(s0, s, Tick(if s.proc.next > s.now then s.proc.next else s.now));
    var s2 := Go(s0, s1, ProcDoes(if s.proc.Have? then CheckClock else TimerFires));
    s' := StartingSends(s0, s2);
  }

  lemma TopSends<T(!new)>(s0: State<T>, s: State<T>) returns (s': State<T>)
    requires Leads(s0, s) && Losing(s) && s.proc.Top? && s.pool.heap != multiset{}
    ensures Leads(s0, s') && Losing(s') && SameLosses(s, s') && s'.proc.Sending?
    ensures s.pool.heap == s'.pool.heap + multiset{s'.proc.item}
  {
    var x := PickEarliest(s.pool.heap);
    var s1 := Go(s0, s, ProcDoes(Snapshot(x)));
    s' := WaitingSends(s0, s1);
  }

  /** Whatever the processor does, it can come to send an item of the heap. */
  lemma SendsOne<T(!new)>(s0: State<T>, s: State<T>) returns (s': State<T>)
    requires Leads(s0, s) && Losing(s) && !s.proc.Sending? && s.pool.heap != multiset{}
    ensures Leads(s0, s') && Losing(s') && SameLosses(s, s') && s'.proc.Sending?
    ensures s.pool.heap == s'.pool.heap + multiset{s'.proc.item}
  {
    match s.proc
    case Top => s' := TopSends(s0, s);
    case Have(_) => s' := WaitingSends(s0, s);
    case WaitTimer(_) => s' := WaitingSends(s0, s);
    case Starting => s' := StartingSends(s0, s);
    case WaitEmpty =>
      s' := Go(s0, s, ProcDoes(TakeToken));
      s' := TopSends(s0, s');
    case Leaving(_) =>
      s' := Go(s0, s, ProcDoes(Signal));
      s' := TopSends(s0, s');
    case Ready(asOf, _) =>
      if DueBy(s.pool.heap, asOf) {
        s' := ReadySends(s0, s);
      } else {
        s' := Go(s0, s, ProcDoes(ReadyDone));
        s' := Go(s0, s', ProcDoes(Signal));
        s' := TopSends(s0, s');
      }
  }

  /** With nothing left the processor can leave, and the closer finish. */
  lemma LeavesEmpty<T(!new)>(s0: State<T>, s: State<T>) returns (s': State<T>)
    requires Leads(s0, s) && Inv(s) && Purposeful(s) && s.closer.Joining? && s.proc.Top? && s.pool.heap == multiset{}
    ensures Leads(s0, s') && s'.closer == OutputClosed(s.closer.respect)
    ensures s'.delivered == s.delivered && s'.flushed == s.flushed && s'.dropped == s.dropped
  {
    var s1 := Go(s0, s, ProcDoes(SnapshotEmpty));
    var s2 := Go(s0, s1, ProcDoes(ProcessorStops));
    var s3 := Go(s0, s2, CloserDoes(Joined));
    s' := Go(s0, s3, CloserDoes(DrainDone));
  }

  lemma {:induction false} DropsOn<T(!new)>(s0: State<T>, s: State<T>) returns (s': State<T>)
    requires Leads(s0, s) && Losing(s) && s.proc.Sending?
    ensures Leads(s0, s') && s'.closer == OutputClosed(s.closer.respect)
    ensures s'.delivered == s.delivered && s'.flushed == s.flushed
    ensures s'.dropped == s.dropped + multiset{s.proc.item} + s.pool.heap
    decreases |s.pool.heap|
  {
    var s1 := Go(s0, s, ProcDoes(Drop));
    if s1.pool.heap == multiset{} {
      s' := LeavesEmpty(s0, s1);
    } else {
      var s2 := SendsOne(s0, s1);
      s' := DropsOn(s0, s2);
    }
  }

  /** Closing can lose everything: whatever the pool still holds or is about to send can be dropped,
      item by item, before the processor leaves. */
  lemma CloseCanLoseAll<T(!new)>(s: State<T>) returns (s': State<T>)
    requires Reachable(s) && s.closer.Joining? && !s.proc.Exited?
    ensures Leads(s, s') && s'.closer == OutputClosed(s.closer.respect)
    ensures s'.delivered == s.delivered && s'.flushed == s.flushed
    ensures s'.dropped == s.dropped + s.pool.heap + InHand(s)
  {
    ReachablePurposeful(s);
    Stand(s);
    if s.proc.Sending? {
      s' := DropsOn(s, s);
    } else if s.pool.heap != multiset{} {
      var s1 := SendsOne(s, s);
      s' := DropsOn(s, s1);
    } else {
      s' := CloseCanFinishEmpty(s);
    }
  }

  lemma ReachablePurposeful<T(!new)>(s: State<T>)
    requires Reachable(s)
    ensures Inv(s) && Purposeful(s)
  {
    var start :| Init(start) && Leads(start, s);
    var steps :| Legal(start, steps) && After(start, steps) == s;
    RunInv(start, steps);
    RunPurposeful(start, steps);
  }

  /** An empty pool closes without losing anything. */
  lemma CloseCanFinishEmpty<T(!new)>(s: State<T>) returns (s': State<T>)
    requires Leads(s, s) && Losing(s) && !s.proc.Sending? && s.pool.heap == multiset{}
    ensures Leads(s, s') && s'.closer == OutputClosed(s.closer.respect)
    ensures s'.delivered == s.delivered && s'.flushed == s.flushed && s'.dropped == s.dropped
  {
    match s.proc
    case Top => s' := LeavesEmpty(s, s);
    case WaitEmpty =>
      s' := Go(s, s, ProcDoes(ProcessorStops));
      s' := Go(s, s', CloserDoes(Joined));
      s' := Go(s, s', CloserDoes(DrainDone));
    case Leaving(_) =>
      s' := Go(s, s, ProcDoes(Signal));
      s' := LeavesEmpty(s, s');
    case Ready(_, _) =>
      s' := Go(s, s, ProcDoes(ReadyDone));
      s' := Go(s, s', ProcDoes(Signal));
      s' := LeavesEmpty(s, s');
  }

  // ---------- Exactly when ----------

  lemma {:induction false} FreshAdder<T>(adders: map<nat, Adder<T>>) returns (a: nat)
    ensures forall b | b in adders :: b < a
    decreases |adders|
  {
    if adders == map[] { return 0; }
    var b :| b in adders;
    assert |adders - {b}| < |adders| by { assert (adders - {b}).Keys == adders.Keys - {b}; }
    a := FreshAdder(adders - {b});
    forall c | c in adders ensures c < (if a > b then a else b + 1) { assert c == b || c in adders - {b}; }
    a := if a > b then a else b + 1;
  }

  /** An open pool can get an item. */
  lemma GetsItem<T(!new)>(s0: State<T>, s: State<T>, v: T) returns (s': State<T>)
    requires Leads(s0, s) && Inv(s) && Purposeful(s) && !s.pool.closed && s.pool.heap == multiset{}
    ensures Leads(s0, s') && Inv(s') && Purposeful(s') && s'.pool.heap != multiset{}
    ensures s'.proc == s.proc && s'.closer == s.closer && s'.dropped == s.dropped
  {
    var a := FreshAdder(s.adders);
    var x := Item(v, 0, s.now);
    var s1 := Go(s0, s, AdderDoes(a, BeginAdd(x)));
    s' := Go(s0, s1, AdderDoes(a, Try));
    assert x in s'.pool.heap;
  }

  lemma Closes<T(!new)>(s0: State<T>, s: State<T>) returns (s': State<T>)
    requires Leads(s0, s) && Inv(s) && Purposeful(s) && !s.proc.Exited?
    ensures Leads(s0, s') && Losing(s')
    ensures s'.proc == s.proc && s'.pool.heap == s.pool.heap && s'.dropped == s.dropped
  {
    s' := s;
    if s'.closer.NotClosing? { s' := Go(s0, s', CloserDoes(FirstClose(true))); }
    if s'.closer.Marked? { s' := Go(s0, s', CloserDoes(Cancel)); }
  }

  lemma LosesOne<T(!new)>(s: State<T>, v: T) returns (s': State<T>)
    requires Inv(s) && Purposeful(s) && !Safe(s)
    ensures Leads(s, s') && |s'.dropped| > |s.dropped|
  {
    Stand(s);
    s' := s;
    if !s.proc.Sending? && s.pool.heap == multiset{} { s' := GetsItem(s, s', v); }
    s' := Closes(s, s');
    if !s'.proc.Sending? { s' := SendsOne(s, s'); }
    s' := Go(s, s', ProcDoes(Drop));
  }

  /** Exactly when an item can still be dropped: as long as the processor is there and something is in
      the pool or in its hand, or can still be added. So Close is sure to deliver everything exactly
      if the pool is empty when it is called, and nothing is being sent. */
  lemma CanDropIff<T(!new)>(s: State<T>, v: T)
    requires Reachable(s)
    ensures CanDrop(s) <==>
            !s.proc.Exited? && (s.proc.Sending? || s.pool.heap != multiset{} || !s.pool.closed)
  {
    ReachablePurposeful(s);
    if Safe(s) {
      forall s' | Leads(s, s') ensures s'.dropped == s.dropped {
        var steps :| Legal(s, steps) && After(s, steps) == s';
        RunSafe(s, steps);
      }
    } else {
      var s' := LosesOne(s, v);
    }
  }
}
