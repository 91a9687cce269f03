/** Which slots of the parallel step are taken (work/pipeline_steps.go), and so when the next input can
    be received. */
module ParallelSlots {
  import opened Sequences
  import opened ParallelStep

  /** An error reaches the collector. */
  predicate IsFailure(step: Step)
  {
    step.CollectorDoes? && step.c.Collect? && (step.c.res.Back? || step.c.res == Stop(true))
  }

  /** An output leaves, sent or not. */
  predicate IsOutput(step: Step)
  {
    step == CollectorDoes(SendOutput) || step == CollectorDoes(FailOutput)
  }

  predicate Failed(steps: seq<Step>)
  {
    exists j :: 0 <= j < |steps| && IsFailure(steps[j])
  }

  /** Outputs that left after an error: their slots are not given back. */
  function Kept(steps: seq<Step>): (n: nat)
  {
    if steps == [] then 0
    else
      var init, last := steps[..|steps| - 1], steps[|steps| - 1];
      Kept(init) + One(IsOutput(last) && Failed(init))
  }

  lemma {:induction false} Unsnoc(s: State, steps: seq<Step>)
    requires Legal(s, steps) && steps != []
    ensures var (init, last) := (steps[..|steps| - 1], steps[|steps| - 1]);
            && Legal(s, init) && Enabled(After(s, init), last) && After(s, steps) == Apply(After(s, init), last)
    decreases |steps|
  {
    if |steps| > 1 {
      Unsnoc(Apply(s, steps[0]), steps[1..]);
      assert steps[1..][..|steps| - 2] == steps[..|steps| - 1][1..];
    }
  }

  ghost predicate AllAccounted(s: State)
  {
    forall x :: Accounted(s, x)
  }

  /** What is underway is in progress. */
  lemma UnderwayInProgress(s: State, x: In)
    requires AllAccounted(s) && Underway(s, x) > 0
    ensures InProgress(s) > 0
  {
    var through := s.log.sent + s.log.returned + s.log.lost;
    forall y ensures (through + multiset{x})[y] <= s.log.received[y] { assert Accounted(s, y); }
    var rest := s.log.received - (through + multiset{x});
    assert s.log.received == through + multiset{x} + rest;
    assert |s.log.received| == |through| + 1 + |rest|;
    assert |through| == |s.log.sent| + |s.log.returned| + |s.log.lost|;
  }

  /** While the feeder goes on, the slots taken are those of the inputs in progress, of the feeder
      about to receive, and those never given back. */
  ghost predicate SlotsExact(s: State, kept: nat)
  {
    Feeding(s.feeder) ==> s.slots == InProgress(s) + One(s.feeder.Receiving?) + kept
  }

  lemma FeederExact(s: State, step: FeederStep, kept: nat)
    requires SlotsExact(s, kept) && FeederEnabled(s, step)
    ensures SlotsExact(FeederApply(s, step), kept)
  {
  }

  lemma JobExact(s: State, step: JobStep, kept: nat)
    requires SlotsExact(s, kept) && JobEnabled(s, step)
    ensures SlotsExact(JobApply(s, step), kept)
  {
  }

  lemma CollectExact(s: State, res: Res, kept: nat)
    requires SlotsExact(s, kept) && SlotsHeld(s) && AllAccounted(s) && CollectorEnabled(s, Collect(res))
    ensures SlotsExact(CollectorApply(s, Collect(res)), kept)
  {
    if res.Back? { UnderwayInProgress(s, res.x); }
  }

  lemma SendExact(s: State, step: CollectorStep, kept: nat)
    requires SlotsExact(s, kept) && AllAccounted(s)
    requires CollectorEnabled(s, step) && (step.SendOutput? || step.FailOutput?)
    ensures SlotsExact(CollectorApply(s, step), kept + One(s.failed))
  {
    UnderwayInProgress(s, s.collector.x);
  }

  lemma CollectorExact(s: State, step: CollectorStep, kept: nat)
    requires SlotsExact(s, kept) && SlotsHeld(s) && AllAccounted(s) && CollectorEnabled(s, step)
    ensures SlotsExact(CollectorApply(s, step), kept + One(IsOutput(CollectorDoes(step)) && s.failed))
  {
    match step
    case Collect(res) => CollectExact(s, res, kept);
    case Return =>
    case _ => SendExact(s, step, kept);
  }

  lemma StepExact(s: State, step: Step, kept: nat)
    requires SlotsExact(s, kept) && SlotsHeld(s) && AllAccounted(s) && Enabled(s, step)
    ensures SlotsExact(Apply(s, step), kept + One(IsOutput(step) && s.failed))
  {
    match step
    case CancelStep =>
    case FeederDoes(f) => FeederExact(s, f, kept);
    case JobDoes(job) => JobExact(s, job, kept);
    case CollectorDoes(c) => CollectorExact(s, c, kept);
  }

  lemma CollectorFails(s: State, step: CollectorStep)
    requires CollectorEnabled(s, step)
    ensures CollectorApply(s, step).failed <==> s.failed || IsFailure(CollectorDoes(step))
  {
  }

  lemma StepFails(s: State, step: Step)
    requires Enabled(s, step)
    ensures Apply(s, step).failed <==> s.failed || IsFailure(step)
  {
    if step.CollectorDoes? { CollectorFails(s, step.c); }
  }

  lemma {:induction false} RunExact(maxParallel: int, steps: seq<Step>)
    requires Legal(Start(maxParallel), steps)
    ensures var s := After(Start(maxParallel), steps);
            && SlotsExact(s, Kept(steps)) && (s.failed <==> Failed(steps))
  {
    if steps != [] {
      var s0, init, last := Start(maxParallel), steps[..|steps| - 1], steps[|steps| - 1];
      Unsnoc(s0, steps);
      RunExact(maxParallel, init);
      RunInv(s0, init);
      forall x ensures Accounted(After(s0, init), x) { RunAccounted(s0, init, x); }
      StepExact(After(s0, init), last, Kept(init));
      StepFails(After(s0, init), last);
      FailedSnoc(steps);
    }
  }

  lemma FailedSnoc(steps: seq<Step>)
    requires steps != []
    ensures var (init, last) := (steps[..|steps| - 1], steps[|steps| - 1]);
            Failed(steps) <==> Failed(init) || IsFailure(last)
  {
    var init := steps[..|steps| - 1];
    if Failed(init) {
      var j :| 0 <= j < |init| && IsFailure(init[j]);
      assert IsFailure(steps[j]);
    }
  }

  /** In every run, as long as no error has come: a feeder that wants to go on can, if and only if
      fewer than max(1, MaxParallel) inputs are in progress. No slot is lost and none is made up. */
  lemma ClaimsWhileBelowMax(maxParallel: int, steps: seq<Step>)
    requires Legal(Start(maxParallel), steps)
    ensures var s := After(Start(maxParallel), steps);
            s.feeder.Claiming? ==>
              (Enabled(s, FeederDoes(ClaimSlot)) <==> InProgress(s) + Kept(steps) < Max(1, maxParallel))
    ensures !Failed(steps) ==> Kept(steps) == 0
  {
    RunExact(maxParallel, steps);
    SameMax(Start(maxParallel), steps);
    if !Failed(steps) { NothingKept(steps); }
  }

  lemma {:induction false} NothingKept(steps: seq<Step>)
    requires !Failed(steps)
    ensures Kept(steps) == 0
  {
    if steps != [] {
      FailedSnoc(steps);
      NothingKept(steps[..|steps| - 1]);
    }
  }
}
