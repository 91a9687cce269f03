/** A parallel step (work/pipeline_steps.go) is never stuck: whatever it has come to, it can return
    without anybody cancelling it. */
module ParallelReturn {
  import opened Sequences
  import opened ParallelStep
  import opened ParallelSlots
  import opened ParallelOutcomes

  /** An error that is under way has cancelled the jobs before the feeder looks for a slot again. */
  ghost predicate Cancels(s: State)
  {
    Feeding(s.feeder) && Wrong(s) ==> s.jobsCancelled
  }

  lemma StepCancels(s: State, step: Step)
    requires Cancels(s) && Enabled(s, step)
    ensures Cancels(Apply(s, step))
  {
    StepWrong(s, step);
  }

  /** What a step can always go on from. */
  ghost predicate Sound(s: State, kept: nat)
  {
    && Cancels(s) && SlotsHeld(s) && EndsInOrder(s) && AllAccounted(s) && SlotsExact(s, kept)
    && (kept > 0 ==> s.failed)
  }

  lemma StepSound(s: State, step: Step, kept: nat)
    requires Sound(s, kept) && LossesExplained(s) && Enabled(s, step)
    ensures Sound(Apply(s, step), kept + One(IsOutput(step) && s.failed)) && LossesExplained(Apply(s, step))
  {
    StepCancels(s, step);
    StepInv(s, step);
    StepExact(s, step, kept);
    StepFails(s, step);
    forall x ensures Accounted(Apply(s, step), x) { StepAccounted(s, step, x); }
  }

  /** How much there is left to do. */
  function FeederRank(f: Feeder): (n: nat)
  {
    match f
    case Adding(_) => 10
    case Claiming => 6
    case Receiving => 5
    case Telling(_) => 4
    case Waiting => 1
    case ClosedResults => 0
  }

  function CollectorRank(c: Collector): (n: nat)
  {
    match c
    case Sending(_) => 2
    case Ranging => 1
    case Returned => 0
  }

  function Rank(s: State): (n: nat)
  {
    3 * |s.jobs| + 2 * |s.results| + FeederRank(s.feeder) + CollectorRank(s.collector)
  }

  lemma NothingUnderway(s: State)
    requires AllAccounted(s) && forall x :: Underway(s, x) == 0
    ensures InProgress(s) == 0
  {
    assert s.log.received == s.log.sent + s.log.returned + s.log.lost by {
      forall x ensures s.log.received[x] == (s.log.sent + s.log.returned + s.log.lost)[x] { assert Accounted(s, x); }
    }
  }

  /** With nothing under way the feeder finds a slot, or finds itself cancelled. */
  lemma FeederGoesOn(s: State, kept: nat) returns (step: FeederStep)
    requires Sound(s, kept) && s.feeder.Claiming?
    requires s.jobs == multiset{} && s.results == multiset{} && s.collector.Ranging?
    ensures FeederEnabled(s, step) && (step.ClaimSlot? || step.SeeCancelled?)
  {
    NothingUnderway(s);
    step := if s.slots < Max(1, s.maxParallel) then ClaimSlot else SeeCancelled;
  }

  lemma FeederNext(s: State, kept: nat) returns (step: Step)
    requires Sound(s, kept) && s.jobs == multiset{} && s.results == multiset{} && s.collector.Ranging?
    ensures Enabled(s, step) && step != CancelStep && Rank(Apply(s, step)) < Rank(s)
  {
    match s.feeder
    case Claiming =>
      var f := FeederGoesOn(s, kept);
      step := FeederDoes(f);
    case Receiving => step := FeederDoes(StopReceiving(false));
    case Adding(_) => step := FeederDoes(AddJob);
    case Telling(_) => step := FeederDoes(Tell);
    case Waiting => step := FeederDoes(JobsDone);
    case ClosedResults => step := CollectorDoes(Return);
  }

  lemma {:induction false} Joined(s: State, a: seq<Step>, b: seq<Step>)
    requires Legal(s, a) && Legal(After(s, a), b)
    ensures Legal(s, a + b) && After(s, a + b) == After(After(s, a), b)
    decreases |a|
  {
    if a == [] {
      assert a + b == b;
    } else {
      Joined(Apply(s, a[0]), a[1..], b);
      assert (a + b)[1..] == a[1..] + b;
    }
  }

  lemma Single(s: State, step: Step)
    requires Enabled(s, step)
    ensures Legal(s, [step]) && After(s, [step]) == Apply(s, step)
  {
    assert [step][1..] == [] && Legal(Apply(s, step), []);
  }

  lemma ReportRank(s: State, x: In, ok: bool)
    requires JobEnabled(s, Report(x, ok))
    ensures Rank(JobApply(s, Report(x, ok))) < Rank(s)
  {
    assert |s.jobs - multiset{Reporting(x, ok)}| == |s.jobs| - 1;
  }

  lemma FuncReturnsRank(s: State, x: In)
    requires JobEnabled(s, FuncReturns(x, true))
    ensures var s' := JobApply(s, FuncReturns(x, true)); Rank(s') == Rank(s) && Reporting(x, true) in s'.jobs
  {
    assert |s.jobs - multiset{Queued(x)}| == |s.jobs| - 1;
  }

  lemma ReportNext(s: State, x: In, ok: bool) returns (steps: seq<Step>)
    requires Reporting(x, ok) in s.jobs
    ensures Legal(s, steps) && CancelStep !in steps && Rank(After(s, steps)) < Rank(s)
  {
    steps := [JobDoes(Report(x, ok))];
    Single(s, JobDoes(Report(x, ok)));
    ReportRank(s, x, ok);
  }

  lemma QueuedNext(s: State, x: In) returns (steps: seq<Step>)
    requires Queued(x) in s.jobs
    ensures Legal(s, steps) && CancelStep !in steps && Rank(After(s, steps)) < Rank(s)
  {
    var first := JobDoes(FuncReturns(x, true));
    FuncReturnsRank(s, x);
    Single(s, first);
    var rest := ReportNext(After(s, [first]), x, true);
    Joined(s, [first], rest);
    steps := [first] + rest;
  }

  lemma CollectorNext(s: State) returns (step: Step)
    requires s.collector.Sending? || (s.collector.Ranging? && s.results != multiset{})
    ensures Enabled(s, step) && step != CancelStep && Rank(Apply(s, step)) < Rank(s)
  {
    if s.collector.Sending? {
      step := CollectorDoes(SendOutput);
    } else {
      var res :| res in s.results;
      step := CollectorDoes(Collect(res));
      assert |s.results - multiset{res}| == |s.results| - 1;
      assert Apply(s, step).results == s.results - multiset{res};
    }
  }

  lemma Next(s: State, kept: nat) returns (steps: seq<Step>)
    requires Sound(s, kept) && !s.collector.Returned?
    ensures Legal(s, steps) && CancelStep !in steps && Rank(After(s, steps)) < Rank(s)
  {
    if s.collector.Sending? || s.results != multiset{} {
      var step := CollectorNext(s);
      Single(s, step);
      steps := [step];
    } else if s.jobs != multiset{} {
      var job :| job in s.jobs;
      match job
      case Queued(x) => steps := QueuedNext(s, x);
      case Reporting(x, ok) => steps := ReportNext(s, x, ok);
    } else {
      var step := FeederNext(s, kept);
      Single(s, step);
      steps := [step];
    }
  }

  lemma {:induction false} RunSound(s: State, steps: seq<Step>, kept: nat) returns (kept': nat)
    requires Sound(s, kept) && LossesExplained(s) && Legal(s, steps)
    ensures Sound(After(s, steps), kept') && LossesExplained(After(s, steps))
    decreases |steps|
  {
    if steps == [] { return kept; }
    StepSound(s, steps[0], kept);
    kept' := RunSound(Apply(s, steps[0]), steps[1..], kept + One(IsOutput(steps[0]) && s.failed));
  }

  lemma {:induction false} SoundReturns(s: State, kept: nat) returns (steps: seq<Step>)
    requires Sound(s, kept) && LossesExplained(s)
    ensures Legal(s, steps) && CancelStep !in steps && After(s, steps).collector.Returned?
    decreases Rank(s)
  {
    if s.collector.Returned? { return []; }
    var a := Next(s, kept);
    var kept' := RunSound(s, a, kept);
    var b := SoundReturns(After(s, a), kept');
    Joined(s, a, b);
    steps := a + b;
  }

  /** From every state of every run the step can return, and nobody has to cancel it for that. */
  lemma CanReturn(maxParallel: int, steps: seq<Step>) returns (more: seq<Step>)
    requires Legal(Start(maxParallel), steps)
    ensures var s := After(Start(maxParallel), steps);
            Legal(s, more) && CancelStep !in more && After(s, more).collector.Returned?
  {
    var kept := RunSound(Start(maxParallel), steps, 0);
    more := SoundReturns(After(Start(maxParallel), steps), kept);
  }
}
