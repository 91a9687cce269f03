/** When a parallel step can still lose an input: from a state of a run, exactly as long as an
    output is still to come. */
module ParallelLosses {
  import opened ParallelStep

  /** The send of an output can fail some time from here. */
  ghost predicate CanLose(s: State)
  {
    exists steps :: Legal(s, steps) && CollectorDoes(FailOutput) in steps
  }

  /** A slot is free, or an input that came back or is about to will free one. A slot taken for an
      output that was sent after an error is not freed any more. */
  ghost predicate SlotToCome(s: State)
  {
    || s.slots < Max(1, s.maxParallel)
    || (exists x :: Back(x) in s.results)
    || (exists x :: Reporting(x, false) in s.jobs)
  }

  /** An output is being sent, waiting, being made, or can still be asked for. */
  ghost predicate OutputAhead(s: State)
  {
    || s.collector.Sending?
    || (exists x :: Out(x) in s.results)
    || (exists x :: Reporting(x, true) in s.jobs)
    || (exists x :: Queued(x) in s.jobs)
    || s.feeder.Receiving? || s.feeder.Adding?
    || (s.feeder.Claiming? && SlotToCome(s))
  }

  // ---------- With an output ahead, an input can be lost ----------

  lemma First(s: State, step: Step, rest: seq<Step>)
    requires Enabled(s, step) && Legal(Apply(s, step), rest) && CollectorDoes(FailOutput) in rest
    ensures CanLose(s)
  {
    var steps := [step] + rest;
    assert steps[1..] == rest;
    assert Legal(s, steps);
  }

  lemma Before(s: State, step: Step)
    requires Enabled(s, step) && CanLose(Apply(s, step))
    ensures CanLose(s)
  {
    var rest :| Legal(Apply(s, step), rest) && CollectorDoes(FailOutput) in rest;
    First(s, step, rest);
  }

  lemma LoseSending(s: State)
    requires s.collector.Sending?
    ensures CanLose(s)
  {
    var s1 := Apply(s, CancelStep);
    var last := [CollectorDoes(FailOutput)];
    assert Legal(Apply(s1, last[0]), []) && last[1..] == [];
    assert Legal(s1, last);
    First(s, CancelStep, last);
  }

  lemma LoseOut(s: State, x: In)
    requires Out(x) in s.results && !s.collector.Returned?
    ensures CanLose(s)
  {
    if s.collector.Sending? {
      LoseSending(s);
    } else {
      LoseSending(Apply(s, CollectorDoes(Collect(Out(x)))));
      Before(s, CollectorDoes(Collect(Out(x))));
    }
  }

  lemma LoseReporting(s: State, x: In)
    requires Reporting(x, true) in s.jobs && !s.collector.Returned?
    ensures CanLose(s)
  {
    LoseOut(Apply(s, JobDoes(Report(x, true))), x);
    Before(s, JobDoes(Report(x, true)));
  }

  lemma LoseQueued(s: State, x: In)
    requires Queued(x) in s.jobs && !s.collector.Returned?
    ensures CanLose(s)
  {
    LoseReporting(Apply(s, JobDoes(FuncReturns(x, true))), x);
    Before(s, JobDoes(FuncReturns(x, true)));
  }

  lemma LoseAdding(s: State)
    requires s.feeder.Adding? && !s.collector.Returned?
    ensures CanLose(s)
  {
    LoseQueued(Apply(s, FeederDoes(AddJob)), s.feeder.x);
    Before(s, FeederDoes(AddJob));
  }

  lemma LoseReceiving(s: State)
    requires s.feeder.Receiving? && !s.collector.Returned?
    ensures CanLose(s)
  {
    LoseAdding(Apply(s, FeederDoes(Receive(0))));
    Before(s, FeederDoes(Receive(0)));
  }

  lemma LoseFreeSlot(s: State)
    requires s.feeder.Claiming? && s.slots < Max(1, s.maxParallel) && !s.collector.Returned?
    ensures CanLose(s)
  {
    LoseReceiving(Apply(s, FeederDoes(ClaimSlot)));
    Before(s, FeederDoes(ClaimSlot));
  }

  lemma LoseBack(s: State, x: In)
    requires s.feeder.Claiming? && Back(x) in s.results && SlotsHeld(s) && !s.collector.Returned?
    ensures CanLose(s)
  {
    if s.collector.Sending? {
      LoseSending(s);
    } else {
      LoseFreeSlot(Apply(s, CollectorDoes(Collect(Back(x)))));
      Before(s, CollectorDoes(Collect(Back(x))));
    }
  }

  lemma LoseClaiming(s: State)
    requires s.feeder.Claiming? && SlotToCome(s) && SlotsHeld(s) && !s.collector.Returned?
    ensures CanLose(s)
  {
    if s.slots < Max(1, s.maxParallel) {
      LoseFreeSlot(s);
    } else if x :| Back(x) in s.results {
      LoseBack(s, x);
    } else {
      var x :| Reporting(x, false) in s.jobs;
      JobSlots(s, Report(x, false));
      LoseBack(Apply(s, JobDoes(Report(x, false))), x);
      Before(s, JobDoes(Report(x, false)));
    }
  }

  lemma AheadCanLose(s: State)
    requires Inv(s) && OutputAhead(s)
    ensures CanLose(s)
  {
    if s.collector.Sending? {
      LoseSending(s);
    } else if x :| Out(x) in s.results {
      LoseOut(s, x);
    } else if x :| Reporting(x, true) in s.jobs {
      LoseReporting(s, x);
    } else if x :| Queued(x) in s.jobs {
      LoseQueued(s, x);
    } else if s.feeder.Receiving? {
      LoseReceiving(s);
    } else if s.feeder.Adding? {
      LoseAdding(s);
    } else {
      LoseClaiming(s);
    }
  }

  // ---------- With none ahead, none comes ----------

  /** The feeder reports inputs that come back and its own end, never an output. */
  predicate TellsNoOutput(s: State)
  {
    s.feeder.Telling? ==> !s.feeder.res.Out?
  }

  lemma FeederStaysBehind(s: State, step: FeederStep)
    requires TellsNoOutput(s) && !OutputAhead(s) && FeederEnabled(s, step)
    ensures !OutputAhead(FeederApply(s, step))
  {
  }

  lemma JobStaysBehind(s: State, step: JobStep)
    requires !OutputAhead(s) && JobEnabled(s, step)
    ensures !OutputAhead(JobApply(s, step))
  {
    var s' := JobApply(s, step);
    assert step == Report(step.x, false);
    assert !s.feeder.Claiming?;
    forall x ensures Out(x) !in s'.results && Queued(x) !in s'.jobs && Reporting(x, true) !in s'.jobs {}
  }

  lemma CollectorStaysBehind(s: State, step: CollectorStep)
    requires SlotsHeld(s) && !OutputAhead(s) && CollectorEnabled(s, step)
    ensures !OutputAhead(CollectorApply(s, step)) && step != FailOutput
  {
  }

  lemma StepStaysBehind(s: State, step: Step)
    requires Inv(s) && TellsNoOutput(s) && !OutputAhead(s) && Enabled(s, step)
    ensures TellsNoOutput(Apply(s, step)) && !OutputAhead(Apply(s, step)) && step != CollectorDoes(FailOutput)
  {
    match step
    case CancelStep =>
    case FeederDoes(f) => FeederStaysBehind(s, f);
    case JobDoes(job) => JobStaysBehind(s, job);
    case CollectorDoes(c) => CollectorStaysBehind(s, c);
  }

  lemma {:induction false} BehindNeverLoses(s: State, steps: seq<Step>)
    requires Inv(s) && TellsNoOutput(s) && !OutputAhead(s) && Legal(s, steps)
    ensures CollectorDoes(FailOutput) !in steps
    decreases |steps|
  {
    if steps != [] {
      StepStaysBehind(s, steps[0]);
      StepInv(s, steps[0]);
      BehindNeverLoses(Apply(s, steps[0]), steps[1..]);
    }
  }

  lemma {:induction false} RunTellsNoOutput(s: State, steps: seq<Step>)
    requires TellsNoOutput(s) && Legal(s, steps)
    ensures TellsNoOutput(After(s, steps))
    decreases |steps|
  {
    if steps != [] { RunTellsNoOutput(Apply(s, steps[0]), steps[1..]); }
  }

  /** From a state of a run an input can still be lost exactly when an output is ahead. */
  lemma CanLoseIffOutputAhead(s: State)
    requires Reachable(s)
    ensures CanLose(s) <==> OutputAhead(s)
  {
    var before :| Legal(Start(s.maxParallel), before) && After(Start(s.maxParallel), before) == s;
    RunInv(Start(s.maxParallel), before);
    RunTellsNoOutput(Start(s.maxParallel), before);
    if OutputAhead(s) {
      AheadCanLose(s);
    } else if CanLose(s) {
      var steps :| Legal(s, steps) && CollectorDoes(FailOutput) in steps;
      BehindNeverLoses(s, steps);
    }
  }
}
