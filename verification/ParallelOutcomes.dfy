/** What becomes of the inputs of a parallel step (work/pipeline_steps.go), told by what its function
    did with them, and why the step returns an error. */
module ParallelOutcomes {
  import opened Sequences
  import opened ParallelStep
  import opened ParallelSlots

  // ---------- Outputs are what the function made ----------

  /** Outputs of x that have been made, sent or not. */
  function Made(s: State, x: In): (n: nat)
  {
    s.log.sent[x] + s.log.lost[x] + s.jobs[Reporting(x, true)] + s.results[Out(x)]
    + One(s.collector == Sending(x)) + One(s.feeder == Telling(Out(x)))
  }

  lemma FeederMakes(s: State, step: FeederStep, x: In)
    requires FeederEnabled(s, step)
    ensures Made(FeederApply(s, step), x) == Made(s, x)
  {
  }

  lemma JobMakes(s: State, step: JobStep, x: In)
    requires JobEnabled(s, step)
    ensures Made(JobApply(s, step), x) == Made(s, x) + One(step == FuncReturns(x, true))
  {
  }

  lemma CollectMakes(s: State, res: Res, x: In)
    requires CollectorEnabled(s, Collect(res))
    ensures Made(CollectorApply(s, Collect(res)), x) == Made(s, x)
  {
    assert (s.results - multiset{res})[Out(x)] == s.results[Out(x)] - One(res == Out(x));
  }

  lemma SendMakes(s: State, step: CollectorStep, x: In)
    requires CollectorEnabled(s, step) && !step.Collect?
    ensures Made(CollectorApply(s, step), x) == Made(s, x)
  {
  }

  lemma StepMakes(s: State, step: Step, x: In)
    requires Enabled(s, step)
    ensures Made(Apply(s, step), x) == Made(s, x) + One(step == JobDoes(FuncReturns(x, true)))
  {
    match step
    case CancelStep =>
    case FeederDoes(f) => FeederMakes(s, f, x);
    case JobDoes(job) => JobMakes(s, job, x);
    case CollectorDoes(c) => if c.Collect? { CollectMakes(s, c.res, x); } else { SendMakes(s, c, x); }
  }

  lemma {:induction false} RunMakes(s: State, steps: seq<Step>, x: In)
    requires Legal(s, steps)
    ensures Made(After(s, steps), x) == Made(s, x) + multiset(steps)[JobDoes(FuncReturns(x, true))]
    decreases |steps|
  {
    if steps != [] {
      StepMakes(s, steps[0], x);
      HeadCount(steps, JobDoes(FuncReturns(x, true)));
      RunMakes(Apply(s, steps[0]), steps[1..], x);
    }
  }

  // ---------- Errors are what went wrong ----------

  /** A job fails or is refused, or the feeder finds its context cancelled. */
  predicate GoesWrong(step: Step)
  {
    match step
    case FeederDoes(SeeCancelled) => true
    case FeederDoes(StopReceiving(failed)) => failed
    case FeederDoes(RefuseJob) => true
    case JobDoes(FuncReturns(_, ok)) => !ok
    case _ => false
  }

  predicate WentWrong(steps: seq<Step>)
  {
    exists i :: 0 <= i < |steps| && GoesWrong(steps[i])
  }

  predicate IsError(res: Res)
  {
    res.Back? || res == Stop(true)
  }

  ghost predicate ErrorAmong(results: multiset<Res>)
  {
    exists r :: r in results && IsError(r)
  }

  ghost predicate FailedAmong(jobs: multiset<Job>)
  {
    exists x :: Reporting(x, false) in jobs
  }

  /** An error has been seen by the collector or is on its way to it. */
  ghost predicate Wrong(s: State)
  {
    s.failed || (s.feeder.Telling? && IsError(s.feeder.res)) || ErrorAmong(s.results) || FailedAmong(s.jobs)
  }

  lemma ErrorPlus(results: multiset<Res>, r: Res)
    ensures ErrorAmong(results + multiset{r}) <==> ErrorAmong(results) || IsError(r)
  {
    if ErrorAmong(results) {
      var e :| e in results && IsError(e);
      assert e in results + multiset{r};
    }
    if IsError(r) { assert r in results + multiset{r}; }
  }

  lemma FailedPlus(jobs: multiset<Job>, j: Job)
    ensures FailedAmong(jobs + multiset{j}) <==> FailedAmong(jobs) || (j.Reporting? && !j.ok)
  {
    if FailedAmong(jobs) {
      var x :| Reporting(x, false) in jobs;
      assert Reporting(x, false) in jobs + multiset{j};
    }
    if j.Reporting? && !j.ok { assert Reporting(j.x, false) in jobs + multiset{j}; }
  }

  lemma FeederWrong(s: State, step: FeederStep)
    requires FeederEnabled(s, step)
    ensures Wrong(FeederApply(s, step)) <==> Wrong(s) || GoesWrong(FeederDoes(step))
  {
    match step
    case AddJob => FailedPlus(s.jobs, Queued(s.feeder.x));
    case Tell => ErrorPlus(s.results, s.feeder.res);
    case _ =>
  }

  lemma FuncReturnsWrong(s: State, x: In, ok: bool)
    requires JobEnabled(s, FuncReturns(x, ok))
    ensures Wrong(JobApply(s, FuncReturns(x, ok))) <==> Wrong(s) || !ok
  {
    var rest := s.jobs - multiset{Queued(x)};
    assert s.jobs == rest + multiset{Queued(x)};
    FailedPlus(rest, Queued(x));
    FailedPlus(rest, Reporting(x, ok));
  }

  lemma ReportWrong(s: State, x: In, ok: bool)
    requires JobEnabled(s, Report(x, ok))
    ensures Wrong(JobApply(s, Report(x, ok))) <==> Wrong(s)
  {
    var rest := s.jobs - multiset{Reporting(x, ok)};
    assert s.jobs == rest + multiset{Reporting(x, ok)};
    FailedPlus(rest, Reporting(x, ok));
    ErrorPlus(s.results, if ok then Out(x) else Back(x));
  }

  lemma CollectWrong(s: State, res: Res)
    requires CollectorEnabled(s, Collect(res))
    ensures Wrong(CollectorApply(s, Collect(res))) <==> Wrong(s)
  {
    var rest := s.results - multiset{res};
    assert s.results == rest + multiset{res};
    ErrorPlus(rest, res);
    CollectorFails(s, Collect(res));
  }

  lemma SendWrong(s: State, step: CollectorStep)
    requires CollectorEnabled(s, step) && !step.Collect?
    ensures Wrong(CollectorApply(s, step)) <==> Wrong(s)
  {
  }

  lemma CancelWrong(s: State)
    ensures Wrong(Apply(s, CancelStep)) <==> Wrong(s)
  {
  }

  lemma StepWrong(s: State, step: Step)
    requires Enabled(s, step)
    ensures Wrong(Apply(s, step)) <==> Wrong(s) || GoesWrong(step)
  {
    match step
    case CancelStep => CancelWrong(s);
    case FeederDoes(f) => FeederWrong(s, f);
    case JobDoes(FuncReturns(x, ok)) => FuncReturnsWrong(s, x, ok);
    case JobDoes(Report(x, ok)) => ReportWrong(s, x, ok);
    case CollectorDoes(c) => if c.Collect? { CollectWrong(s, c.res); } else { SendWrong(s, c); }
  }

  lemma {:induction false} RunWrong(s: State, steps: seq<Step>)
    requires Legal(s, steps)
    ensures Wrong(After(s, steps)) <==> Wrong(s) || WentWrong(steps)
    decreases |steps|
  {
    if steps != [] {
      StepWrong(s, steps[0]);
      RunWrong(Apply(s, steps[0]), steps[1..]);
      if WentWrong(steps[1..]) {
        var i :| 0 <= i < |steps[1..]| && GoesWrong(steps[1..][i]);
        assert GoesWrong(steps[i + 1]);
      }
      if WentWrong(steps) {
        var i :| 0 <= i < |steps| && GoesWrong(steps[i]);
        if i > 0 { assert GoesWrong(steps[1..][i - 1]); }
      }
    }
  }

  /** When the step returns, exactly the inputs its function made an output of have gone out, or were
      lost in a failing send; all others came back. And it returns an error if and only if a job
      failed or was refused, or it found itself cancelled. */
  lemma OutcomesDecide(maxParallel: int, steps: seq<Step>, x: In)
    requires Legal(Start(maxParallel), steps) && After(Start(maxParallel), steps).collector.Returned?
    ensures var s, made := After(Start(maxParallel), steps), multiset(steps)[JobDoes(FuncReturns(x, true))];
            && s.log.sent[x] + s.log.lost[x] == made
            && s.log.received[x] == made + s.log.returned[x]
            && (s.failed <==> WentWrong(steps))
  {
    RunMakes(Start(maxParallel), steps, x);
    RunAccounted(Start(maxParallel), steps, x);
    RunInv(Start(maxParallel), steps);
    RunWrong(Start(maxParallel), steps);
  }
}
