/** The parallel step of a pipeline (work/pipeline_steps.go): one goroutine that claims slots,
    receives inputs and adds jobs, the jobs themselves, and the collector that sends outputs.

    Any interleaving of the steps below is a run. A send on the results channel takes effect as
    soon as it is made, and results may be collected in any order: the model has every run the
    code has, and more. */
module ParallelStep {
  import opened Sequences

  /** An input; its output is known by the input it was made from. */
  type In = nat

  /** A job result: the input came back, it became an output, or the feeder stopped. */
  datatype Res = Back(x: In) | Out(x: In) | Stop(failed: bool)

  datatype Feeder =
    | Claiming | Receiving | Adding(x: In)
    | Telling(res: Res) | Waiting | ClosedResults

  /** A job the pool has accepted and that has not reported its result. */
  datatype Job = Queued(x: In) | Reporting(x: In, ok: bool)

  datatype Collector = Ranging | Sending(x: In) | Returned

  /** sent went to the output, returned to RemainingInput, lost is an output whose send failed. */
  datatype Log = Log(received: multiset<In>, sent: multiset<In>, returned: multiset<In>, lost: multiset<In>)

  /** jobsCancelled and stepCancelled are the two contexts; failed is err != nil. */
  datatype State = State(
    maxParallel: int, jobsCancelled: bool, stepCancelled: bool,
    slots: nat, feeder: Feeder, jobs: multiset<Job>, results: multiset<Res>, collector: Collector,
    failed: bool, log: Log)

  datatype FeederStep =
    | ClaimSlot | SeeCancelled | Receive(x: In) | StopReceiving(failed: bool) | AddJob | RefuseJob
    | Tell | JobsDone

  datatype JobStep = FuncReturns(x: In, ok: bool) | Report(x: In, ok: bool)

  datatype CollectorStep = Collect(res: Res) | SendOutput | FailOutput | Return

  datatype Step =
    CancelStep | FeederDoes(f: FeederStep) | JobDoes(job: JobStep) | CollectorDoes(c: CollectorStep)

  function Max(a: int, b: int): (m: int)
  {
    if a > b then a else b
  }

  function Start(maxParallel: int): (s: State)
  {
    State(maxParallel, false, false, 0, Claiming, multiset{}, multiset{}, Ranging, false,
          Log(multiset{}, multiset{}, multiset{}, multiset{}))
  }

  predicate FeederEnabled(s: State, step: FeederStep)
  {
    match step
    case ClaimSlot => s.feeder.Claiming? && s.slots < Max(1, s.maxParallel)
    case SeeCancelled => s.feeder.Claiming? && s.jobsCancelled
    case Receive(_) => s.feeder.Receiving?
    case StopReceiving(failed) => s.feeder.Receiving? && (failed ==> s.jobsCancelled)
    case AddJob => s.feeder.Adding?
    case RefuseJob => s.feeder.Adding?
    case Tell => s.feeder.Telling?
    case JobsDone => s.feeder.Waiting? && s.jobs == multiset{}
  }

  predicate JobEnabled(s: State, step: JobStep)
  {
    match step
    case FuncReturns(x, _) => Queued(x) in s.jobs
    case Report(x, ok) => Reporting(x, ok) in s.jobs
  }

  predicate CollectorEnabled(s: State, step: CollectorStep)
  {
    match step
    case Collect(res) => s.collector.Ranging? && res in s.results
    case SendOutput => s.collector.Sending?
    case FailOutput => s.collector.Sending? && s.stepCancelled
    case Return => s.collector.Ranging? && s.results == multiset{} && s.feeder.ClosedResults?
  }

  predicate Enabled(s: State, step: Step)
  {
    match step
    case CancelStep => true
    case FeederDoes(f) => FeederEnabled(s, f)
    case JobDoes(job) => JobEnabled(s, job)
    case CollectorDoes(c) => CollectorEnabled(s, c)
  }

  function FreeSlot(slots: nat): (n: nat)
  {
    if slots > 0 then slots - 1 else 0
  }

  function FeederApply(s: State, step: FeederStep): (s': State)
    requires FeederEnabled(s, step)
  {
    match step
    case ClaimSlot => s.(slots := s.slots + 1, feeder := Receiving)
    case SeeCancelled => s.(feeder := Telling(Stop(true)))
    case Receive(x) => s.(feeder := Adding(x), log := s.log.(received := s.log.received + multiset{x}))
    case StopReceiving(failed) => s.(feeder := Telling(Stop(failed)))
    case AddJob => s.(feeder := Claiming, jobs := s.jobs + multiset{Queued(s.feeder.x)})
    case RefuseJob => s.(feeder := Telling(Back(s.feeder.x)))
    case Tell => s.(feeder := Waiting, results := s.results + multiset{s.feeder.res})
    case JobsDone => s.(feeder := ClosedResults)
  }

  function JobApply(s: State, step: JobStep): (s': State)
    requires JobEnabled(s, step)
  {
    match step
    case FuncReturns(x, ok) =>
      s.(jobs := s.jobs - multiset{Queued(x)} + multiset{Reporting(x, ok)}, jobsCancelled := s.jobsCancelled || !ok)
    case Report(x, ok) =>
      s.(jobs := s.jobs - multiset{Reporting(x, ok)}, results := s.results + multiset{if ok then Out(x) else Back(x)})
  }

  function CollectorApply(s: State, step: CollectorStep): (s': State)
    requires CollectorEnabled(s, step)
  {
    match step
    case Collect(res) =>
      var s1 := s.(results := s.results - multiset{res});
      (match res
       case Back(x) =>
         s1.(log := s.log.(returned := s.log.returned + multiset{x}), failed := true, slots := FreeSlot(s.slots))
       case Out(x) => s1.(collector := Sending(x))
       case Stop(failed) => s1.(failed := s.failed || failed, slots := FreeSlot(s.slots)))
    case SendOutput =>
      s.(log := s.log.(sent := s.log.sent + multiset{s.collector.x}), collector := Ranging,
         slots := if s.failed then s.slots else FreeSlot(s.slots))
    case FailOutput =>
      s.(log := s.log.(lost := s.log.lost + multiset{s.collector.x}), collector := Ranging,
         slots := if s.failed then s.slots else FreeSlot(s.slots))
    case Return => s.(collector := Returned)
  }

  function Apply(s: State, step: Step): (s': State)
    requires Enabled(s, step)
  {
    match step
    case CancelStep => s.(stepCancelled := true, jobsCancelled := true)
    case FeederDoes(f) => FeederApply(s, f)
    case JobDoes(job) => JobApply(s, job)
    case CollectorDoes(c) => CollectorApply(s, c)
  }

  predicate Legal(s: State, steps: seq<Step>)
    decreases |steps|
  {
    steps == [] || (Enabled(s, steps[0]) && Legal(Apply(s, steps[0]), steps[1..]))
  }

  function After(s: State, steps: seq<Step>): (s': State)
    requires Legal(s, steps)
    decreases |steps|
  {
    if steps == [] then s else After(Apply(s, steps[0]), steps[1..])
  }

  // ---------- Where an input can be ----------

  /** Copies of x on their way through the step. */
  function Underway(s: State, x: In): (n: nat)
  {
    One(s.feeder == Adding(x)) + One(s.feeder == Telling(Back(x))) + One(s.feeder == Telling(Out(x)))
    + s.jobs[Queued(x)] + s.jobs[Reporting(x, true)] + s.jobs[Reporting(x, false)]
    + s.results[Back(x)] + s.results[Out(x)]
    + One(s.collector == Sending(x))
  }

  /** Every input received is in exactly one place. */
  ghost predicate Accounted(s: State, x: In)
  {
    s.log.received[x] == s.log.sent[x] + s.log.returned[x] + s.log.lost[x] + Underway(s, x)
  }

  lemma FeederAccounted(s: State, step: FeederStep, x: In)
    requires Accounted(s, x) && FeederEnabled(s, step)
    ensures Accounted(FeederApply(s, step), x)
  {
  }

  lemma FuncReturnsAccounted(s: State, y: In, ok: bool, x: In)
    requires Accounted(s, x) && JobEnabled(s, FuncReturns(y, ok))
    ensures Accounted(JobApply(s, FuncReturns(y, ok)), x)
  {
  }

  lemma ReportAccounted(s: State, y: In, ok: bool, x: In)
    requires Accounted(s, x) && JobEnabled(s, Report(y, ok))
    ensures Accounted(JobApply(s, Report(y, ok)), x)
  {
  }

  lemma CollectAccounted(s: State, res: Res, x: In)
    requires Accounted(s, x) && CollectorEnabled(s, Collect(res))
    ensures Accounted(CollectorApply(s, Collect(res)), x)
  {
    var rest := s.results - multiset{res};
    assert rest[Back(x)] == s.results[Back(x)] - One(res == Back(x));
    assert rest[Out(x)] == s.results[Out(x)] - One(res == Out(x));
  }

  lemma SendAccounted(s: State, step: CollectorStep, x: In)
    requires Accounted(s, x) && CollectorEnabled(s, step) && !step.Collect?
    ensures Accounted(CollectorApply(s, step), x)
  {
  }

  lemma StepAccounted(s: State, step: Step, x: In)
    requires Accounted(s, x) && Enabled(s, step)
    ensures Accounted(Apply(s, step), x)
  {
    match step
    case CancelStep =>
    case FeederDoes(f) => FeederAccounted(s, f, x);
    case JobDoes(FuncReturns(y, ok)) => FuncReturnsAccounted(s, y, ok, x);
    case JobDoes(Report(y, ok)) => ReportAccounted(s, y, ok, x);
    case CollectorDoes(c) => if c.Collect? { CollectAccounted(s, c.res, x); } else { SendAccounted(s, c, x); }
  }

  lemma {:induction false} RunAccounted(s: State, steps: seq<Step>, x: In)
    requires Accounted(s, x) && Legal(s, steps)
    ensures Accounted(After(s, steps), x)
    decreases |steps|
  {
    if steps != [] {
      StepAccounted(s, steps[0], x);
      RunAccounted(Apply(s, steps[0]), steps[1..], x);
    }
  }

  // ---------- Slots and the end of a run ----------

  predicate Feeding(f: Feeder)
  {
    f.Claiming? || f.Receiving? || f.Adding?
  }

  /** Inputs received and not yet through. */
  function InProgress(s: State): (n: int)
  {
    |s.log.received| - |s.log.sent| - |s.log.returned| - |s.log.lost|
  }

  /** While the feeder goes on, every input in progress holds a slot. */
  ghost predicate SlotsHeld(s: State)
  {
    && s.slots <= Max(1, s.maxParallel)
    && InProgress(s) <= Max(1, s.maxParallel)
    && (Feeding(s.feeder) ==>
          && InProgress(s) + One(s.feeder.Receiving?) <= s.slots
          && forall r | r in s.results :: !r.Stop?)
  }

  ghost predicate EndsInOrder(s: State)
  {
    && (s.feeder.ClosedResults? ==> s.jobs == multiset{})
    && (s.collector.Returned? ==> s.feeder.ClosedResults? && s.results == multiset{})
  }

  ghost predicate LossesExplained(s: State)
  {
    && (s.log.lost != multiset{} ==> s.stepCancelled)
    && (s.log.returned != multiset{} ==> s.failed)
  }

  ghost predicate Inv(s: State)
  {
    SlotsHeld(s) && EndsInOrder(s) && LossesExplained(s)
  }

  lemma FeederSlots(s: State, step: FeederStep)
    requires SlotsHeld(s) && FeederEnabled(s, step)
    ensures SlotsHeld(FeederApply(s, step))
  {
  }

  lemma JobSlots(s: State, step: JobStep)
    requires SlotsHeld(s) && JobEnabled(s, step)
    ensures SlotsHeld(JobApply(s, step))
  {
  }

  lemma CollectSlots(s: State, res: Res)
    requires SlotsHeld(s) && CollectorEnabled(s, Collect(res))
    ensures SlotsHeld(CollectorApply(s, Collect(res)))
  {
  }

  lemma SendSlots(s: State, step: CollectorStep)
    requires SlotsHeld(s) && CollectorEnabled(s, step) && !step.Collect?
    ensures SlotsHeld(CollectorApply(s, step))
  {
  }

  lemma FeederEndsInOrder(s: State, step: FeederStep)
    requires EndsInOrder(s) && FeederEnabled(s, step)
    ensures EndsInOrder(FeederApply(s, step))
  {
  }

  lemma JobEndsInOrder(s: State, step: JobStep)
    requires EndsInOrder(s) && JobEnabled(s, step)
    ensures EndsInOrder(JobApply(s, step))
  {
    assert s.jobs != multiset{};
  }

  lemma CollectorEndsInOrder(s: State, step: CollectorStep)
    requires EndsInOrder(s) && CollectorEnabled(s, step)
    ensures EndsInOrder(CollectorApply(s, step))
  {
  }

  lemma StepEndsInOrder(s: State, step: Step)
    requires EndsInOrder(s) && Enabled(s, step)
    ensures EndsInOrder(Apply(s, step))
  {
    match step
    case CancelStep =>
    case FeederDoes(f) => FeederEndsInOrder(s, f);
    case JobDoes(job) => JobEndsInOrder(s, job);
    case CollectorDoes(c) => CollectorEndsInOrder(s, c);
  }

  lemma CollectorLosses(s: State, step: CollectorStep)
    requires LossesExplained(s) && CollectorEnabled(s, step)
    ensures LossesExplained(CollectorApply(s, step))
  {
    match step
    case Collect(Back(x)) => assert CollectorApply(s, step).failed;
    case Collect(Out(x)) => assert CollectorApply(s, step).log == s.log;
    case Collect(Stop(failed)) => assert CollectorApply(s, step).log == s.log;
    case FailOutput => assert CollectorApply(s, step).log.returned == s.log.returned;
    case _ =>
  }

  lemma StepLossesExplained(s: State, step: Step)
    requires LossesExplained(s) && Enabled(s, step)
    ensures LossesExplained(Apply(s, step))
  {
    if step.CollectorDoes? { CollectorLosses(s, step.c); }
  }

  lemma StepInv(s: State, step: Step)
    requires Inv(s) && Enabled(s, step)
    ensures Inv(Apply(s, step))
  {
    StepEndsInOrder(s, step);
    StepLossesExplained(s, step);
    match step
    case CancelStep =>
    case FeederDoes(f) => FeederSlots(s, f);
    case JobDoes(job) => JobSlots(s, job);
    case CollectorDoes(c) => if c.Collect? { CollectSlots(s, c.res); } else { SendSlots(s, c); }
  }

  lemma {:induction false} RunInv(s: State, steps: seq<Step>)
    requires Inv(s) && Legal(s, steps)
    ensures Inv(After(s, steps))
    decreases |steps|
  {
    if steps != [] {
      StepInv(s, steps[0]);
      RunInv(Apply(s, steps[0]), steps[1..]);
    }
  }

  /** At most max(1, MaxParallel) inputs are ever in progress, in any run. */
  lemma AtMostMaxParallel(maxParallel: int, steps: seq<Step>)
    requires Legal(Start(maxParallel), steps)
    ensures InProgress(After(Start(maxParallel), steps)) <= Max(1, maxParallel)
  {
    RunInv(Start(maxParallel), steps);
    SameMax(Start(maxParallel), steps);
  }

  lemma {:induction false} SameMax(s: State, steps: seq<Step>)
    requires Legal(s, steps)
    ensures After(s, steps).maxParallel == s.maxParallel
    decreases |steps|
  {
    if steps != [] { SameMax(Apply(s, steps[0]), steps[1..]); }
  }

  lemma StepLoses(s: State, step: Step)
    requires Enabled(s, step)
    ensures |Apply(s, step).log.lost| == |s.log.lost| + One(step == CollectorDoes(FailOutput))
  {
    match step
    case CollectorDoes(Collect(res)) => assert CollectorApply(s, step.c).log.lost == s.log.lost;
    case _ =>
  }

  lemma HeadCount(steps: seq<Step>, step: Step)
    requires steps != []
    ensures multiset(steps)[step] == One(steps[0] == step) + multiset(steps[1..])[step]
  {
    assert steps == [steps[0]] + steps[1..];
  }

  /** Outputs are lost by failing sends, one by each. */
  lemma {:induction false} LostByFailedSends(s: State, steps: seq<Step>)
    requires Legal(s, steps)
    ensures |After(s, steps).log.lost| == |s.log.lost| + multiset(steps)[CollectorDoes(FailOutput)]
    decreases |steps|
  {
    if steps != [] {
      StepLoses(s, steps[0]);
      HeadCount(steps, CollectorDoes(FailOutput));
      LostByFailedSends(Apply(s, steps[0]), steps[1..]);
    }
  }

  /** When the step returns, every input it received went out once or came back once exactly if
      no send of an output failed; and sends only fail once the step's own context is
      cancelled. Without an error nothing came back. */
  lemma EveryInputOnce(maxParallel: int, steps: seq<Step>)
    requires Legal(Start(maxParallel), steps) && After(Start(maxParallel), steps).collector.Returned?
    ensures var s := After(Start(maxParallel), steps);
            && (s.log.received == s.log.sent + s.log.returned <==> CollectorDoes(FailOutput) !in steps)
            && (s.log.lost == multiset{} <==> CollectorDoes(FailOutput) !in steps)
            && (!s.stepCancelled ==> s.log.lost == multiset{})
            && (!s.failed ==> s.log.returned == multiset{})
  {
    var s := After(Start(maxParallel), steps);
    RunInv(Start(maxParallel), steps);
    LostByFailedSends(Start(maxParallel), steps);
    assert s.log.received == s.log.sent + s.log.returned + s.log.lost by {
      forall x ensures s.log.received[x] == s.log.sent[x] + s.log.returned[x] + s.log.lost[x] {
        RunAccounted(Start(maxParallel), steps, x);
      }
    }
    assert |s.log.received| == |s.log.sent + s.log.returned| + |s.log.lost|;
  }

  // ---------- A run that loses an input ----------

  ghost predicate Reachable(s: State)
  {
    exists steps :: Legal(Start(s.maxParallel), steps) && After(Start(s.maxParallel), steps) == s
  }

  lemma {:induction false} Extend(s: State, steps: seq<Step>, step: Step)
    requires Legal(s, steps) && Enabled(After(s, steps), step)
    ensures Legal(s, steps + [step]) && After(s, steps + [step]) == Apply(After(s, steps), step)
    decreases |steps|
  {
    if steps == [] {
      assert steps + [step] == [step] && [step][1..] == [];
    } else {
      Extend(Apply(s, steps[0]), steps[1..], step);
      assert (steps + [step])[1..] == steps[1..] + [step];
    }
  }

  lemma Reach(s: State, step: Step, s': State)
    requires Reachable(s) && Enabled(s, step) && s' == Apply(s, step)
    ensures Reachable(s')
  {
    var steps :| Legal(Start(s.maxParallel), steps) && After(Start(s.maxParallel), steps) == s;
    Extend(Start(s.maxParallel), steps, step);
    assert s'.maxParallel == s.maxParallel by { SameMax(s, [step]); }
  }

  lemma ReachJob(x: In)
    ensures Reachable(State(1, false, false, 1, Claiming, multiset{Queued(x)}, multiset{}, Ranging, false,
                            Log(multiset{x}, multiset{}, multiset{}, multiset{})))
  {
    var s0 := Start(1);
    assert Legal(s0, []) && After(s0, []) == s0;
    var s1 := s0.(slots := 1, feeder := Receiving);
    Reach(s0, FeederDoes(ClaimSlot), s1);
    var s2 := s1.(feeder := Adding(x), log := s1.log.(received := multiset{x}));
    Reach(s1, FeederDoes(Receive(x)), s2);
    Reach(s2, FeederDoes(AddJob), s2.(feeder := Claiming, jobs := multiset{Queued(x)}));
  }

  lemma ReachReported(x: In)
    ensures Reachable(State(1, true, true, 1, Claiming, multiset{}, multiset{Out(x)}, Ranging, false,
                            Log(multiset{x}, multiset{}, multiset{}, multiset{})))
  {
    ReachJob(x);
    var s3 := State(1, false, false, 1, Claiming, multiset{Queued(x)}, multiset{}, Ranging, false,
                    Log(multiset{x}, multiset{}, multiset{}, multiset{}));
    var s4 := s3.(jobs := multiset{Reporting(x, true)});
    Reach(s3, JobDoes(FuncReturns(x, true)), s4);
    var s5 := s4.(jobs := multiset{}, results := multiset{Out(x)});
    Reach(s4, JobDoes(Report(x, true)), s5);
    Reach(s5, CancelStep, s5.(jobsCancelled := true, stepCancelled := true));
  }

  lemma ReachLost(x: In)
    ensures Reachable(State(1, true, true, 1, Receiving, multiset{}, multiset{}, Ranging, false,
                            Log(multiset{x}, multiset{}, multiset{}, multiset{x})))
  {
    ReachReported(x);
    var s6 := State(1, true, true, 1, Claiming, multiset{}, multiset{Out(x)}, Ranging, false,
                    Log(multiset{x}, multiset{}, multiset{}, multiset{}));
    var s7 := s6.(results := multiset{}, collector := Sending(x));
    Reach(s6, CollectorDoes(Collect(Out(x))), s7);
    var s8 := s7.(collector := Ranging, slots := 0, log := s7.log.(lost := multiset{x}));
    Reach(s7, CollectorDoes(FailOutput), s8);
    Reach(s8, FeederDoes(ClaimSlot), s8.(slots := 1, feeder := Receiving));
  }

  /** A cancelled step can lose an input and still return no error: the send of its output
      fails, the failure is not looked at, and RemainingInput is not called. */
  lemma CancelledStepCanLoseInput(x: In)
    ensures Reachable(State(1, true, true, 0, ClosedResults, multiset{}, multiset{}, Returned, false,
                            Log(multiset{x}, multiset{}, multiset{}, multiset{x})))
  {
    ReachLost(x);
    var s9 := State(1, true, true, 1, Receiving, multiset{}, multiset{}, Ranging, false,
                    Log(multiset{x}, multiset{}, multiset{}, multiset{x}));
    var s10 := s9.(feeder := Telling(Stop(false)));
    Reach(s9, FeederDoes(StopReceiving(false)), s10);
    var s11 := s10.(feeder := Waiting, results := multiset{Stop(false)});
    Reach(s10, FeederDoes(Tell), s11);
    var s12 := s11.(feeder := ClosedResults);
    Reach(s11, FeederDoes(JobsDone), s12);
    var s13 := s12.(results := multiset{}, slots := 0);
    Reach(s12, CollectorDoes(Collect(Stop(false))), s13);
    Reach(s13, CollectorDoes(Return), s13.(collector := Returned));
  }
}
