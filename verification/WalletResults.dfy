/** What payments give back (anonpay/wallet/payment.go), over every interleaving: told by the steps that
    were taken for a payment. */
module WalletResults {
  import opened Bytes
  import opened WalletRuns

  /** The credit payment i was answered with. */
  function Answer(steps: seq<Step>, i: nat): (credit: Option<nat>)
  {
    if steps == [] then None
    else
      var last := steps[|steps| - 1];
      if last.Respond? && last.i == i then last.credit else Answer(steps[..|steps| - 1], i)
  }

  predicate IsCompletion(step: Step, i: nat)
  {
    step == Cancel(i) || (step.Success? && step.i == i)
  }

  /** The first call of Success or Cancel on payment i once it has its credit. */
  function Completion(steps: seq<Step>, i: nat): (step: Option<Step>)
  {
    if steps == [] then None
    else
      var init, last := steps[..|steps| - 1], steps[|steps| - 1];
      if Completion(init, i).Some? then Completion(init, i)
      else if IsCompletion(last, i) && Answer(init, i).Some? then Some(last)
      else None
  }

  /** What happened to a payment: its credit, how it was completed, whether its request was withdrawn or
      its caller stopped waiting, and whether no result could be made of what it had to give back. */
  datatype Story = Story(
    answer: Option<nat>, completion: Option<Step>, withdrawn: bool, abandoned: bool, refused: bool)

  function StoryOf(steps: seq<Step>, i: nat): (t: Story)
  {
    Story(Answer(steps, i), Completion(steps, i),
          AbandonRequest(i) in steps, AbandonWait(i) in steps, RefuseResult(i) in steps)
  }

  /** What a payment has to give back: its credit if nobody waited for it or if it is cancelled, and
      what was not spent if it succeeds. */
  function Owed(t: Story): (credit: Option<nat>)
  {
    if t.answer.None? then None
    else if t.abandoned then t.answer
    else
      match t.completion
      case None => None
      case Some(step) => if step.Success? then step.unspend else t.answer
  }

  /** The results sent for a payment that is over. */
  function Sent(t: Story): (r: seq<nat>)
  {
    if t.refused || Owed(t).None? then [] else [Owed(t).value]
  }

  /** Nothing that follows changes what is owed. */
  predicate Settled(t: Story)
  {
    t.answer.Some? ==> t.abandoned || t.completion.Some?
  }

  /** Where a payment is, told by its story. */
  predicate Told(p: Pay, t: Story)
  {
    && (t.answer.None? ==> t.completion.None?)
    && (t.withdrawn ==> p.phase.Over? && t.answer.None?)
    && ToldBy(p, t)
  }

  predicate ToldBy(p: Pay, t: Story)
  {
    match p.phase
    case Requesting => p.results == [] && !t.refused && !t.abandoned && t.answer == None
    case Awaiting => p.results == [] && !t.refused && !t.abandoned && t.answer == None
    case Dangling => p.results == [] && !t.refused && t.abandoned && t.answer == None
    case Leaked => p.results == [] && !t.refused && t.answer == None
    case Held(credit) =>
      p.results == [] && !t.refused && !t.abandoned && t.answer == Some(credit) && t.completion == None
    case Completing(Some(credit)) => p.results == [] && !t.refused && Settled(t) && Owed(t) == Some(credit)
    case Completing(None) => t.answer.Some? && Settled(t) && p.results == Sent(t)
    case Over => (t.answer.Some? || t.withdrawn) && Settled(t) && p.results == Sent(t)
  }

  function NextStory(t: Story, step: Step, i: nat): (t': Story)
  {
    Story(if step.Respond? && step.i == i then step.credit else t.answer,
          if t.completion.None? && IsCompletion(step, i) && t.answer.Some? then Some(step) else t.completion,
          t.withdrawn || step == AbandonRequest(i), t.abandoned || step == AbandonWait(i),
          t.refused || step == RefuseResult(i))
  }

  lemma StorySnoc(steps: seq<Step>, step: Step, i: nat)
    ensures StoryOf(steps + [step], i) == NextStory(StoryOf(steps, i), step, i)
  {
    assert (steps + [step])[..|steps|] == steps;
  }

  /** A step that is not about payment i. */
  predicate Elsewhere(step: Step, i: nat)
  {
    step.Begin? || step.CloseCalled? || step.CloseChannels? || step.i != i
  }

  lemma ElsewhereTold(s: State, t: Story, step: Step, i: nat)
    requires i < |s.pays| && Enabled(s, step) && Told(s.pays[i], t) && Elsewhere(step, i)
    ensures i < |Apply(s, step).pays| && Told(Apply(s, step).pays[i], NextStory(t, step, i))
  {
    assert NextStory(t, step, i) == t;
  }

  lemma CallTold(s: State, t: Story, step: Step, i: nat)
    requires i < |s.pays| && Enabled(s, step) && Told(s.pays[i], t) && IsCompletion(step, i)
    ensures i < |Apply(s, step).pays| && Told(Apply(s, step).pays[i], NextStory(t, step, i))
  {
  }

  lemma OwnTold(s: State, t: Story, step: Step, i: nat)
    requires i < |s.pays| && Enabled(s, step) && Told(s.pays[i], t)
    requires !Elsewhere(step, i) && !IsCompletion(step, i)
    ensures i < |Apply(s, step).pays| && Told(Apply(s, step).pays[i], NextStory(t, step, i))
  {
  }

  lemma StepTold(s: State, t: Story, step: Step, i: nat)
    requires i < |s.pays| && Enabled(s, step) && Told(s.pays[i], t)
    ensures i < |Apply(s, step).pays| && Told(Apply(s, step).pays[i], NextStory(t, step, i))
  {
    if Elsewhere(step, i) {
      ElsewhereTold(s, t, step, i);
    } else if IsCompletion(step, i) {
      CallTold(s, t, step, i);
    } else {
      OwnTold(s, t, step, i);
    }
  }

  /** Payments to come have no story yet. */
  ghost predicate NoStory(s: State, steps: seq<Step>, i: nat)
  {
    i >= |s.pays| ==> StoryOf(steps, i) == Story(None, None, false, false, false)
  }

  lemma BeginTold(s: State, steps: seq<Step>, step: Step, i: nat)
    requires i >= |s.pays| && Enabled(s, step) && NoStory(s, steps, i)
    ensures var s' := Apply(s, step);
            NoStory(s', steps + [step], i) && (i < |s'.pays| ==> Told(s'.pays[i], StoryOf(steps + [step], i)))
  {
    StorySnoc(steps, step, i);
    match step
    case Begin =>
    case _ => assert |Apply(s, step).pays| == |s.pays|;
  }

  lemma {:induction false} Unsnoc(s: State, steps: seq<Step>)
    requires Legal(s, steps) && steps != []
    ensures var (init, last) := (steps[..|steps| - 1], steps[|steps| - 1]);
            && Legal(s, init) && Enabled(After(s, init), last) && After(s, steps) == Apply(After(s, init), last)
    decreases |steps|
  {
    if |steps| > 1 {
      Unsnoc(Apply(s, steps[0]), steps[1..]);
      assert steps[1..][..|steps| - 2] == steps[..|steps| - 1][1..];
    }
  }

  lemma {:induction false} RunTold(steps: seq<Step>, i: nat)
    requires Legal(START, steps)
    ensures var s := After(START, steps);
            NoStory(s, steps, i) && (i < |s.pays| ==> Told(s.pays[i], StoryOf(steps, i)))
  {
    if steps != [] {
      var init, last := steps[..|steps| - 1], steps[|steps| - 1];
      Unsnoc(START, steps);
      RunTold(init, i);
      assert init + [last] == steps;
      StorySnoc(init, last, i);
      var s := After(START, init);
      if i < |s.pays| { StepTold(s, StoryOf(init, i), last, i); } else { BeginTold(s, init, last, i); }
    }
  }

  /** In every run a payment that is over has given back exactly what it owed, as the steps taken for
      it tell: the whole credit if its caller had gone or cancelled it, what was not spent if it
      succeeded, and nothing if nothing was left or no result could be made of it. It is not over
      before it has been answered with a credit, unless its request was withdrawn before anybody took
      it. A payment that is not over has not given back anything else. */
  lemma GivesBackWhatIsOwed(steps: seq<Step>, i: nat)
    requires Legal(START, steps) && i < |After(START, steps).pays|
    ensures var (p, t) := (After(START, steps).pays[i], StoryOf(steps, i));
            && (p.phase.Over? ==> p.results == Sent(t))
            && (p.results != [] ==> p.results == Sent(t))
            && (p.phase.Over? ==> if t.answer.Some? then t.abandoned || t.completion.Some? else t.withdrawn)
  {
    RunTold(steps, i);
  }
}
