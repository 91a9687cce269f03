/** Every interleaving of payments and Close on one wallet. A send on a closed channel and a
    WaitGroup going below zero panic; a run that panics would show it. */
module WalletRuns {
  import opened Bytes

  /** Where a payment is: its request is being sent, or taken; it is in its caller's hands; its
      caller is gone and a goroutine waits for the response; complete is running, with a result
      to send or none; it is uncounted; or its response was an error and nobody will uncount it. */
  datatype Phase =
    | Requesting | Awaiting | Held(credit: nat) | Dangling | Completing(result: Option<nat>) | Over | Leaked

  /** results are the payment results sent for it. */
  datatype Pay = Pay(phase: Phase, results: seq<nat>)

  datatype Closing = Open | Waiting | ChannelsClosed

  datatype State = State(closing: Closing, count: int, pays: seq<Pay>, panicked: bool)

  datatype Step =
    | Begin
    | TakeRequest(i: nat) | AbandonRequest(i: nat) | AbandonWait(i: nat) | Respond(i: nat, credit: Option<nat>)
    | Success(i: nat, unspend: Option<nat>) | Cancel(i: nat)
    | SendResult(i: nat) | RefuseResult(i: nat) | Uncount(i: nat)
    | CloseCalled | CloseChannels

  const START := State(Open, 0, [], false)

  predicate Enabled(s: State, step: Step)
  {
    match step
    case Begin => true
    case TakeRequest(i) => i < |s.pays| && s.pays[i].phase.Requesting?
    case AbandonRequest(i) => i < |s.pays| && s.pays[i].phase.Requesting?
    case AbandonWait(i) => i < |s.pays| && s.pays[i].phase.Awaiting?
    case Respond(i, _) => i < |s.pays| && (s.pays[i].phase.Awaiting? || s.pays[i].phase.Dangling?)
    case Success(i, _) => i < |s.pays|
    case Cancel(i) => i < |s.pays|
    case SendResult(i) => i < |s.pays| && s.pays[i].phase.Completing? && s.pays[i].phase.result.Some?
    case RefuseResult(i) => i < |s.pays| && s.pays[i].phase.Completing? && s.pays[i].phase.result.Some?
    case Uncount(i) => i < |s.pays| && s.pays[i].phase == Completing(None)
    case CloseCalled => true
    case CloseChannels => s.closing.Waiting? && s.count == 0
  }

  function Move(s: State, i: nat, phase: Phase): (s': State)
    requires i < |s.pays|
  {
    s.(pays := s.pays[i := s.pays[i].(phase := phase)])
  }

  function UncountOne(s: State, i: nat): (s': State)
    requires i < |s.pays|
  {
    Move(s, i, Over).(count := s.count - 1, panicked := s.panicked || s.count <= 0)
  }

  function Apply(s: State, step: Step): (s': State)
    requires Enabled(s, step)
  {
    match step
    case Begin => if !s.closing.Open? then s else s.(count := s.count + 1, pays := s.pays + [Pay(Requesting, [])])
    case TakeRequest(i) => Move(s, i, Awaiting).(panicked := s.panicked || s.closing.ChannelsClosed?)
    case AbandonRequest(i) => UncountOne(s, i)
    case AbandonWait(i) => Move(s, i, Dangling)
    case Respond(i, None) => Move(s, i, Leaked)
    case Respond(i, Some(credit)) =>
      Move(s, i, if s.pays[i].phase.Awaiting? then Held(credit) else Completing(Some(credit)))
    case Success(i, unspend) => if s.pays[i].phase.Held? then Move(s, i, Completing(unspend)) else s
    case Cancel(i) => if s.pays[i].phase.Held? then Move(s, i, Completing(Some(s.pays[i].phase.credit))) else s
    case SendResult(i) =>
      var p := Pay(Completing(None), s.pays[i].results + [s.pays[i].phase.result.value]);
      s.(pays := s.pays[i := p], panicked := s.panicked || s.closing.ChannelsClosed?)
    case RefuseResult(i) => Move(s, i, Completing(None))
    case Uncount(i) => UncountOne(s, i)
    case CloseCalled => if s.closing.Open? then s.(closing := Waiting) else s
    case CloseChannels => s.(closing := ChannelsClosed)
  }

  predicate Legal(s: State, steps: seq<Step>)
    decreases |steps|
  {
    steps == [] || (Enabled(s, steps[0]) && Legal(Apply(s, steps[0]), steps[1..]))
  }

  function After(s: State, steps: seq<Step>): (s': State)
    requires Legal(s, steps)
    decreases |steps|
  {
    if steps == [] then s else After(Apply(s, steps[0]), steps[1..])
  }

  // ---------- What every run keeps ----------

  function Unfinished(pays: seq<Pay>): (n: nat)
  {
    if pays == [] then 0
    else Unfinished(pays[..|pays| - 1]) + if pays[|pays| - 1].phase.Over? then 0 else 1
  }

  lemma {:induction false} UnfinishedUpdate(pays: seq<Pay>, i: nat, p: Pay)
    requires i < |pays|
    ensures Unfinished(pays[i := p]) ==
            Unfinished(pays) - (if pays[i].phase.Over? then 0 else 1) + (if p.phase.Over? then 0 else 1)
  {
    var m := |pays| - 1;
    if i < m {
      UnfinishedUpdate(pays[..m], i, p);
      assert pays[i := p][..m] == pays[..m][i := p];
    } else {
      assert pays[i := p][..m] == pays[..m];
    }
  }

  lemma {:induction false} UnfinishedPositive(pays: seq<Pay>, i: nat)
    requires i < |pays| && !pays[i].phase.Over?
    ensures Unfinished(pays) > 0
  {
    var m := |pays| - 1;
    if i < m { UnfinishedPositive(pays[..m], i); }
  }

  /** A payment sends one result at most, and only once complete runs. */
  predicate SendsOnce(p: Pay)
  {
    && |p.results| <= 1
    && (p.results != [] ==> p.phase == Completing(None) || p.phase.Over?)
  }

  ghost predicate Inv(s: State)
  {
    && s.count == Unfinished(s.pays)
    && !s.panicked
    && (s.closing.ChannelsClosed? ==> s.count == 0)
    && (forall i | 0 <= i < |s.pays| :: SendsOnce(s.pays[i]))
  }

  /** One payment moves on, and is uncounted if that ends it. */
  lemma PayMoves(s: State, s': State, i: nat, p: Pay)
    requires Inv(s) && i < |s.pays| && !s.pays[i].phase.Over? && SendsOnce(p)
    requires s'.pays == s.pays[i := p] && s'.closing == s.closing
    requires s'.count == s.count - if p.phase.Over? then 1 else 0
    requires s'.panicked ==> s.panicked || s.closing.ChannelsClosed? || s.count <= 0
    ensures Inv(s')
  {
    UnfinishedUpdate(s.pays, i, p);
    UnfinishedPositive(s.pays, i);
  }

  lemma BeginInv(s: State)
    requires Inv(s)
    ensures Inv(Apply(s, Begin))
  {
    if s.closing.Open? { assert Apply(s, Begin).pays[..|s.pays|] == s.pays; }
  }

  lemma StepInv(s: State, step: Step)
    requires Inv(s) && Enabled(s, step)
    ensures Inv(Apply(s, step))
  {
    match step
    case Begin => BeginInv(s);
    case CloseCalled =>
    case CloseChannels =>
    case Success(i, _) => if s.pays[i].phase.Held? { PayMoves(s, Apply(s, step), i, Apply(s, step).pays[i]); }
    case Cancel(i) => if s.pays[i].phase.Held? { PayMoves(s, Apply(s, step), i, Apply(s, step).pays[i]); }
    case _ => PayMoves(s, Apply(s, step), step.i, Apply(s, step).pays[step.i]);
  }

  lemma {:induction false} RunInv(s: State, steps: seq<Step>)
    requires Inv(s) && Legal(s, steps)
    ensures Inv(After(s, steps))
    decreases |steps|
  {
    if steps != [] {
      StepInv(s, steps[0]);
      RunInv(Apply(s, steps[0]), steps[1..]);
    }
  }

  /** Close is safe: in every interleaving the counter is the number of payments begun and not
      over, each payment sends at most one result, no channel is used after Close has closed
      it, the counter never goes below zero, and Close closes the channels only once every
      payment is over. */
  lemma CloseIsSafe(steps: seq<Step>)
    requires Legal(START, steps)
    ensures var s := After(START, steps);
            && s.count == Unfinished(s.pays)
            && (forall i | 0 <= i < |s.pays| :: |s.pays[i].results| <= 1)
            && !s.panicked
            && (s.closing.ChannelsClosed? ==> forall i | 0 <= i < |s.pays| :: s.pays[i].phase.Over?)
  {
    RunInv(START, steps);
    var s := After(START, steps);
    if s.closing.ChannelsClosed? {
      forall i | 0 <= i < |s.pays| ensures s.pays[i].phase.Over? {
        if !s.pays[i].phase.Over? { UnfinishedPositive(s.pays, i); }
      }
    }
  }

  /** Once Close has been called no payment begins, and those there are keep their places. */
  lemma {:induction false} NoPaymentAfterClose(s: State, steps: seq<Step>)
    requires Legal(s, steps) && !s.closing.Open?
    ensures |After(s, steps).pays| == |s.pays| && !After(s, steps).closing.Open?
    decreases |steps|
  {
    if steps != [] { NoPaymentAfterClose(Apply(s, steps[0]), steps[1..]); }
  }

  /** While it has not, every call begins one, which is counted. */
  lemma BeginsWhileOpen(s: State)
    requires s.closing.Open?
    ensures var s' := Apply(s, Begin); s'.pays == s.pays + [Pay(Requesting, [])] && s'.count == s.count + 1
  {
  }

  // ---------- When Close can get through ----------

  predicate HasLeak(s: State)
  {
    exists i :: 0 <= i < |s.pays| && s.pays[i].phase.Leaked?
  }

  /** An error response never uncounts its payment: from then on Close waits for ever. */
  lemma {:induction false} LeakBlocksClose(s: State, steps: seq<Step>)
    requires Inv(s) && Legal(s, steps) && HasLeak(s)
    ensures HasLeak(After(s, steps)) && !After(s, steps).closing.ChannelsClosed?
    decreases |steps|
  {
    var i :| 0 <= i < |s.pays| && s.pays[i].phase.Leaked?;
    UnfinishedPositive(s.pays, i);
    if steps != [] {
      StepInv(s, steps[0]);
      assert Apply(s, steps[0]).pays[i].phase.Leaked?;
      LeakBlocksClose(Apply(s, steps[0]), steps[1..]);
    }
  }

  /** How many steps a payment is from being over. */
  function Rank(p: Phase): (n: nat)
  {
    match p
    case Requesting => 1
    case Awaiting => 4
    case Dangling => 4
    case Held(_) => 3
    case Completing(Some(_)) => 2
    case Completing(None) => 1
    case _ => 0
  }

  function NextStep(p: Phase, i: nat): (step: Step)
  {
    match p
    case Requesting => AbandonRequest(i)
    case Awaiting => Respond(i, Some(0))
    case Dangling => Respond(i, Some(0))
    case Held(_) => Cancel(i)
    case Completing(Some(_)) => SendResult(i)
    case _ => Uncount(i)
  }

  lemma {:induction false} FinishOne(s: State, i: nat) returns (steps: seq<Step>)
    requires Inv(s) && !HasLeak(s) && i < |s.pays|
    ensures Legal(s, steps)
    ensures var s' := After(s, steps);
            && s'.closing == s.closing && |s'.pays| == |s.pays| && !HasLeak(s') && s'.pays[i].phase.Over?
            && forall j | 0 <= j < |s.pays| && j != i :: s'.pays[j] == s.pays[j]
    decreases Rank(s.pays[i].phase)
  {
    if s.pays[i].phase.Over? { return []; }
    assert !s.pays[i].phase.Leaked?;
    var step := NextStep(s.pays[i].phase, i);
    var s1 := Apply(s, step);
    StepInv(s, step);
    assert forall j | 0 <= j < |s.pays| && j != i :: s1.pays[j] == s.pays[j];
    var rest := FinishOne(s1, i);
    steps := [step] + rest;
    assert steps[1..] == rest;
  }

  lemma {:induction false} Joined(s: State, a: seq<Step>, b: seq<Step>)
    requires Legal(s, a) && Legal(After(s, a), b)
    ensures Legal(s, a + b) && After(s, a + b) == After(After(s, a), b)
    decreases |a|
  {
    if a == [] {
      assert a + b == b;
    } else {
      Joined(Apply(s, a[0]), a[1..], b);
      assert (a + b)[1..] == a[1..] + b;
    }
  }

  lemma {:induction false} FinishAll(s: State, n: nat) returns (steps: seq<Step>)
    requires Inv(s) && !HasLeak(s) && n <= |s.pays|
    ensures Legal(s, steps)
    ensures var s' := After(s, steps);
            && s'.closing == s.closing && |s'.pays| == |s.pays|
            && !HasLeak(s') && forall j | 0 <= j < n :: s'.pays[j].phase.Over?
  {
    if n == 0 { return []; }
    var a := FinishAll(s, n - 1);
    RunInv(s, a);
    var b := FinishOne(After(s, a), n - 1);
    Joined(s, a, b);
    steps := a + b;
  }

  lemma {:induction false} AllOver(pays: seq<Pay>)
    requires forall i | 0 <= i < |pays| :: pays[i].phase.Over?
    ensures Unfinished(pays) == 0
  {
    if pays != [] { AllOver(pays[..|pays| - 1]); }
  }

  /** Close can still get through, from any state on any run, exactly if no payment has been
      answered with an error. */
  lemma CloseCanFinishIffNoLeak(s: State)
    requires Inv(s)
    ensures !HasLeak(s) <==> exists steps :: Legal(s, steps) && After(s, steps).closing.ChannelsClosed?
  {
    if steps :| Legal(s, steps) && After(s, steps).closing.ChannelsClosed? {
      if HasLeak(s) { LeakBlocksClose(s, steps); }
    }
    if !HasLeak(s) {
      var steps := CloseNow(s);
    }
  }

  lemma CloseNow(s: State) returns (steps: seq<Step>)
    requires Inv(s) && !HasLeak(s)
    ensures Legal(s, steps) && After(s, steps).closing.ChannelsClosed?
  {
    var a := FinishAll(s, |s.pays|);
    RunInv(s, a);
    var s1 := After(s, a);
    AllOver(s1.pays);
    if s1.closing.ChannelsClosed? { return a; }
    var s2 := Apply(s1, CloseCalled);
    assert [CloseCalled, CloseChannels][1..] == [CloseChannels] && [CloseChannels][1..] == [];
    assert Legal(s2, [CloseChannels]);
    Joined(s, a, [CloseCalled, CloseChannels]);
    steps := a + [CloseCalled, CloseChannels];
  }
}
