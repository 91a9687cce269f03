/** Closers of a pipeline (work/pipeline.go). Outputs are told apart by their names, and nothing
    keeps two of them from having the same closer: when a closer is called once, by the last. */
module SharedClosers {
  import opened Bytes
  import opened SharedOutputs

  ghost predicate Accepted(steps: seq<PipelineStep>)
  {
    forall i | 0 <= i < |steps| :: Problem(steps, i) == None
  }

  /** Step i lists the output id with the closer c. */
  predicate Lists(steps: seq<PipelineStep>, i: nat, id: Name, c: Closer)
  {
    i < |steps| && id in steps[i].outputs && steps[i].outputs[id] == c
  }

  /** No closer is listed under two names. */
  ghost predicate OneNameEach(steps: seq<PipelineStep>)
  {
    forall i, j, a, b, c | Lists(steps, i, a, c) && Lists(steps, j, b, c) :: a == b
  }

  /** The closer has been called once at most, and not while a step that lists it had not given up
      the output. */
  ghost predicate ProperlyCalled(s: State, steps: seq<PipelineStep>, c: Closer)
  {
    && s.called[c] <= 1
    && (s.called[c] == 1 ==>
          forall i, id | 0 <= i < |s.phases| && Refers(s.phases[i], id) :: !Lists(steps, i, id, c))
  }

  // ---------- Whose closers they are ----------

  lemma {:induction false} ListedInTally(steps: seq<PipelineStep>, n: nat, i: nat, id: Name)
    requires Accepted(steps) && i < n <= |steps| && id in steps[i].outputs
    ensures id in Tally(steps, n) && Tally(steps, n)[id].closer == steps[i].outputs[id]
  {
    var before, outputs := Tally(steps, n - 1), steps[n - 1].outputs;
    if i < n - 1 {
      ListedInTally(steps, n - 1, i, id);
    } else {
      assert Problem(steps, n - 1) == None;
      assert Agree(before, outputs, id);
    }
  }

  lemma {:induction false} TallyIsListed(steps: seq<PipelineStep>, n: nat, id: Name) returns (i: nat)
    requires n <= |steps| && id in Tally(steps, n)
    ensures i < n && Lists(steps, i, id, Tally(steps, n)[id].closer)
  {
    if id in Tally(steps, n - 1) {
      i := TallyIsListed(steps, n - 1, id);
    } else {
      i := n - 1;
    }
  }

  /** Steps are accepted exactly if all have an id and a function, no two have the same id, and no two
      list one output with different closers. */
  lemma AcceptedIff(steps: seq<PipelineStep>)
    ensures Accepted(steps) <==> Named(steps) && OneCloserEach(steps)
  {
    if Accepted(steps) {
      AcceptedNamed(steps);
      AcceptedOneCloser(steps);
    }
    if Named(steps) && OneCloserEach(steps) {
      forall i | 0 <= i < |steps| ensures Problem(steps, i) == None { OneCloserAgrees(steps, i); }
    }
  }

  predicate Named(steps: seq<PipelineStep>)
  {
    && (forall i | 0 <= i < |steps| :: steps[i].id != EMPTY && steps[i].hasFunc)
    && (forall i, j | 0 <= i < j < |steps| :: steps[i].id != steps[j].id)
  }

  ghost predicate OneCloserEach(steps: seq<PipelineStep>)
  {
    forall i, j, id, c, d | Lists(steps, i, id, c) && Lists(steps, j, id, d) :: c == d
  }

  lemma AcceptedNamed(steps: seq<PipelineStep>)
    requires Accepted(steps)
    ensures Named(steps)
  {
    forall i | 0 <= i < |steps| ensures steps[i].id != EMPTY && steps[i].hasFunc { assert Problem(steps, i) == None; }
    forall i, j | 0 <= i < j < |steps| ensures steps[i].id != steps[j].id {
      assert Problem(steps, j) == None;
      assert !Seen(steps, j);
    }
  }

  lemma AcceptedOneCloser(steps: seq<PipelineStep>)
    requires Accepted(steps)
    ensures OneCloserEach(steps)
  {
    forall i, j, id, c, d | Lists(steps, i, id, c) && Lists(steps, j, id, d) ensures c == d {
      ListedInTally(steps, |steps|, i, id);
      ListedInTally(steps, |steps|, j, id);
    }
  }

  lemma OneCloserAgrees(steps: seq<PipelineStep>, i: nat)
    requires i < |steps| && OneCloserEach(steps)
    ensures Compatible(Tally(steps, i), steps[i].outputs)
  {
    forall id | id in steps[i].outputs ensures Agree(Tally(steps, i), steps[i].outputs, id) {
      if id in Tally(steps, i) {
        var j := TallyIsListed(steps, i, id);
        assert Lists(steps, i, id, steps[i].outputs[id]);
      }
    }
  }

  lemma {:induction false} SameClosers(s: State, events: seq<Event>, id: Name)
    requires Legal(s, events) && id in s.shared
    ensures var s' := After(s, events); id in s'.shared && s'.shared[id].closer == s.shared[id].closer
    decreases |events|
  {
    if events != [] { SameClosers(Apply(s, events[0]), events[1..], id); }
  }

  // ---------- Under one name ----------

  /** Only the output id has its closer. */
  ghost predicate Alone(shared: map<Name, Shared>, id: Name)
  {
    id in shared && forall b | b in shared && shared[b].closer == shared[id].closer :: b == id
  }

  lemma EventCalls(s: State, e: Event, id: Name)
    requires Enabled(s, e) && Alone(s.shared, id) && s.called[s.shared[id].closer] == s.closed[id]
    ensures var s' := Apply(s, e); Alone(s'.shared, id) && s'.called[s'.shared[id].closer] == s'.closed[id]
  {
  }

  /** A closer with one name is called exactly as often as that output is closed. */
  lemma {:induction false} RunCalls(s: State, events: seq<Event>, id: Name)
    requires Legal(s, events) && Alone(s.shared, id) && s.called[s.shared[id].closer] == s.closed[id]
    ensures After(s, events).called[s.shared[id].closer] == After(s, events).closed[id]
    decreases |events|
  {
    if events != [] {
      EventCalls(s, events[0], id);
      SameClosers(s, events[..1], id);
      assert After(s, events[..1]) == Apply(s, events[0]);
      RunCalls(Apply(s, events[0]), events[1..], id);
    }
  }

  ghost predicate IsCloser(shared: map<Name, Shared>, c: Closer)
  {
    exists id :: id in shared && shared[id].closer == c
  }

  /** What is no output's closer is not called. */
  lemma {:induction false} StrangerNotCalled(s: State, events: seq<Event>, c: Closer)
    requires Legal(s, events) && !IsCloser(s.shared, c)
    ensures After(s, events).called[c] == s.called[c]
    decreases |events|
  {
    if events != [] {
      var s1 := Apply(s, events[0]);
      assert !IsCloser(s1.shared, c) by {
        forall id | id in s1.shared ensures s1.shared[id].closer != c { assert s.shared[id].closer != c; }
      }
      StrangerNotCalled(s1, events[1..], c);
    }
  }

  lemma AloneIfOneName(steps: seq<PipelineStep>, id: Name)
    requires OneNameEach(steps) && id in Tally(steps, |steps|)
    ensures Alone(Tally(steps, |steps|), id)
  {
    var tally := Tally(steps, |steps|);
    var i := TallyIsListed(steps, |steps|, id);
    forall b | b in tally && tally[b].closer == tally[id].closer ensures b == id {
      var j := TallyIsListed(steps, |steps|, b);
    }
  }

  lemma OneNameIsProper(steps: seq<PipelineStep>, events: seq<Event>, c: Closer)
    requires Accepted(steps) && OneNameEach(steps) && Legal(Start(steps), events)
    ensures ProperlyCalled(After(Start(steps), events), steps, c)
  {
    var s := After(Start(steps), events);
    if IsCloser(Tally(steps, |steps|), c) {
      var id :| id in Tally(steps, |steps|) && Tally(steps, |steps|)[id].closer == c;
      AloneIfOneName(steps, id);
      RunCalls(Start(steps), events, id);
      ClosedOnceByTheLast(steps, events, id);
      var k := TallyIsListed(steps, |steps|, id);
      forall i, b | 0 <= i < |s.phases| && s.called[c] == 1 && Refers(s.phases[i], b) ensures !Lists(steps, i, b, c) {
        assert Lists(steps, i, b, c) ==> b == id;
      }
    } else {
      StrangerNotCalled(Start(steps), events, c);
    }
  }

  // ---------- Under two names ----------

  predicate SameCloser(shared: map<Name, Shared>, a: Name, b: Name)
  {
    a != b && a in shared && b in shared && shared[a].closer == shared[b].closer
  }

  lemma EventCallsBoth(s: State, e: Event, a: Name, b: Name)
    requires Enabled(s, e) && SameCloser(s.shared, a, b) && s.called[s.shared[a].closer] >= s.closed[a] + s.closed[b]
    ensures var s' := Apply(s, e);
            && SameCloser(s'.shared, a, b) && s'.shared[a].closer == s.shared[a].closer
            && s'.called[s'.shared[a].closer] >= s'.closed[a] + s'.closed[b]
  {
  }

  /** A closer with two names is called for both. */
  lemma {:induction false} RunCallsBoth(s: State, events: seq<Event>, a: Name, b: Name)
    requires Legal(s, events) && SameCloser(s.shared, a, b)
    requires s.called[s.shared[a].closer] >= s.closed[a] + s.closed[b]
    ensures var s' := After(s, events); s'.called[s.shared[a].closer] >= s'.closed[a] + s'.closed[b]
    decreases |events|
  {
    if events != [] {
      EventCallsBoth(s, events[0], a, b);
      RunCallsBoth(Apply(s, events[0]), events[1..], a, b);
    }
  }

  /** How far a step is from its end. */
  function Rank(p: Phase): (n: nat)
  {
    match p
    case Running(left) => 2 * |left| + 2
    case Ending(left) => 2 * |left| + 1
    case Closing(left, _) => 2 * |left| + 2
    case Ended => 0
  }

  function Ranks(phases: seq<Phase>): (n: nat)
  {
    if phases == [] then 0 else Ranks(phases[..|phases| - 1]) + Rank(phases[|phases| - 1])
  }

  lemma {:induction false} RanksUpdate(phases: seq<Phase>, i: nat, p: Phase)
    requires i < |phases|
    ensures Ranks(phases[i := p]) == Ranks(phases) - Rank(phases[i]) + Rank(p)
  {
    var m := |phases| - 1;
    if i < m {
      RanksUpdate(phases[..m], i, p);
      assert phases[i := p][..m] == phases[..m][i := p];
    } else {
      assert phases[i := p][..m] == phases[..m];
    }
  }

  ghost predicate AllEnded(s: State)
  {
    forall i | 0 <= i < |s.phases| :: s.phases[i].Ended?
  }

  lemma NextEvent(s: State, i: nat) returns (e: Event)
    requires i < |s.phases| && !s.phases[i].Ended?
    ensures Enabled(s, e) && Ranks(Apply(s, e).phases) < Ranks(s.phases)
  {
    match s.phases[i] {
      case Running(_) => e := FuncReturns(i);
      case Closing(_, _) => e := CallCloser(i);
      case Ending(left) =>
        if left == {} {
          e := StepEnds(i);
        } else {
          var id :| id in left;
          e := DropRef(i, id);
          assert |left - {id}| == |left| - 1;
        }
    }
    RanksUpdate(s.phases, i, Apply(s, e).phases[i]);
  }

  /** Every run can be brought to its end. */
  lemma {:induction false} CanEnd(s: State) returns (events: seq<Event>)
    ensures Legal(s, events) && AllEnded(After(s, events))
    decreases Ranks(s.phases)
  {
    if AllEnded(s) {
      events := [];
    } else {
      var i :| 0 <= i < |s.phases| && !s.phases[i].Ended?;
      var e := NextEvent(s, i);
      var rest := CanEnd(Apply(s, e));
      events := [e] + rest;
      assert events[1..] == rest;
    }
  }

  /** A closer listed under two names is called twice by the time all steps have ended. */
  lemma TwoNamesCalledTwice(steps: seq<PipelineStep>, a: Name, b: Name) returns (events: seq<Event>)
    requires SameCloser(Tally(steps, |steps|), a, b)
    ensures Legal(Start(steps), events)
    ensures After(Start(steps), events).called[Tally(steps, |steps|)[a].closer] >= 2
  {
    events := CanEnd(Start(steps));
    ClosedOnceByTheLast(steps, events, a);
    ClosedOnceByTheLast(steps, events, b);
    RunCallsBoth(Start(steps), events, a, b);
  }

  /** In every run of accepted steps every closer is called once at most, and never while a step
      that lists it has not given up the output, exactly if no closer is listed under two names. */
  lemma ClosersOnceIff(steps: seq<PipelineStep>)
    requires Accepted(steps)
    ensures (forall events, c | Legal(Start(steps), events) :: ProperlyCalled(After(Start(steps), events), steps, c))
            <==> OneNameEach(steps)
  {
    if OneNameEach(steps) {
      forall events, c | Legal(Start(steps), events) ensures ProperlyCalled(After(Start(steps), events), steps, c) {
        OneNameIsProper(steps, events, c);
      }
    } else {
      var i, j, a, b, c :| Lists(steps, i, a, c) && Lists(steps, j, b, c) && a != b;
      ListedInTally(steps, |steps|, i, a);
      ListedInTally(steps, |steps|, j, b);
      var events := TwoNamesCalledTwice(steps, a, b);
      assert !ProperlyCalled(After(Start(steps), events), steps, c);
    }
  }

  /** Steps like that are accepted: one step with one closer under two names. */
  lemma TwoNamesAccepted()
    ensures var steps := [PipelineStep(1, map[10 := 5, 11 := 5], true)]; Accepted(steps) && !OneNameEach(steps)
  {
    var steps := [PipelineStep(1, map[10 := 5, 11 := 5], true)];
    assert Problem(steps, 0) == None;
    assert Lists(steps, 0, 10, 5) && Lists(steps, 0, 11, 5);
  }
}
