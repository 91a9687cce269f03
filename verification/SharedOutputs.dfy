/** Shared outputs of a pipeline (work/pipeline.go): each output is closed by the last of the
    steps that list it, whatever order they end in. */
module SharedOutputs {
  import opened Bytes

  /** Names are numbers here; EMPTY stands for the empty string. */
  type Name = nat
  type Closer = nat

  const EMPTY: Name := 0

  datatype PipelineStep = PipelineStep(id: Name, outputs: map<Name, Closer>, hasFunc: bool)

  datatype Shared = Shared(refs: int, closer: Closer)

  // ---------- Counting references ----------

  /** Two maps agree on the closer of an output both know. */
  predicate Agree(shared: map<Name, Shared>, outputs: map<Name, Closer>, id: Name)
  {
    id in shared && id in outputs ==> shared[id].closer == outputs[id]
  }

  predicate Compatible(shared: map<Name, Shared>, outputs: map<Name, Closer>)
  {
    forall id | id in outputs :: Agree(shared, outputs, id)
  }

  /** One more reference for every output listed. */
  function Added(shared: map<Name, Shared>, outputs: map<Name, Closer>): (r: map<Name, Shared>)
  {
    map id | id in shared.Keys + outputs.Keys ::
      Shared((if id in shared then shared[id].refs else 0) + (if id in outputs then 1 else 0),
             if id in shared then shared[id].closer else outputs[id])
  }

  function Tally(steps: seq<PipelineStep>, n: nat): (r: map<Name, Shared>)
    requires n <= |steps|
  {
    if n == 0 then map[] else Added(Tally(steps, n - 1), steps[n - 1].outputs)
  }

  /** How many of the first n steps list an output. */
  function Listed(steps: seq<PipelineStep>, n: nat, id: Name): (c: nat)
    requires n <= |steps|
  {
    if n == 0 then 0 else Listed(steps, n - 1, id) + if id in steps[n - 1].outputs then 1 else 0
  }

  lemma {:induction false} TallyCounts(steps: seq<PipelineStep>, n: nat, id: Name)
    requires n <= |steps|
    ensures id in Tally(steps, n) <==> Listed(steps, n, id) > 0
    ensures id in Tally(steps, n) ==> Tally(steps, n)[id].refs == Listed(steps, n, id)
  {
    if n > 0 { TallyCounts(steps, n - 1, id); }
  }

  datatype DoneResult = Unknown | Unmatched | StillUsed | Closes

  class SharedMap {
    var shared: map<Name, Shared>

    constructor ()
      ensures shared == map[]
    {
      shared := map[];
    }

    /** addMany: false when an output is known under another closer. Then some of the other outputs
        have been added, and the one that was refused and the rest have not. */
    method AddMany(outputs: map<Name, Closer>) returns (ok: bool)
      modifies this
      ensures ok <==> Compatible(old(shared), outputs)
      ensures ok ==> shared == Added(old(shared), outputs)
      ensures !ok ==> exists rest :: rest <= outputs.Keys && shared == Added(old(shared), outputs - rest)
                                     && exists id :: id in rest && !Agree(old(shared), outputs, id)
    {
      var todo := outputs.Keys;
      assert outputs - todo == map[] && Added(shared, map[]) == shared;
      while todo != {}
        invariant todo <= outputs.Keys
        invariant Compatible(old(shared), outputs - todo)
        invariant shared == Added(old(shared), outputs - todo)
        decreases |todo|
      {
        var id :| id in todo;
        AddedOne(old(shared), outputs, todo, id);
        if id !in shared { shared := shared[id := Shared(0, outputs[id])]; }
        if shared[id].closer != outputs[id] {
          assert !Agree(old(shared), outputs, id);
          return false;
        }
        shared := shared[id := Shared(shared[id].refs + 1, shared[id].closer)];
        todo := todo - {id};
      }
      assert outputs - todo == outputs;
      return true;
    }

    /** done: one reference less; the closer is called when none is left, and taking one too many
        is an error. */
    method Done(id: Name) returns (r: DoneResult)
      modifies this
      ensures r == Unknown <==> id !in old(shared)
      ensures shared == if r == Unknown then old(shared)
                        else old(shared)[id := old(shared)[id].(refs := old(shared)[id].refs - 1)]
      ensures r == Unmatched <==> id in old(shared) && old(shared)[id].refs <= 0
      ensures r == Closes <==> id in old(shared) && old(shared)[id].refs == 1
    {
      if id !in shared { return Unknown; }
      shared := shared[id := shared[id].(refs := shared[id].refs - 1)];
      var result := shared[id].refs;
      if result < 0 { return Unmatched; }
      if result > 0 { return StillUsed; }
      return Closes;
    }
  }

  lemma AddedOne(start: map<Name, Shared>, outputs: map<Name, Closer>, todo: set<Name>, id: Name)
    requires id in todo && todo <= outputs.Keys && Compatible(start, outputs - todo)
    ensures var before := Added(start, outputs - todo);
            && (id in before <==> id in start)
            && (id in before ==> before[id] == start[id])
            && (Agree(start, outputs, id) ==>
                  && Compatible(start, outputs - (todo - {id}))
                  && Added(start, outputs - (todo - {id})) ==
                     before[id := Shared((if id in start then start[id].refs else 0) + 1, outputs[id])])
  {
    assert (outputs - (todo - {id})).Keys == (outputs - todo).Keys + {id};
  }

  // ---------- Checking the steps ----------

  datatype Reason = EmptyId | DuplicateId | MissingFunc | DifferentClosers

  predicate Seen(steps: seq<PipelineStep>, i: nat)
    requires i < |steps|
  {
    exists j :: 0 <= j < i && steps[j].id == steps[i].id
  }

  /** What is wrong with step i, given the steps before it; the first problem found counts. */
  function Problem(steps: seq<PipelineStep>, i: nat): (p: Option<Reason>)
    requires i < |steps|
  {
    if steps[i].id == EMPTY then Some(EmptyId)
    else if Seen(steps, i) then Some(DuplicateId)
    else if !steps[i].hasFunc then Some(MissingFunc)
    else if !Compatible(Tally(steps, i), steps[i].outputs) then Some(DifferentClosers)
    else None
  }

  /** The checks of RunPipeline: the first step with a problem is reported with it; if there is
      none, every output has as many references as steps that list it. */
  method CheckSteps(steps: seq<PipelineStep>) returns (problem: Option<(nat, Reason)>, outputs: SharedMap)
    ensures problem.None? ==> forall i | 0 <= i < |steps| :: Problem(steps, i) == None
    ensures problem.Some? ==>
              && problem.value.0 < |steps|
              && Problem(steps, problem.value.0) == Some(problem.value.1)
              && forall i | 0 <= i < problem.value.0 :: Problem(steps, i) == None
    ensures problem.None? ==> outputs.shared == Tally(steps, |steps|)
  {
    outputs := new SharedMap();
    var seen: set<Name> := {};
    var i := 0;
    while i < |steps|
      invariant 0 <= i <= |steps|
      invariant forall j | 0 <= j < i :: Problem(steps, j) == None
      invariant seen == set j | 0 <= j < i :: steps[j].id
      invariant fresh(outputs) && outputs.shared == Tally(steps, i)
    {
      var s := steps[i];
      if s.id == EMPTY { return Some((i, EmptyId)), outputs; }
      if s.id in seen { return Some((i, DuplicateId)), outputs; }
      if !s.hasFunc { return Some((i, MissingFunc)), outputs; }
      seen := seen + {s.id};
      var ok := outputs.AddMany(s.outputs);
      if !ok { return Some((i, DifferentClosers)), outputs; }
      i := i + 1;
    }
    return None, outputs;
  }

  // ---------- Steps ending in any order ----------

  /** A step runs, then gives up its outputs one by one (manyDone), calling the closer of each
      output it held the last reference of. */
  datatype Phase =
    | Running(left: set<Name>) | Ending(left: set<Name>) | Closing(left: set<Name>, id: Name) | Ended

  /** closed counts how often each output was closed, called how often each closer was called for
      that. */
  datatype State = State(
    shared: map<Name, Shared>, phases: seq<Phase>, closed: multiset<Name>, called: multiset<Closer>)

  datatype Event = FuncReturns(i: nat) | DropRef(i: nat, id: Name) | CallCloser(i: nat) | StepEnds(i: nat)

  function Start(steps: seq<PipelineStep>): (s: State)
  {
    var phases := seq(|steps|, i requires 0 <= i < |steps| => Running(steps[i].outputs.Keys));
    State(Tally(steps, |steps|), phases, multiset{}, multiset{})
  }

  predicate Enabled(s: State, e: Event)
  {
    && e.i < |s.phases|
    && match e
       case FuncReturns(i) => s.phases[i].Running?
       case DropRef(i, id) => s.phases[i].Ending? && id in s.phases[i].left
       case CallCloser(i) => s.phases[i].Closing?
       case StepEnds(i) => s.phases[i].Ending? && s.phases[i].left == {}
  }

  function Apply(s: State, e: Event): (s': State)
    requires Enabled(s, e)
  {
    match e
    case FuncReturns(i) => s.(phases := s.phases[i := Ending(s.phases[i].left)])
    case DropRef(i, id) =>
      var left := s.phases[i].left - {id};
      if id !in s.shared then s.(phases := s.phases[i := Ending(left)])
      else
        var sh := s.shared[id].(refs := s.shared[id].refs - 1);
        s.(shared := s.shared[id := sh],
           phases := s.phases[i := if sh.refs == 0 then Closing(left, id) else Ending(left)])
    case CallCloser(i) =>
      var Closing(left, id) := s.phases[i];
      s.(closed := s.closed + multiset{id}, phases := s.phases[i := Ending(left)],
         called := s.called + if id in s.shared then multiset{s.shared[id].closer} else multiset{})
    case StepEnds(i) => s.(phases := s.phases[i := Ended])
  }

  predicate Legal(s: State, events: seq<Event>)
    decreases |events|
  {
    events == [] || (Enabled(s, events[0]) && Legal(Apply(s, events[0]), events[1..]))
  }

  function After(s: State, events: seq<Event>): (s': State)
    requires Legal(s, events)
    decreases |events|
  {
    if events == [] then s else After(Apply(s, events[0]), events[1..])
  }

  predicate Refers(p: Phase, id: Name)
  {
    !p.Ended? && id in p.left
  }

  predicate IsClosing(p: Phase, id: Name)
  {
    p.Closing? && p.id == id
  }

  /** Steps that have not given up the output yet. */
  function Referring(phases: seq<Phase>, id: Name): (n: nat)
  {
    if phases == [] then 0
    else Referring(phases[..|phases| - 1], id) + if Refers(phases[|phases| - 1], id) then 1 else 0
  }

  function ClosingNow(phases: seq<Phase>, id: Name): (n: nat)
  {
    if phases == [] then 0
    else ClosingNow(phases[..|phases| - 1], id) + if IsClosing(phases[|phases| - 1], id) then 1 else 0
  }

  lemma {:induction false} CountsUpdate(phases: seq<Phase>, i: nat, p: Phase, id: Name)
    requires i < |phases|
    ensures Referring(phases[i := p], id) ==
            Referring(phases, id) - (if Refers(phases[i], id) then 1 else 0) + (if Refers(p, id) then 1 else 0)
    ensures ClosingNow(phases[i := p], id) ==
            ClosingNow(phases, id) - (if IsClosing(phases[i], id) then 1 else 0) + (if IsClosing(p, id) then 1 else 0)
  {
    var m := |phases| - 1;
    if i < m {
      CountsUpdate(phases[..m], i, p, id);
      assert phases[i := p][..m] == phases[..m][i := p];
    } else {
      assert phases[i := p][..m] == phases[..m];
    }
  }

  lemma {:induction false} ReferringIsPositive(phases: seq<Phase>, i: nat, id: Name)
    requires i < |phases| && Refers(phases[i], id)
    ensures Referring(phases, id) > 0
  {
    var m := |phases| - 1;
    if i < m { ReferringIsPositive(phases[..m], i, id); }
  }

  /** An output's counter is the number of steps still referring to it, and its closer has been
      called, or is about to be, exactly if the counter has reached zero. */
  ghost predicate Counted(s: State, id: Name)
  {
    && (id in s.shared ==>
          && s.shared[id].refs == Referring(s.phases, id)
          && s.closed[id] + ClosingNow(s.phases, id) == if s.shared[id].refs == 0 then 1 else 0)
    && (id !in s.shared ==> Referring(s.phases, id) == 0 && s.closed[id] == 0 && ClosingNow(s.phases, id) == 0)
  }

  lemma EventKeepsCounted(s: State, e: Event, id: Name)
    requires Counted(s, id) && Enabled(s, e)
    ensures Counted(Apply(s, e), id)
  {
    var s' := Apply(s, e);
    CountsUpdate(s.phases, e.i, s'.phases[e.i], id);
    if e.DropRef? && e.id == id { ReferringIsPositive(s.phases, e.i, id); }
  }

  lemma {:induction false} StartReferring(steps: seq<PipelineStep>, n: nat, id: Name)
    requires n <= |steps|
    ensures Referring(Start(steps).phases[..n], id) == Listed(steps, n, id)
    ensures ClosingNow(Start(steps).phases[..n], id) == 0
  {
    if n > 0 {
      StartReferring(steps, n - 1, id);
      assert Start(steps).phases[..n][..n - 1] == Start(steps).phases[..n - 1];
    }
  }

  lemma StartIsCounted(steps: seq<PipelineStep>, id: Name)
    ensures Counted(Start(steps), id)
  {
    StartReferring(steps, |steps|, id);
    TallyCounts(steps, |steps|, id);
    assert Start(steps).phases[..|steps|] == Start(steps).phases;
  }

  lemma {:induction false} RunCounted(s: State, events: seq<Event>, id: Name)
    requires Counted(s, id) && Legal(s, events)
    ensures Counted(After(s, events), id)
    decreases |events|
  {
    if events != [] {
      EventKeepsCounted(s, events[0], id);
      RunCounted(Apply(s, events[0]), events[1..], id);
    }
  }

  lemma {:induction false} NoneReferring(phases: seq<Phase>, id: Name)
    requires forall i | 0 <= i < |phases| :: phases[i].Ended?
    ensures Referring(phases, id) == 0 && ClosingNow(phases, id) == 0
  {
    if phases != [] { NoneReferring(phases[..|phases| - 1], id); }
  }

  /** In every order the steps of a pipeline end in: an output is never closed while a step that
      lists it has not given it up, and never twice; once all steps have ended it has been closed
      exactly once, and only outputs some step listed have been. */
  lemma ClosedOnceByTheLast(steps: seq<PipelineStep>, events: seq<Event>, id: Name)
    requires Legal(Start(steps), events)
    ensures var s := After(Start(steps), events);
            && s.closed[id] <= 1
            && (s.closed[id] == 1 ==> forall i | 0 <= i < |s.phases| :: !Refers(s.phases[i], id))
            && ((forall i | 0 <= i < |s.phases| :: s.phases[i].Ended?) ==>
                  s.closed[id] == if id in Tally(steps, |steps|) then 1 else 0)
  {
    var s := After(Start(steps), events);
    StartIsCounted(steps, id);
    RunCounted(Start(steps), events, id);
    SameOutputs(Start(steps), events);
    if s.closed[id] == 1 {
      forall i | 0 <= i < |s.phases| ensures !Refers(s.phases[i], id) {
        if Refers(s.phases[i], id) { ReferringIsPositive(s.phases, i, id); }
      }
    }
    if forall i | 0 <= i < |s.phases| :: s.phases[i].Ended? { NoneReferring(s.phases, id); }
  }

  lemma {:induction false} SameOutputs(s: State, events: seq<Event>)
    requires Legal(s, events)
    ensures After(s, events).shared.Keys == s.shared.Keys
    decreases |events|
  {
    if events != [] { SameOutputs(Apply(s, events[0]), events[1..]); }
  }

  /** The counter never goes below zero: done is never called without a matching add. */
  lemma CounterNeverNegative(steps: seq<PipelineStep>, events: seq<Event>, i: nat, id: Name)
    requires Legal(Start(steps), events)
    requires Enabled(After(Start(steps), events), DropRef(i, id))
    ensures var s := After(Start(steps), events); id in s.shared && s.shared[id].refs >= 1
  {
    var s := After(Start(steps), events);
    StartIsCounted(steps, id);
    RunCounted(Start(steps), events, id);
    ReferringIsPositive(s.phases, i, id);
  }
}
