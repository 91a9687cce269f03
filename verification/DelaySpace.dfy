/** Room in a bounded delay pool: when a blocked adder is told about it, and when it is not.
    The processor signals once per batch, on a channel with one slot (delay/pool.go:322-329), and
    an adder that was woken does not pass the signal on. */
module DelaySpace {
  import opened DelayPool
  import opened DelayRuns

  /** An adder is blocked on an open pool with room, and nobody is about to tell it: there is no
      token, no batch the processor has taken anything from, and no adder that is retrying. */
  ghost predicate RoomUnsignalled<T>(s: State<T>)
  {
    && !s.pool.closed && |s.pool.heap| < s.pool.capacity && !s.pool.space
    && (exists a :: a in s.adders && s.adders[a].Blocked?)
    && (forall a | a in s.adders :: !s.adders[a].Trying?)
    && !Delivering(s.proc)
  }

  /** And the processor sleeps until some time to come. */
  ghost predicate Stuck<T>(s: State<T>)
  {
    RoomUnsignalled(s) && s.proc.WaitTimer? && s.proc.next > s.now && !s.pool.newItem
  }

  /** Some run leads from s to s'. */
  ghost predicate Leads<T(!new)>(s: State<T>, s': State<T>)
  {
    exists steps :: Legal(s, steps) && After(s, steps) == s'
  }

  ghost predicate Reachable<T(!new)>(s: State<T>)
  {
    exists start :: Init(start) && Leads(start, s)
  }

  /** A stuck pool stays as it is until time passes, somebody new comes or somebody leaves. */
  lemma StuckStays<T>(s: State<T>, step: Step<T>)
    requires Inv(s) && Stuck(s) && Enabled(s, step)
    ensures || step.Tick?
            || (step.AdderDoes? && (step.add.BeginAdd? || step.add.GiveUp?))
            || (step.CloserDoes? && step.close.FirstClose?)
  {
  }

  /** Room only goes unsignalled beside items, so in a pool for more than one. */
  lemma UnsignalledBesideItems<T(!new)>(s: State<T>)
    requires Reachable(s) && RoomUnsignalled(s)
    ensures s.pool.heap != multiset{} && s.pool.capacity >= 2
  {
    ReachableInv(s);
  }

  /** A pool for one item, or without a limit, never leaves an adder unsignalled. */
  lemma OneItemIsSignalled<T(!new)>(s: State<T>)
    requires Reachable(s) && s.pool.capacity <= 1
    ensures !RoomUnsignalled(s)
  {
    ReachableInv(s);
  }

  lemma ReachableInv<T(!new)>(s: State<T>)
    requires Reachable(s)
    ensures Inv(s)
  {
    var start :| Init(start) && Leads(start, s);
    var steps :| Legal(start, steps) && After(start, steps) == s;
    RunInv(start, steps);
  }

  // ---------- A run that leaves an adder stuck ----------

  lemma Stand<T(!new)>(s: State<T>)
    ensures Leads(s, s)
  {
    assert Legal(s, []) && After(s, []) == s;
  }

  lemma {:induction false} Extend<T>(s: State<T>, steps: seq<Step<T>>, step: Step<T>)
    requires Legal(s, steps) && Enabled(After(s, steps), step)
    ensures Legal(s, steps + [step]) && After(s, steps + [step]) == Apply(After(s, steps), step)
    decreases |steps|
  {
    if steps == [] {
      assert steps + [step] == [step] && [step][1..] == [];
    } else {
      Extend(Apply(s, steps[0]), steps[1..], step);
      assert (steps + [step])[1..] == steps[1..] + [step];
    }
  }

  lemma Then<T(!new)>(s0: State<T>, s: State<T>, step: Step<T>) returns (s': State<T>)
    requires Leads(s0, s) && Enabled(s, step)
    ensures s' == Apply(s, step) && Leads(s0, s') && (Inv(s) ==> Inv(s'))
  {
    var steps :| Legal(s0, steps) && After(s0, steps) == s;
    Extend(s0, steps, step);
    if Inv(s) { StepKeeps(s, step); }
    s' := Apply(s, step);
  }

  lemma Reach<T(!new)>(s: State<T>, step: Step<T>) returns (s': State<T>)
    requires Reachable(s) && Enabled(s, step)
    ensures s' == Apply(s, step) && Reachable(s')
  {
    var start :| Init(start) && Leads(start, s);
    s' := Then(start, s, step);
  }

  /** Nobody closes the pool, and the adders are these. */
  ghost predicate Quiet<T>(s: State<T>, adders: map<nat, Adder<T>>)
  {
    && s.adders == adders && s.closer.NotClosing? && !s.pool.closed
  }

  /** An item is added where there is room. */
  lemma AddOne<T(!new)>(s: State<T>, x: Item<T>) returns (s': State<T>)
    requires Reachable(s) && Quiet(s, map[]) && |s.pool.heap| < s.pool.capacity && x.due == s.now + x.delay
    ensures Reachable(s') && Quiet(s', map[])
    ensures s'.pool == s.pool.(heap := s.pool.heap + multiset{x}, newItem := s'.pool.newItem)
    ensures s'.proc == s.proc && s'.now == s.now
  {
    var s1 := Reach(s, AdderDoes(0, BeginAdd(x)));
    s' := Reach(s1, AdderDoes(0, Try));
  }

  /** An adder finds the pool full. */
  lemma BlockOne<T(!new)>(s: State<T>, a: nat, x: Item<T>) returns (s': State<T>)
    requires Reachable(s) && a !in s.adders && !s.pool.closed && x.due == s.now + x.delay
    requires |s.pool.heap| == s.pool.capacity > 0
    ensures Reachable(s') && s' == s.(adders := s.adders[a := Blocked(x)])
  {
    var s1 := Reach(s, AdderDoes(a, BeginAdd(x)));
    s' := Reach(s1, AdderDoes(a, Try));
  }

  /** The heap holds n items, all of them x. */
  ghost predicate Only<T>(heap: multiset<Item<T>>, x: Item<T>, n: nat)
  {
    |heap| == n && forall y | y in heap :: y == x
  }

  lemma {:induction false} FillUp<T(!new)>(capacity: int, x: Item<T>, n: nat) returns (s: State<T>)
    requires n < capacity && x.due == x.delay
    ensures Reachable(s) && Quiet(s, map[]) && s.proc.Top? && s.now == 0
    ensures s.pool.capacity == capacity && !s.pool.space && Only(s.pool.heap, x, n)
  {
    if n == 0 {
      s := State(Shared(capacity, multiset{}, false, false, false), Top, NotClosing, map[], 0,
                 multiset{}, multiset{}, multiset{}, multiset{});
      Stand(s);
    } else {
      var s0 := FillUp(capacity, x, n - 1);
      s := AddOne(s0, x);
    }
  }

  /** A full pool, two of its items due before the others, and two adders waiting. */
  lemma FullPool<T(!new)>(capacity: int, near: Item<T>, far: Item<T>) returns (s: State<T>, rest: multiset<Item<T>>)
    requires capacity >= 2 && near.due == near.delay == 10 && far.due == far.delay == 1000
    ensures Reachable(s) && Quiet(s, map[0 := Blocked(far), 1 := Blocked(far)]) && s.proc.Top? && s.now == 0
    ensures s.pool.capacity == capacity && !s.pool.space
    ensures Only(rest, far, capacity - 2) && s.pool.heap == rest + multiset{near} + multiset{near}
  {
    var s0 := FillUp(capacity, far, capacity - 2);
    rest := s0.pool.heap;
    var s1 := AddOne(s0, near);
    var s2 := AddOne(s1, near);
    var s3 := BlockOne(s2, 0, far);
    s := BlockOne(s3, 1, far);
    assert s.adders == map[0 := Blocked(far), 1 := Blocked(far)];
  }

  lemma PopOne<T(!new)>(s: State<T>, x: Item<T>, rest: multiset<Item<T>>) returns (s': State<T>)
    requires Reachable(s) && s.proc.Ready? && s.pool.heap == rest + multiset{x} && x.due <= s.proc.asOf
    requires forall y | y in rest :: x.due <= y.due
    ensures Reachable(s') && s'.proc == Sending(x, s.proc.asOf, s.proc.processed + 1)
    ensures s'.pool == s.pool.(heap := rest)
    ensures s'.adders == s.adders && s'.closer == s.closer && s'.now == s.now
  {
    s' := Reach(s, ProcDoes(Pop(x)));
    assert rest + multiset{x} - multiset{x} == rest;
  }

  /** One due item goes out. */
  lemma SendOne<T(!new)>(s: State<T>, x: Item<T>, rest: multiset<Item<T>>) returns (s': State<T>)
    requires Reachable(s) && s.proc.Ready? && s.pool.heap == rest + multiset{x} && x.due <= s.proc.asOf
    requires forall y | y in rest :: x.due <= y.due
    ensures Reachable(s') && s'.proc == Ready(s.proc.asOf, s.proc.processed + 1)
    ensures s'.pool == s.pool.(heap := rest)
    ensures s'.adders == s.adders && s'.closer == s.closer && s'.now == s.now
  {
    var s1 := PopOne(s, x, rest);
    s' := Reach(s1, ProcDoes(Send));
  }

  /** The first items come due and the processor starts on them. */
  lemma StartOn<T(!new)>(s: State<T>, x: Item<T>) returns (s': State<T>)
    requires Reachable(s) && s.proc.Top? && s.now <= x.due && Earliest(s.pool.heap, x)
    ensures Reachable(s') && s'.proc == Ready(x.due, 0) && s'.pool == s.pool
    ensures s'.adders == s.adders && s'.closer == s.closer && s'.now == x.due
  {
    var s1 := Reach(s, Tick(x.due));
    var s2 := Reach(s1, ProcDoes(Snapshot(x)));
    var s3 := Reach(s2, ProcDoes(CheckClock));
    s' := Reach(s3, ProcDoes(StartReady));
  }

  /** Both due items go out in one batch, and one signal is given. */
  lemma SendBoth<T(!new)>(s: State<T>, x: Item<T>, rest: multiset<Item<T>>) returns (s': State<T>)
    requires Reachable(s) && s.proc.Top? && s.now <= x.due
    requires s.pool.heap == rest + multiset{x} + multiset{x} && s.pool.capacity > 0
    requires forall y | y in rest :: x.due < y.due
    ensures Reachable(s') && s'.proc.Top? && s'.pool == s.pool.(heap := rest, space := true)
    ensures s'.adders == s.adders && s'.closer == s.closer && s'.now == x.due
  {
    var s1 := StartOn(s, x);
    var s2 := SendOne(s1, x, rest + multiset{x});
    var s3 := SendOne(s2, x, rest);
    var s4 := Reach(s3, ProcDoes(ReadyDone));
    s' := Reach(s4, ProcDoes(Signal));
  }

  /** The processor goes to sleep until its earliest item is due. */
  lemma FallAsleep<T(!new)>(s: State<T>, x: Item<T>) returns (s': State<T>)
    requires Reachable(s) && s.proc.Top? && Earliest(s.pool.heap, x) && x.due > s.now
    ensures Reachable(s') && s'.proc == WaitTimer(x.due) && s'.pool == s.pool.(newItem := false)
    ensures s'.adders == s.adders && s'.closer == s.closer && s'.now == s.now
  {
    var s1 := Reach(s, ProcDoes(Snapshot(x)));
    s' := Reach(s1, ProcDoes(CheckClock));
    if s.pool.newItem {
      var s2 := Reach(s', ProcDoes(TakeToken));
      var s3 := Reach(s2, ProcDoes(Snapshot(x)));
      s' := Reach(s3, ProcDoes(CheckClock));
    }
  }

  /** An adder takes the signal and adds its item. */
  lemma WakeAndAdd<T(!new)>(s: State<T>, a: nat, x: Item<T>) returns (s': State<T>)
    requires Reachable(s) && a in s.adders && s.adders[a] == Blocked(x) && s.pool.space && !s.pool.closed
    requires |s.pool.heap| < s.pool.capacity
    ensures Reachable(s') && s'.adders == s.adders - {a}
    ensures s'.proc == s.proc && s'.closer == s.closer && s'.now == s.now
    ensures s'.pool == s.pool.(heap := s.pool.heap + multiset{x}, space := false, newItem := s'.pool.newItem)
  {
    var s1 := Reach(s, AdderDoes(a, Wake));
    s' := Reach(s1, AdderDoes(a, Try));
  }

  /** One adder takes the only signal; the other is left with the rest of the room. */
  lemma LargerPoolGetsStuck<T(!new)>(capacity: int, v: T) returns (s: State<T>)
    requires capacity >= 2
    ensures Reachable(s) && s.pool.capacity == capacity && Stuck(s)
  {
    var near, far := Item(v, 10, 10), Item(v, 1000, 1000);
    var s0, rest := FullPool(capacity, near, far);
    var s1 := SendBoth(s0, near, rest);
    var s2 := WakeAndAdd(s1, 0, far);
    s := FallAsleep(s2, far);
    assert s.adders == map[1 := Blocked(far)];
    assert 1 in s.adders;
  }

  /** Exactly the pools that hold one item, or have no limit, signal room to every blocked adder;
      any larger pool has a run that leaves one stuck. */
  lemma RoomIsSignalledIff<T(!new)>(capacity: int, v: T)
    ensures (forall s: State<T> | Reachable(s) && s.pool.capacity == capacity :: !RoomUnsignalled(s))
            <==> capacity <= 1
    ensures (forall s: State<T> | Reachable(s) && s.pool.capacity == capacity :: !Stuck(s))
            <==> capacity <= 1
  {
    if capacity <= 1 {
      forall s: State<T> | Reachable(s) && s.pool.capacity == capacity ensures !RoomUnsignalled(s) {
        OneItemIsSignalled(s);
      }
    } else {
      var s := LargerPoolGetsStuck(capacity, v);
    }
  }

  // ---------- No adder is left for good ----------

  /** Adder a is blocked on an open pool. */
  ghost predicate Waits<T>(s: State<T>, a: nat)
  {
    Inv(s) && a in s.adders && s.adders[a].Blocked? && !s.pool.closed
  }

  lemma {:induction false} PickEarliest<T>(heap: multiset<Item<T>>) returns (x: Item<T>)
    requires heap != multiset{}
    ensures Earliest(heap, x)
    decreases |heap|
  {
    x :| x in heap;
    var rest := heap - multiset{x};
    assert heap == rest + multiset{x};
    if rest != multiset{} {
      var y := PickEarliest(rest);
      if y.due < x.due { x := y; }
    }
  }

  /** A batch something was taken from ends with a signal. */
  lemma {:induction false} FinishBatch<T(!new)>(s0: State<T>, s: State<T>, a: nat) returns (s': State<T>)
    requires Leads(s0, s) && Waits(s, a) && Delivering(s.proc)
    ensures Leads(s0, s') && Waits(s', a) && s'.pool.space
    decreases |s.pool.heap|, s.proc.Sending?
  {
    if s.proc.Leaving? {
      s' := Then(s0, s, ProcDoes(Signal));
    } else if s.proc.Sending? {
      var s1 := Then(s0, s, ProcDoes(Send));
      s' := FinishBatch(s0, s1, a);
    } else if exists y :: y in s.pool.heap && y.due <= s.proc.asOf {
      var x := PickEarliest(s.pool.heap);
      var s1 := Then(s0, s, ProcDoes(Pop(x)));
      s' := FinishBatch(s0, s1, a);
    } else {
      var s1 := Then(s0, s, ProcDoes(ReadyDone));
      s' := Then(s0, s1, ProcDoes(Signal));
    }
  }

  /** From the top of its loop the processor gets to deliver the earliest item. */
  lemma BatchFromTop<T(!new)>(s0: State<T>, s: State<T>, a: nat) returns (s': State<T>)
    requires Leads(s0, s) && Waits(s, a) && s.proc.Top? && s.pool.heap != multiset{}
    ensures Leads(s0, s') && Waits(s', a) && s'.pool.space
  {
    var x := PickEarliest(s.pool.heap);
    var s1 := Then(s0, s, ProcDoes(Snapshot(x)));
    var s2 := Then(s0, s1, Tick(if x.due <= s1.now then s1.now else x.due));
    var s3 := Then(s0, s2, ProcDoes(CheckClock));
    s' := BatchOnDue(s0, s3, a, x);
  }

  lemma BatchOnDue<T(!new)>(s0: State<T>, s: State<T>, a: nat, x: Item<T>) returns (s': State<T>)
    requires Leads(s0, s) && Waits(s, a) && s.proc.Starting? && Earliest(s.pool.heap, x) && x.due <= s.now
    ensures Leads(s0, s') && Waits(s', a) && s'.pool.space
  {
    var s1 := Then(s0, s, ProcDoes(StartReady));
    var s2 := Then(s0, s1, ProcDoes(Pop(x)));
    s' := FinishBatch(s0, s2, a);
  }

  lemma BatchFromReady<T(!new)>(s0: State<T>, s: State<T>, a: nat) returns (s': State<T>)
    requires Leads(s0, s) && Waits(s, a) && s.proc.Ready? && s.proc.processed == 0 && s.pool.heap != multiset{}
    ensures Leads(s0, s') && Waits(s', a) && s'.pool.space
  {
    var x := PickEarliest(s.pool.heap);
    if x.due <= s.proc.asOf {
      var s1 := Then(s0, s, ProcDoes(Pop(x)));
      s' := FinishBatch(s0, s1, a);
    } else {
      var s1 := Then(s0, s, ProcDoes(ReadyDone));
      var s2 := Then(s0, s1, ProcDoes(Signal));
      s' := BatchFromTop(s0, s2, a);
    }
  }

  lemma BatchFromStarting<T(!new)>(s0: State<T>, s: State<T>, a: nat) returns (s': State<T>)
    requires Leads(s0, s) && Waits(s, a) && s.proc.Starting? && s.pool.heap != multiset{}
    ensures Leads(s0, s') && Waits(s', a) && s'.pool.space
  {
    var s1 := Then(s0, s, ProcDoes(StartReady));
    s' := BatchFromReady(s0, s1, a);
  }

  /** With an item in the heap, wherever the processor is. */
  lemma SignalFromHeap<T(!new)>(s0: State<T>, s: State<T>, a: nat) returns (s': State<T>)
    requires Leads(s0, s) && Waits(s, a) && s.pool.heap != multiset{}
    ensures Leads(s0, s') && Waits(s', a) && s'.pool.space
  {
    match s.proc
    case Top => s' := BatchFromTop(s0, s, a);
    case Have(next) =>
      var s1 := Then(s0, s, Tick(if next <= s.now then s.now else next));
      var s2 := Then(s0, s1, ProcDoes(CheckClock));
      s' := BatchFromStarting(s0, s2, a);
    case WaitEmpty =>
      var s1 := Then(s0, s, ProcDoes(TakeToken));
      s' := BatchFromTop(s0, s1, a);
    case WaitTimer(next) =>
      var s1 := Then(s0, s, Tick(if next <= s.now then s.now else next));
      var s2 := Then(s0, s1, ProcDoes(TimerFires));
      s' := BatchFromStarting(s0, s2, a);
    case Starting => s' := BatchFromStarting(s0, s, a);
    case Ready(_, processed) =>
      if processed > 0 { s' := FinishBatch(s0, s, a); } else { s' := BatchFromReady(s0, s, a); }
    case Sending(_, _, _) => s' := FinishBatch(s0, s, a);
    case Leaving(processed) =>
      if processed > 0 {
        s' := FinishBatch(s0, s, a);
      } else {
        var s1 := Then(s0, s, ProcDoes(Signal));
        s' := BatchFromTop(s0, s1, a);
      }
  }

  /** From every state of every run, an adder blocked on an open pool can still be woken: room may
      go unsignalled for a while, but never for good. */
  lemma BlockedCanBeWoken<T(!new)>(s: State<T>, a: nat) returns (s': State<T>)
    requires Reachable(s) && a in s.adders && s.adders[a].Blocked? && !s.pool.closed
    ensures Leads(s, s') && Enabled(s', AdderDoes(a, Wake))
  {
    ReachableInv(s);
    Stand(s);
    if s.pool.space {
      s' := s;
    } else if s.pool.heap != multiset{} {
      s' := SignalFromHeap(s, s, a);
    } else if Delivering(s.proc) {
      s' := FinishBatch(s, s, a);
    } else {
      var b :| b in s.adders && s.adders[b].Trying?;
      var s1 := Then(s, s, AdderDoes(b, Try));
      s' := SignalFromHeap(s, s1, a);
    }
  }
}
