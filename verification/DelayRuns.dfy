/** Every run of the delay pool: adders, processor and closer interleaved step by step. */
module DelayRuns {
  import opened DelayPool
  import opened Sequences

  /** Where the processor goroutine is. Have and WaitTimer hold a snapshot of the earliest due
      time, WaitEmpty the snapshot that there was none. Sending holds a popped item, and
      Leaving has found no more items due and is about to signal. */
  datatype Proc<T> =
    | Top | Have(next: int) | WaitEmpty | WaitTimer(next: int) | Starting
    | Ready(asOf: int, processed: nat) | Sending(item: Item<T>, asOf: int, processed: nat) | Leaving(processed: nat)
    | Exited

  /** Where the first call of Close (respect) or CloseImmediate (not respect) is. */
  datatype Closer<T> =
    | NotClosing | Marked(respect: bool) | Joining(respect: bool) | Draining(respect: bool)
    | DrainSending(respect: bool, item: Item<T>) | OutputClosed(respect: bool)
  {
    predicate Cancelled() { !NotClosing? && !Marked? }
    predicate Immediate() { !NotClosing? && !respect }
  }

  /** A call of Add between two tries. */
  datatype Adder<T> = Trying(item: Item<T>) | Blocked(item: Item<T>)

  /** delivered went out in time, flushed went out through CloseImmediate, dropped was in hand
      when the close context won the select. */
  datatype State<T(==)> = State(
    pool: Shared<T>, proc: Proc<T>, closer: Closer<T>, adders: map<nat, Adder<T>>, now: int,
    accepted: multiset<Item<T>>, delivered: multiset<Item<T>>, flushed: multiset<Item<T>>,
    dropped: multiset<Item<T>>)

  datatype AdderStep<T> = BeginAdd(item: Item<T>) | Try | Wake | GiveUp

  datatype ProcStep<T> =
    | Snapshot(earliest: Item<T>) | SnapshotEmpty | CheckClock | TimerFires | TakeToken
    | ProcessorStops | StartReady | Pop(item: Item<T>) | ReadyDone | Signal | Send | Drop

  datatype CloserStep<T> =
    FirstClose(respect: bool) | Cancel | Joined | DrainPop(item: Item<T>) | DrainSend | DrainDone

  datatype Step<T> =
    | Tick(to: int)
    | AdderDoes(a: nat, add: AdderStep<T>) | ProcDoes(proc: ProcStep<T>) | CloserDoes(close: CloserStep<T>)

  ghost predicate Init<T>(s: State<T>)
  {
    && s.pool == Shared(s.pool.capacity, multiset{}, false, false, false)
    && s.proc == Top && s.closer == NotClosing && s.adders == map[]
    && s.accepted == s.delivered == s.flushed == s.dropped == multiset{}
  }

  /** When a step can be taken. */
  ghost predicate AdderEnabled<T>(s: State<T>, a: nat, step: AdderStep<T>)
  {
    match step
    case BeginAdd(x) => a !in s.adders && x.due == s.now + x.delay
    case Try => a in s.adders && s.adders[a].Trying?
    case Wake => a in s.adders && s.adders[a].Blocked? && s.pool.space
    case GiveUp => a in s.adders && s.adders[a].Blocked?
  }

  ghost predicate ProcEnabled<T>(s: State<T>, step: ProcStep<T>)
  {
    match step
    case Snapshot(x) => s.proc.Top? && Earliest(s.pool.heap, x)
    case SnapshotEmpty => s.proc.Top? && s.pool.heap == multiset{}
    case CheckClock => s.proc.Have?
    case TimerFires => s.proc.WaitTimer? && s.proc.next <= s.now
    case TakeToken => (s.proc.WaitEmpty? || s.proc.WaitTimer?) && s.pool.newItem
    case ProcessorStops => (s.proc.WaitEmpty? || s.proc.WaitTimer?) && s.closer.Cancelled()
    case StartReady => s.proc.Starting?
    case Pop(x) => s.proc.Ready? && Earliest(s.pool.heap, x) && x.due <= s.proc.asOf
    case ReadyDone => s.proc.Ready? && forall x | x in s.pool.heap :: x.due > s.proc.asOf
    case Signal => s.proc.Leaving?
    case Send => s.proc.Sending?
    case Drop => s.proc.Sending? && s.closer.Cancelled()
  }

  ghost predicate CloserEnabled<T>(s: State<T>, step: CloserStep<T>)
  {
    match step
    case FirstClose(_) => s.closer.NotClosing?
    case Cancel => s.closer.Marked?
    case Joined => s.closer.Joining? && s.proc.Exited?
    case DrainPop(x) =>
      s.closer.Draining? && Earliest(s.pool.heap, x) && (s.closer.respect ==> x.due <= s.now)
    case DrainSend => s.closer.DrainSending?
    case DrainDone => s.closer.Draining? && s.pool.heap == multiset{}
  }

  ghost predicate Enabled<T>(s: State<T>, step: Step<T>)
  {
    match step
    case Tick(to) => s.now <= to
    case AdderDoes(a, add) => AdderEnabled(s, a, add)
    case ProcDoes(p) => ProcEnabled(s, p)
    case CloserDoes(c) => CloserEnabled(s, c)
  }

  ghost function AdderApply<T>(s: State<T>, a: nat, step: AdderStep<T>): (s': State<T>)
    requires AdderEnabled(s, a, step)
  {
    match step
    case BeginAdd(x) => s.(adders := s.adders[a := Trying(x)])
    case Try =>
      var x := s.adders[a].item;
      var (pool, r) := TryAdd(s.pool, x);
      (match r
       case Full => s.(adders := s.adders[a := Blocked(x)])
       case PoolClosed => s.(adders := s.adders - {a})
       case Added => s.(pool := pool, adders := s.adders - {a}, accepted := s.accepted + multiset{x}))
    case Wake =>
      s.(pool := s.pool.(space := false), adders := s.adders[a := Trying(s.adders[a].item)])
    case GiveUp => s.(adders := s.adders - {a})
  }

  ghost function ProcApply<T>(s: State<T>, step: ProcStep<T>): (s': State<T>)
    requires ProcEnabled(s, step)
  {
    match step
    case Snapshot(x) => s.(proc := Have(x.due))
    case SnapshotEmpty => s.(proc := WaitEmpty)
    case CheckClock => s.(proc := if s.proc.next <= s.now then Starting else WaitTimer(s.proc.next))
    case TimerFires => s.(proc := Starting)
    case TakeToken => s.(proc := Top, pool := s.pool.(newItem := false))
    case ProcessorStops => s.(proc := Exited)
    case StartReady => s.(proc := Ready(s.now, 0))
    case Pop(x) =>
      s.(proc := Sending(x, s.proc.asOf, s.proc.processed + 1),
         pool := s.pool.(heap := s.pool.heap - multiset{x}))
    case ReadyDone => s.(proc := Leaving(s.proc.processed))
    case Signal =>
      var signal := s.pool.capacity > 0 && s.proc.processed > 0;
      s.(proc := Top, pool := s.pool.(space := s.pool.space || signal))
    case Send =>
      s.(proc := Ready(s.proc.asOf, s.proc.processed), delivered := s.delivered + multiset{s.proc.item})
    case Drop => s.(proc := Top, dropped := s.dropped + multiset{s.proc.item})
  }

  ghost function CloserApply<T>(s: State<T>, step: CloserStep<T>): (s': State<T>)
    requires CloserEnabled(s, step)
  {
    match step
    case FirstClose(respect) => s.(closer := Marked(respect), pool := s.pool.(closed := true))
    case Cancel => s.(closer := Joining(s.closer.respect))
    case Joined => s.(closer := Draining(s.closer.respect))
    case DrainPop(x) =>
      s.(closer := DrainSending(s.closer.respect, x), pool := s.pool.(heap := s.pool.heap - multiset{x}))
    case DrainSend =>
      if s.closer.respect
      then s.(closer := Draining(true), delivered := s.delivered + multiset{s.closer.item})
      else s.(closer := Draining(false), flushed := s.flushed + multiset{s.closer.item})
    case DrainDone => s.(closer := OutputClosed(s.closer.respect))
  }

  ghost function Apply<T>(s: State<T>, step: Step<T>): (s': State<T>)
    requires Enabled(s, step)
  {
    match step
    case Tick(to) => s.(now := to)
    case AdderDoes(a, add) => AdderApply(s, a, add)
    case ProcDoes(p) => ProcApply(s, p)
    case CloserDoes(c) => CloserApply(s, c)
  }

  /** A run: steps that can be taken one after the other. */
  ghost predicate Legal<T>(s: State<T>, steps: seq<Step<T>>)
    decreases |steps|
  {
    steps == [] || (Enabled(s, steps[0]) && Legal(Apply(s, steps[0]), steps[1..]))
  }

  ghost function After<T>(s: State<T>, steps: seq<Step<T>>): (s': State<T>)
    requires Legal(s, steps)
    decreases |steps|
  {
    if steps == [] then s else After(Apply(s, steps[0]), steps[1..])
  }

  // ---------- Nothing is lost, nothing is early ----------

  ghost predicate AllDue<T>(items: multiset<Item<T>>, now: int)
  {
    forall x | x in items :: x.due <= now
  }

  /** Every accepted item is in exactly one place: counted item by item. */
  ghost predicate Accounted<T>(s: State<T>, x: Item<T>)
  {
    s.accepted[x] == s.delivered[x] + s.flushed[x] + s.dropped[x] + s.pool.heap[x]
                     + One(s.proc.Sending? && s.proc.item == x)
                     + One(s.closer.DrainSending? && s.closer.item == x)
  }

  ghost predicate InTime<T>(s: State<T>)
  {
    && AllDue(s.delivered, s.now) && AllDue(s.dropped, s.now)
    && (s.proc.Ready? ==> s.proc.asOf <= s.now)
    && (s.proc.Sending? ==> s.proc.asOf <= s.now && s.proc.item.due <= s.proc.asOf && s.proc.processed > 0)
    && (s.closer.DrainSending? && s.closer.respect ==> s.closer.item.due <= s.now)
    && (s.flushed != multiset{} ==> s.closer.Immediate())
  }

  ghost predicate InOrder<T>(s: State<T>)
  {
    && (s.pool.closed <==> !s.closer.NotClosing?)
    && (s.dropped != multiset{} ==> s.closer.Cancelled())
    && (s.proc.Exited? ==> s.closer.Cancelled())
    && (s.closer.Draining? || s.closer.DrainSending? || s.closer.OutputClosed? ==> s.proc.Exited?)
    && (s.closer.OutputClosed? ==> s.pool.heap == multiset{})
    && (s.pool.capacity > 0 ==> |s.pool.heap| <= s.pool.capacity)
  }

  // ---------- No lost wake-up ----------

  /** A snapshot the heap has overtaken is always paired with a token for the processor. */
  ghost predicate NoLostWakeUp<T>(s: State<T>)
  {
    && (s.proc.WaitEmpty? && s.pool.heap != multiset{} ==> s.pool.newItem)
    && (s.proc.Have? || s.proc.WaitTimer? ==>
          (exists x :: x in s.pool.heap && x.due < s.proc.next) ==> s.pool.newItem)
  }

  /** The processor is at a batch it has taken something from, and will signal at the end of it. */
  predicate Delivering<T>(p: Proc<T>)
  {
    (p.Ready? || p.Sending? || p.Leaving?) && p.processed > 0
  }

  /** While an adder is blocked on an open pool, a token is waiting, an item is in the heap, whose
      delivery will end with a signal, the processor is mid-delivery, or another adder is about
      to retry. */
  ghost predicate NoneStranded<T>(s: State<T>)
  {
    && (forall a | a in s.adders && s.adders[a].Blocked? :: s.pool.capacity > 0)
    && ((exists a :: a in s.adders && s.adders[a].Blocked?) ==>
          || s.pool.closed || s.pool.space || s.pool.heap != multiset{}
          || Delivering(s.proc)
          || (exists a :: a in s.adders && s.adders[a].Trying?))
  }

  ghost predicate Inv<T>(s: State<T>)
  {
    InTime(s) && InOrder(s) && NoLostWakeUp(s) && NoneStranded(s)
  }

  lemma AdderKeeps<T>(s: State<T>, a: nat, step: AdderStep<T>)
    requires Inv(s) && AdderEnabled(s, a, step)
    ensures var s' := AdderApply(s, a, step); InTime(s') && InOrder(s')
  {
  }

  lemma AdderNoLostWakeUp<T>(s: State<T>, a: nat, step: AdderStep<T>)
    requires NoLostWakeUp(s) && AdderEnabled(s, a, step)
    ensures NoLostWakeUp(AdderApply(s, a, step))
  {
  }

  lemma AdderStrandsNone<T>(s: State<T>, a: nat, step: AdderStep<T>)
    requires NoneStranded(s) && AdderEnabled(s, a, step)
    ensures NoneStranded(AdderApply(s, a, step))
  {
    var s' := AdderApply(s, a, step);
    match step
    case BeginAdd(_) => assert s'.adders[a].Trying?;
    case Wake => assert s'.adders[a].Trying?;
    case GiveUp =>
      if b :| b in s'.adders && s'.adders[b].Blocked? { assert s.adders[b].Blocked?; }
      if b :| b in s.adders && s.adders[b].Trying? { assert s'.adders[b].Trying?; }
    case Try =>
      if s'.pool.heap == multiset{} { assert |s.pool.heap| == 0; }
  }

  lemma AllDuePlus<T>(items: multiset<Item<T>>, x: Item<T>, now: int)
    requires AllDue(items, now) && x.due <= now
    ensures AllDue(items + multiset{x}, now)
  {
  }

  lemma ProcInTime<T>(s: State<T>, step: ProcStep<T>)
    requires InTime(s) && ProcEnabled(s, step)
    ensures InTime(ProcApply(s, step))
  {
    match step
    case Send => AllDuePlus(s.delivered, s.proc.item, s.now);
    case Drop => AllDuePlus(s.dropped, s.proc.item, s.now);
    case _ =>
  }

  lemma ProcInOrder<T>(s: State<T>, step: ProcStep<T>)
    requires InOrder(s) && ProcEnabled(s, step)
    ensures InOrder(ProcApply(s, step))
  {
  }

  lemma ProcNoLostWakeUp<T>(s: State<T>, step: ProcStep<T>)
    requires NoLostWakeUp(s) && ProcEnabled(s, step)
    ensures NoLostWakeUp(ProcApply(s, step))
  {
  }

  lemma ProcStrandsNone<T>(s: State<T>, step: ProcStep<T>)
    requires InOrder(s) && NoneStranded(s) && ProcEnabled(s, step)
    ensures NoneStranded(ProcApply(s, step))
  {
  }

  lemma CloserInTime<T>(s: State<T>, step: CloserStep<T>)
    requires InTime(s) && CloserEnabled(s, step)
    ensures InTime(CloserApply(s, step))
  {
  }

  lemma CloserKeeps<T>(s: State<T>, step: CloserStep<T>)
    requires Inv(s) && CloserEnabled(s, step)
    ensures var s' := CloserApply(s, step); InOrder(s') && NoLostWakeUp(s') && NoneStranded(s')
  {
  }

  lemma StepKeeps<T>(s: State<T>, step: Step<T>)
    requires Inv(s) && Enabled(s, step)
    ensures Inv(Apply(s, step))
  {
    match step
    case Tick(_) =>
    case AdderDoes(a, add) =>
      AdderKeeps(s, a, add);
      AdderNoLostWakeUp(s, a, add);
      AdderStrandsNone(s, a, add);
    case ProcDoes(p) =>
      ProcInTime(s, p);
      ProcInOrder(s, p);
      ProcNoLostWakeUp(s, p);
      ProcStrandsNone(s, p);
    case CloserDoes(c) =>
      CloserInTime(s, c);
      CloserKeeps(s, c);
  }

  lemma ProcAccounted<T>(s: State<T>, step: ProcStep<T>, x: Item<T>)
    requires Accounted(s, x) && ProcEnabled(s, step)
    ensures Accounted(ProcApply(s, step), x)
  {
  }

  lemma CloserAccounted<T>(s: State<T>, step: CloserStep<T>, x: Item<T>)
    requires Accounted(s, x) && CloserEnabled(s, step)
    ensures Accounted(CloserApply(s, step), x)
  {
  }

  lemma AdderAccounted<T>(s: State<T>, a: nat, step: AdderStep<T>, x: Item<T>)
    requires Accounted(s, x) && AdderEnabled(s, a, step)
    ensures Accounted(AdderApply(s, a, step), x)
  {
  }

  lemma StepAccounted<T>(s: State<T>, step: Step<T>, x: Item<T>)
    requires Accounted(s, x) && Enabled(s, step)
    ensures Accounted(Apply(s, step), x)
  {
    match step
    case Tick(_) =>
    case AdderDoes(a, add) => AdderAccounted(s, a, add, x);
    case ProcDoes(p) => ProcAccounted(s, p, x);
    case CloserDoes(c) => CloserAccounted(s, c, x);
  }

  lemma {:induction false} RunInv<T>(s: State<T>, steps: seq<Step<T>>)
    requires Inv(s) && Legal(s, steps)
    ensures Inv(After(s, steps))
    decreases |steps|
  {
    if steps != [] {
      StepKeeps(s, steps[0]);
      RunInv(Apply(s, steps[0]), steps[1..]);
    }
  }

  lemma {:induction false} RunAccounted<T>(s: State<T>, steps: seq<Step<T>>, x: Item<T>)
    requires Accounted(s, x) && Legal(s, steps)
    ensures Accounted(After(s, steps), x)
    decreases |steps|
  {
    if steps != [] {
      StepAccounted(s, steps[0], x);
      RunAccounted(Apply(s, steps[0]), steps[1..], x);
    }
  }

  // ---------- What every run guarantees ----------

  function InHand<T>(s: State<T>): (m: multiset<Item<T>>)
  {
    (if s.proc.Sending? then multiset{s.proc.item} else multiset{}) +
    (if s.closer.DrainSending? then multiset{s.closer.item} else multiset{})
  }

  function Everything<T>(s: State<T>): (m: multiset<Item<T>>)
  {
    s.delivered + s.flushed + s.dropped + s.pool.heap + InHand(s)
  }

  lemma EverythingCounts<T>(s: State<T>, x: Item<T>)
    requires Accounted(s, x)
    ensures s.accepted[x] == Everything(s)[x]
  {
  }

  /** Accounting: what was accepted has been delivered, flushed or dropped, or is still held. */
  lemma NothingLost<T(!new)>(start: State<T>, steps: seq<Step<T>>)
    requires Init(start) && Legal(start, steps)
    ensures After(start, steps).accepted == Everything(After(start, steps))
  {
    var s := After(start, steps);
    forall x: Item<T> ensures s.accepted[x] == Everything(s)[x] {
      RunAccounted(start, steps, x);
      EverythingCounts(s, x);
    }
  }

  /** Nothing goes out before it is due except through CloseImmediate; only items already due
      are dropped, and only once the pool is closing; the heap respects a positive capacity. */
  lemma InTimeAndWithinCapacity<T>(start: State<T>, steps: seq<Step<T>>)
    requires Init(start) && Legal(start, steps)
    ensures var s := After(start, steps);
            && AllDue(s.delivered, s.now) && AllDue(s.dropped, s.now)
            && (s.flushed != multiset{} ==> s.closer.Immediate())
            && (s.dropped != multiset{} ==> s.closer.Cancelled())
            && (s.pool.capacity > 0 ==> |s.pool.heap| <= s.pool.capacity)
  {
    RunInv(start, steps);
  }

  /** No lost wake-up: whenever the heap holds something due before the processor's snapshot,
      a token is waiting for the processor, whatever the adders have been doing. */
  lemma OvertakenSnapshotHasToken<T>(start: State<T>, steps: seq<Step<T>>, x: Item<T>)
    requires Init(start) && Legal(start, steps)
    requires var s := After(start, steps);
             && x in s.pool.heap
             && (s.proc.WaitEmpty? || ((s.proc.Have? || s.proc.WaitTimer?) && x.due < s.proc.next))
    ensures After(start, steps).pool.newItem
  {
    RunInv(start, steps);
  }

  /** A due item is never slept through: the processor, if it is waiting, can be woken. */
  lemma DueItemWakesProcessor<T>(start: State<T>, steps: seq<Step<T>>, x: Item<T>)
    requires Init(start) && Legal(start, steps)
    requires var s := After(start, steps); x in s.pool.heap && x.due <= s.now
    ensures var s := After(start, steps);
            s.proc.WaitEmpty? || s.proc.WaitTimer? ==>
              Enabled(s, ProcDoes(TakeToken)) || Enabled(s, ProcDoes(TimerFires))
  {
    RunInv(start, steps);
  }

  /** When the output channel has been closed the pool is empty, nobody is left to send on
      it, and every accepted item went out or was dropped in hand. */
  lemma ClosedMeansDrained<T(!new)>(start: State<T>, steps: seq<Step<T>>)
    requires Init(start) && Legal(start, steps) && After(start, steps).closer.OutputClosed?
    ensures var s := After(start, steps);
            && s.proc.Exited?
            && s.accepted == s.delivered + s.flushed + s.dropped
            && (s.closer.respect ==> s.flushed == multiset{})
  {
    RunInv(start, steps);
    NothingLost(start, steps);
  }
}
