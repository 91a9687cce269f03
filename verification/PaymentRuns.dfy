/** Any number of transactions and exchanges interleaved over one nonce locker, each driven the
    way the router's handler and the bank drive them. */
module PaymentRuns {
  import opened Bytes
  import opened Payments

  /** Tx is an open transaction; Refunding has committed and owes a refund; Locking and Signed
      are an exchange for a target credit before it consumes; Owing has consumed and owes the
      signature of its target. RolledBack has let go of its nonce, Abandoned keeps it locked
      without being able to use it. */
  datatype Thread =
    | Tx(credit: Credit, ctx: Ctx)
    | Refunding(credit: Credit, amount: nat)
    | Locking(credit: Credit, target: Credit)
    | Signed(credit: Credit, target: Credit)
    | Owing(credit: Credit, target: Credit)
    | RolledBack(credit: Credit)
    | Abandoned(credit: Credit)
    | Ended

  /** A credit somebody holds, and the credit it was paid for with; None when it was minted. */
  datatype Issue = Issue(credit: Credit, paidWith: Option<Credit>)

  /** spent lists the nonces of the commits and exchanges that succeeded, in order. */
  datatype State = State(
    used: Nonces, issued: seq<Issue>, threads: seq<Thread>, spent: seq<Nonce>, minted: nat)

  datatype Step =
    | Mint(credit: Credit)
    | Begin(credit: Credit)
    | CancelCtx(t: nat)
    | CommitTx(t: nat, refund: Option<nat>)
    | FailCommit(t: nat)
    | IssueRefund(t: nat, nonce: Option<Nonce>)
    | RollbackTx(t: nat)
    | BeginExchange(credit: Credit, value: nat, newNonce: Nonce)
    | Sign(t: nat, ok: bool)
    | ConsumeOld(t: nat)
    | FailConsume(t: nat)
    | ReturnSignature(t: nat)

  predicate Verifies(issued: seq<Issue>, c: Credit)
  {
    exists i :: 0 <= i < |issued| && issued[i].credit == c
  }

  predicate Enabled(s: State, step: Step)
  {
    match step
    case Mint(_) => true
    case Begin(_) => true
    case CancelCtx(t) => t < |s.threads| && s.threads[t].Tx?
    case CommitTx(t, _) => t < |s.threads| && s.threads[t].Tx?
    case FailCommit(t) => t < |s.threads| && s.threads[t].Tx?
    case IssueRefund(t, _) => t < |s.threads| && s.threads[t].Refunding?
    case RollbackTx(t) => t < |s.threads| && s.threads[t].Tx?
    case BeginExchange(_, _, _) => true
    case Sign(t, _) => t < |s.threads| && s.threads[t].Locking?
    case ConsumeOld(t) => t < |s.threads| && s.threads[t].Signed?
    case FailConsume(t) => t < |s.threads| && s.threads[t].Signed?
    case ReturnSignature(t) => t < |s.threads| && s.threads[t].Owing?
  }

  function Apply(s: State, step: Step): (s': State)
    requires Enabled(s, step)
  {
    match step
    case Mint(c) => s.(issued := s.issued + [Issue(c, None)], minted := s.minted + c.value)
    case Begin(c) =>
      var (used, ok) := Lock(s.used, c.nonce);
      if !Verifies(s.issued, c) || !ok then s else s.(used := used, threads := s.threads + [Tx(c, Live)])
    case CancelCtx(t) =>
      if s.threads[t].ctx.Live? then s.(threads := s.threads[t := s.threads[t].(ctx := Cancelled)]) else s
    case CommitTx(t, refund) =>
      var c := s.threads[t].credit;
      var (used, ctx, ok) := Commit(s.used, s.threads[t].ctx, c.nonce, true);
      if !ok then s
      else
        s.(used := used, spent := s.spent + [c.nonce],
           threads := s.threads[t := if refund.Some? then Refunding(c, refund.value) else Tx(c, ctx)])
    case FailCommit(t) =>
      if !s.threads[t].ctx.Live? then s
      else
        var (used, _, _) := Commit(s.used, Live, s.threads[t].credit.nonce, false);
        s.(used := used, threads := s.threads[t := Ended])
    case IssueRefund(t, nonce) =>
      var th := s.threads[t];
      var s1 := s.(threads := s.threads[t := Tx(th.credit, Finished)]);
      if nonce.None? then s1
      else s1.(issued := s.issued + [Issue(Credit(nonce.value, th.amount), Some(th.credit))])
    case RollbackTx(t) =>
      var Tx(c, ctx) := s.threads[t];
      var (used, _) := Rollback(s.used, ctx, c.nonce);
      s.(used := used, threads := s.threads[t := OnceRolledBack(c, ctx)])
    case BeginExchange(c, value, newNonce) =>
      var (used, ok) := Lock(s.used, c.nonce);
      if c.value != value || !Verifies(s.issued, c) || !ok then s
      else s.(used := used, threads := s.threads + [Locking(c, Credit(newNonce, value))])
    case Sign(t, ok) =>
      var th := s.threads[t];
      if ok then s.(threads := s.threads[t := Signed(th.credit, th.target)])
      else s.(used := Release(s.used, th.credit.nonce).0, threads := s.threads[t := Ended])
    case ConsumeOld(t) =>
      var th := s.threads[t];
      s.(used := Consume(s.used, th.credit.nonce), spent := s.spent + [th.credit.nonce],
         threads := s.threads[t := Owing(th.credit, th.target)])
    case FailConsume(t) => s.(threads := s.threads[t := Abandoned(s.threads[t].credit)])
    case ReturnSignature(t) =>
      var th := s.threads[t];
      s.(issued := s.issued + [Issue(th.target, Some(th.credit))],
         threads := s.threads[t := Ended])
  }

  /** A rollback under a cancelled context returns before it releases anything. */
  function OnceRolledBack(c: Credit, ctx: Ctx): (th: Thread)
  {
    match ctx
    case Live => RolledBack(c)
    case Cancelled => Abandoned(c)
    case Finished => Ended
  }

  predicate Legal(s: State, steps: seq<Step>)
    decreases |steps|
  {
    steps == [] || (Enabled(s, steps[0]) && Legal(Apply(s, steps[0]), steps[1..]))
  }

  function After(s: State, steps: seq<Step>): (s': State)
    requires Legal(s, steps)
    decreases |steps|
  {
    if steps == [] then s else After(Apply(s, steps[0]), steps[1..])
  }

  const START := State(map[], [], [], [], 0)

  // ---------- Single spend ----------

  /** The thread holds a lock handle it has neither consumed nor let go of. */
  predicate Holds(th: Thread)
  {
    (th.Tx? && !th.ctx.Finished?) || th.Locking? || th.Signed?
  }

  /** The thread's nonce is locked on its account. */
  predicate Keeps(th: Thread)
  {
    Holds(th) || th.Abandoned?
  }

  predicate IsLocked(used: Nonces, n: Nonce)
  {
    n in used && used[n].Locked?
  }

  /** The thread has consumed its nonce. */
  predicate Paid(th: Thread)
  {
    (th.Tx? && th.ctx.Finished?) || th.Refunding? || th.Owing?
  }

  ghost predicate Exclusive(s: State)
  {
    && (forall i | 0 <= i < |s.threads| && Keeps(s.threads[i]) :: IsLocked(s.used, s.threads[i].credit.nonce))
    && (forall i, j | 0 <= i < j < |s.threads| && Keeps(s.threads[i]) && Keeps(s.threads[j]) ::
          s.threads[i].credit.nonce != s.threads[j].credit.nonce)
  }

  ghost predicate SpentOnce(s: State)
  {
    && (forall i | 0 <= i < |s.spent| :: IsConsumed(s.used, s.spent[i]))
    && (forall i, j | 0 <= i < j < |s.spent| :: s.spent[i] != s.spent[j])
    && (forall n | IsConsumed(s.used, n) :: n in s.spent)
  }

  ghost predicate PaidFirst(s: State)
  {
    && (forall i | 0 <= i < |s.threads| && Paid(s.threads[i]) :: IsConsumed(s.used, s.threads[i].credit.nonce))
    && (forall i | 0 <= i < |s.issued| && s.issued[i].paidWith.Some? ::
          IsConsumed(s.used, s.issued[i].paidWith.value.nonce))
  }

  ghost predicate Inv(s: State)
  {
    Exclusive(s) && SpentOnce(s) && PaidFirst(s) && Backed(s)
  }

  /** Whatever a thread works on verified when it began, and it asks for no other value. */
  ghost predicate Backed(s: State)
  {
    forall i | 0 <= i < |s.threads| && !s.threads[i].Ended? ::
      Verifies(s.issued, s.threads[i].credit) && SameValue(s.threads[i])
  }

  predicate SameValue(th: Thread)
  {
    th.Locking? || th.Signed? || th.Owing? ==> th.target.value == th.credit.value
  }

  /** Thread t goes on with the same credit or lets go of its lock, and touches no nonce but its own. */
  lemma ThreadMovesExclusive(s: State, s': State, t: nat)
    requires Exclusive(s) && t < |s.threads| == |s'.threads|
    requires forall i | 0 <= i < |s.threads| && i != t :: s'.threads[i] == s.threads[i]
    requires Keeps(s'.threads[t]) ==>
               Keeps(s.threads[t]) && s'.threads[t].credit == s.threads[t].credit && s'.used == s.used
    requires s'.used != s.used ==>
               && Keeps(s.threads[t])
               && forall n | n in s.used && n != s.threads[t].credit.nonce :: n in s'.used && s'.used[n] == s.used[n]
    ensures Exclusive(s')
  {
  }

  lemma ThreadJoinsExclusive(s: State, s': State, c: Credit)
    requires Exclusive(s) && c.nonce !in s.used && s'.used == s.used[c.nonce := Locked]
    requires |s'.threads| == |s.threads| + 1 && s'.threads[..|s.threads|] == s.threads
    requires Keeps(s'.threads[|s.threads|]) && s'.threads[|s.threads|].credit == c
    ensures Exclusive(s')
  {
    forall i | 0 <= i < |s.threads| ensures s'.threads[i] == s.threads[i] {
      assert s'.threads[..|s.threads|][i] == s'.threads[i];
    }
  }

  lemma StepExclusive(s: State, step: Step)
    requires Exclusive(s) && Enabled(s, step)
    ensures Exclusive(Apply(s, step))
  {
    var s' := Apply(s, step);
    match step
    case Mint(_) =>
    case Begin(c) => if s' != s { ThreadJoinsExclusive(s, s', c); }
    case BeginExchange(c, _, _) => if s' != s { ThreadJoinsExclusive(s, s', c); }
    case CancelCtx(t) => ThreadMovesExclusive(s, s', t);
    case CommitTx(t, _) => ThreadMovesExclusive(s, s', t);
    case FailCommit(t) => ThreadMovesExclusive(s, s', t);
    case IssueRefund(t, _) => ThreadMovesExclusive(s, s', t);
    case RollbackTx(t) => ThreadMovesExclusive(s, s', t);
    case Sign(t, _) => ThreadMovesExclusive(s, s', t);
    case ConsumeOld(t) => ThreadMovesExclusive(s, s', t);
    case FailConsume(t) => ThreadMovesExclusive(s, s', t);
    case ReturnSignature(t) => ThreadMovesExclusive(s, s', t);
  }

  lemma StepSpentOnce(s: State, step: Step)
    requires Exclusive(s) && SpentOnce(s) && Enabled(s, step)
    ensures SpentOnce(Apply(s, step))
  {
  }

  lemma StepPaidFirst(s: State, step: Step)
    requires Exclusive(s) && PaidFirst(s) && Enabled(s, step)
    ensures PaidFirst(Apply(s, step))
  {
  }

  lemma VerifiesLater(issued: seq<Issue>, more: seq<Issue>, c: Credit)
    requires Verifies(issued, c)
    ensures Verifies(issued + more, c)
  {
    var i :| 0 <= i < |issued| && issued[i].credit == c;
    assert (issued + more)[i].credit == c;
  }

  lemma StepBacked(s: State, step: Step)
    requires Backed(s) && Enabled(s, step)
    ensures Backed(Apply(s, step))
  {
    var s' := Apply(s, step);
    forall i | 0 <= i < |s'.threads| && !s'.threads[i].Ended?
      ensures Verifies(s'.issued, s'.threads[i].credit) && SameValue(s'.threads[i])
    {
      assert Verifies(s.issued, s'.threads[i].credit);
      assert s'.issued == s.issued + s'.issued[|s.issued|..];
      VerifiesLater(s.issued, s'.issued[|s.issued|..], s'.threads[i].credit);
    }
  }

  lemma {:induction false} RunInv(s: State, steps: seq<Step>)
    requires Inv(s) && Legal(s, steps)
    ensures Inv(After(s, steps))
    decreases |steps|
  {
    if steps != [] {
      StepExclusive(s, steps[0]);
      StepSpentOnce(s, steps[0]);
      StepPaidFirst(s, steps[0]);
      StepBacked(s, steps[0]);
      RunInv(Apply(s, steps[0]), steps[1..]);
    }
  }

  /** Once consumed, a nonce stays consumed. */
  lemma {:induction false} ConsumedForEver(s: State, steps: seq<Step>, n: Nonce)
    requires Inv(s) && Legal(s, steps) && IsConsumed(s.used, n)
    ensures IsConsumed(After(s, steps).used, n)
    decreases |steps|
  {
    if steps != [] {
      RunInv(s, steps[..1]);
      assert Apply(s, steps[0]) == After(s, steps[..1]);
      ConsumedForEver(Apply(s, steps[0]), steps[1..], n);
    }
  }

  /** Single spend: in every reachable state a nonce has at most one live lock handle, it is
      consumed exactly when one commit or exchange of it has succeeded, no two have, and
      every refund and signature handed out was paid for with a consumed nonce. */
  lemma SingleSpend(steps: seq<Step>)
    requires Legal(START, steps)
    ensures var s := After(START, steps);
            && (forall i, j | 0 <= i < j < |s.threads| && Holds(s.threads[i]) && Holds(s.threads[j]) ::
                  s.threads[i].credit.nonce != s.threads[j].credit.nonce)
            && (forall n: Nonce :: IsConsumed(s.used, n) <==> n in s.spent)
            && (forall i, j | 0 <= i < j < |s.spent| :: s.spent[i] != s.spent[j])
            && (forall i | 0 <= i < |s.issued| && s.issued[i].paidWith.Some? ::
                  IsConsumed(s.used, s.issued[i].paidWith.value.nonce))
  {
    RunInv(START, steps);
  }

  // ---------- Locked nonces ----------

  ghost predicate KeptBy(threads: seq<Thread>, n: Nonce)
  {
    exists i :: 0 <= i < |threads| && Keeps(threads[i]) && threads[i].credit.nonce == n
  }

  ghost predicate LocksKept(s: State)
  {
    forall n: Nonce | IsLocked(s.used, n) :: KeptBy(s.threads, n)
  }

  lemma StepLocksKept(s: State, step: Step)
    requires LocksKept(s) && Enabled(s, step)
    ensures LocksKept(Apply(s, step))
  {
    var s' := Apply(s, step);
    forall n: Nonce | IsLocked(s'.used, n) ensures KeptBy(s'.threads, n) {
      if IsLocked(s.used, n) {
        var i :| 0 <= i < |s.threads| && Keeps(s.threads[i]) && s.threads[i].credit.nonce == n;
        assert Keeps(s'.threads[i]) && s'.threads[i].credit.nonce == n;
      } else {
        assert Keeps(s'.threads[|s.threads|]) && s'.threads[|s.threads|].credit.nonce == n;
      }
    }
  }

  lemma {:induction false} RunLocksKept(s: State, steps: seq<Step>)
    requires LocksKept(s) && Legal(s, steps)
    ensures LocksKept(After(s, steps))
    decreases |steps|
  {
    if steps != [] {
      StepLocksKept(s, steps[0]);
      RunLocksKept(Apply(s, steps[0]), steps[1..]);
    }
  }

  /** In every run a nonce is locked exactly when a thread holds it or has abandoned it. */
  lemma LockedIffKept(steps: seq<Step>, n: Nonce)
    requires Legal(START, steps)
    ensures var s := After(START, steps); IsLocked(s.used, n) <==> KeptBy(s.threads, n)
  {
    RunInv(START, steps);
    RunLocksKept(START, steps);
  }

  /** The thread keeps its nonce locked and can neither consume nor release it: commits and
      rollbacks of a transaction return at its cancelled context. */
  predicate IsStuck(th: Thread)
  {
    th.Abandoned? || (th.Tx? && th.ctx.Cancelled?)
  }

  ghost predicate StuckWith(threads: seq<Thread>, n: Nonce)
  {
    exists i :: 0 <= i < |threads| && IsStuck(threads[i]) && threads[i].credit.nonce == n
  }

  lemma StepStaysStuck(s: State, step: Step, i: nat)
    requires Enabled(s, step) && i < |s.threads| && IsStuck(s.threads[i])
    ensures var s' := Apply(s, step);
            i < |s'.threads| && IsStuck(s'.threads[i]) && s'.threads[i].credit == s.threads[i].credit
  {
  }

  lemma {:induction false} StaysStuck(s: State, steps: seq<Step>, i: nat)
    requires Legal(s, steps) && i < |s.threads| && IsStuck(s.threads[i])
    ensures var s' := After(s, steps);
            i < |s'.threads| && IsStuck(s'.threads[i]) && s'.threads[i].credit == s.threads[i].credit
    decreases |steps|
  {
    if steps != [] {
      StepStaysStuck(s, steps[0], i);
      StaysStuck(Apply(s, steps[0]), steps[1..], i);
    }
  }

  /** Whatever keeps a nonce locked without being stuck can let go of it in one step. */
  lemma CanLetGo(s: State, i: nat) returns (step: Step)
    requires i < |s.threads| && Keeps(s.threads[i]) && !IsStuck(s.threads[i])
    requires IsLocked(s.used, s.threads[i].credit.nonce)
    ensures Enabled(s, step) && !IsLocked(Apply(s, step).used, s.threads[i].credit.nonce)
  {
    match s.threads[i]
    case Tx(_, _) => step := RollbackTx(i);
    case Locking(_, _) => step := Sign(i, false);
    case Signed(_, _) => step := ConsumeOld(i);
  }

  ghost predicate LockedForEver(s: State, n: Nonce)
  {
    forall steps | Legal(s, steps) :: IsLocked(After(s, steps).used, n)
  }

  /** A nonce that is locked stays locked in every continuation exactly if it is locked by a
      transaction whose context was cancelled, rolled back or not, or by an exchange that failed to
      consume. */
  lemma LockedForEverIff(s: State, n: Nonce)
    requires Inv(s) && LocksKept(s) && IsLocked(s.used, n)
    ensures LockedForEver(s, n) <==> StuckWith(s.threads, n)
  {
    if StuckWith(s.threads, n) {
      var i :| 0 <= i < |s.threads| && IsStuck(s.threads[i]) && s.threads[i].credit.nonce == n;
      forall steps | Legal(s, steps) ensures IsLocked(After(s, steps).used, n) {
        StaysStuck(s, steps, i);
        RunInv(s, steps);
      }
    } else {
      var i :| 0 <= i < |s.threads| && Keeps(s.threads[i]) && s.threads[i].credit.nonce == n;
      var step := CanLetGo(s, i);
      var steps := [step];
      assert steps[1..] == [] && Legal(Apply(s, step), []);
      assert Legal(s, steps) && After(s, steps) == Apply(s, step);
    }
  }

  /** In every state of every run. */
  lemma ReachableLockedForEverIff(steps: seq<Step>, n: Nonce)
    requires Legal(START, steps) && IsLocked(After(START, steps).used, n)
    ensures LockedForEver(After(START, steps), n) <==> StuckWith(After(START, steps).threads, n)
  {
    RunInv(START, steps);
    RunLocksKept(START, steps);
    LockedForEverIff(After(START, steps), n);
  }

  /** A nonce locked for ever is never spent, and the credit under it is lost. */
  lemma LockedForEverIsUnspent(s: State, steps: seq<Step>, n: Nonce)
    requires Inv(s) && Legal(s, steps) && LockedForEver(s, n)
    ensures n !in After(s, steps).spent
  {
    RunInv(s, steps);
  }

  lemma MintAndBegin(c: Credit)
    ensures var s1 := Apply(START, Mint(c));
            Apply(s1, Begin(c)) == State(map[c.nonce := Locked], [Issue(c, None)], [Tx(c, Live)], [], c.value)
  {
    var s1 := Apply(START, Mint(c));
    assert s1.issued == [Issue(c, None)];
    assert s1.issued[0].credit == c;
  }

  lemma Then(s: State, step: Step, rest: seq<Step>)
    requires Enabled(s, step) && Legal(Apply(s, step), rest)
    ensures Legal(s, [step] + rest) && After(s, [step] + rest) == After(Apply(s, step), rest)
  {
    assert ([step] + rest)[1..] == rest;
  }

  /** For example a credit whose transaction is cancelled from outside and then rolled back. */
  lemma CancelledThenRolledBack(c: Credit)
    ensures var steps := [Mint(c), Begin(c), CancelCtx(0), RollbackTx(0)];
            && Legal(START, steps) && After(START, steps).threads == [Abandoned(c)]
            && LockedForEver(After(START, steps), c.nonce)
  {
    MintAndBegin(c);
    var s1 := Apply(START, Mint(c));
    var s2 := Apply(s1, Begin(c));
    var s3 := Apply(s2, CancelCtx(0));
    var s4 := Apply(s3, RollbackTx(0));
    assert Legal(s4, []);
    Then(s3, RollbackTx(0), []);
    Then(s2, CancelCtx(0), [RollbackTx(0)]);
    Then(s1, Begin(c), [CancelCtx(0), RollbackTx(0)]);
    Then(START, Mint(c), [Begin(c), CancelCtx(0), RollbackTx(0)]);
    var steps := [Mint(c), Begin(c), CancelCtx(0), RollbackTx(0)];
    assert steps == [Mint(c)] + [Begin(c), CancelCtx(0), RollbackTx(0)];
    assert s4.threads == [Abandoned(c)];
    assert IsStuck(s4.threads[0]);
    ReachableLockedForEverIff(steps, c.nonce);
  }

  // ---------- Conservation ----------

  /** Value of the credits that have not been spent; an abandoned one never will be. */
  function Spendable(issued: seq<Issue>, used: Nonces): (n: nat)
  {
    if issued == [] then 0
    else
      var c := issued[|issued| - 1].credit;
      Spendable(issued[..|issued| - 1], used) + if IsConsumed(used, c.nonce) then 0 else c.value
  }

  /** Value issued under one nonce. */
  function IssuedUnder(issued: seq<Issue>, n: Nonce): (v: nat)
  {
    if issued == [] then 0
    else
      var c := issued[|issued| - 1].credit;
      IssuedUnder(issued[..|issued| - 1], n) + if c.nonce == n then c.value else 0
  }

  function Owed(threads: seq<Thread>): (n: nat)
  {
    if threads == [] then 0
    else
      var th := threads[|threads| - 1];
      Owed(threads[..|threads| - 1]) + OwedBy(th)
  }

  function OwedBy(th: Thread): (n: nat)
  {
    match th
    case Refunding(_, amount) => amount
    case Owing(_, target) => target.value
    case _ => 0
  }

  /** What is in circulation: spendable credits and value consumed but not yet handed back. */
  function Circulating(s: State): (n: nat)
  {
    Spendable(s.issued, s.used) + Owed(s.threads)
  }

  lemma {:induction false} OwedUpdate(threads: seq<Thread>, t: nat, th: Thread)
    requires t < |threads|
    ensures Owed(threads[t := th]) == Owed(threads) - OwedBy(threads[t]) + OwedBy(th)
  {
    var m := |threads| - 1;
    if t < m {
      OwedUpdate(threads[..m], t, th);
      assert threads[t := th][..m] == threads[..m][t := th];
    } else {
      assert threads[t := th][..m] == threads[..m];
    }
  }

  /** Only consuming changes what is spendable, and by exactly what was issued under the nonce. */
  lemma {:induction false} SpendableAfter(issued: seq<Issue>, used: Nonces, used': Nonces, n: Nonce)
    requires !IsConsumed(used, n)
    requires forall k: Nonce | k != n :: IsConsumed(used', k) == IsConsumed(used, k)
    ensures Spendable(issued, used) ==
            Spendable(issued, used') + if IsConsumed(used', n) then IssuedUnder(issued, n) else 0
  {
    if issued != [] { SpendableAfter(issued[..|issued| - 1], used, used', n); }
  }

  lemma {:induction false} IssuedUnderAtLeast(issued: seq<Issue>, c: Credit)
    requires Verifies(issued, c)
    ensures IssuedUnder(issued, c.nonce) >= c.value
  {
    var init, last := issued[..|issued| - 1], issued[|issued| - 1].credit;
    if last != c {
      var i :| 0 <= i < |issued| && issued[i].credit == c;
      assert init[i].credit == c;
      IssuedUnderAtLeast(init, c);
    }
  }

  lemma SpendableIssue(issued: seq<Issue>, used: Nonces, i: Issue)
    ensures Spendable(issued + [i], used) ==
            Spendable(issued, used) + if IsConsumed(used, i.credit.nonce) then 0 else i.credit.value
  {
    assert (issued + [i])[..|issued|] == issued;
  }

  /** Consuming a credit takes at least its value out of circulation. */
  lemma ConsumeShrinks(s: State, c: Credit)
    requires Verifies(s.issued, c) && !IsConsumed(s.used, c.nonce)
    ensures Spendable(s.issued, s.used) ==
            Spendable(s.issued, Consume(s.used, c.nonce)) + IssuedUnder(s.issued, c.nonce)
    ensures IssuedUnder(s.issued, c.nonce) >= c.value
  {
    SpendableAfter(s.issued, s.used, Consume(s.used, c.nonce), c.nonce);
    IssuedUnderAtLeast(s.issued, c);
  }

  lemma LockingKeeps(s: State, used': Nonces, n: Nonce)
    requires !IsConsumed(s.used, n) && !IsConsumed(used', n)
    requires forall k: Nonce | k != n :: IsConsumed(used', k) == IsConsumed(s.used, k)
    ensures Spendable(s.issued, used') == Spendable(s.issued, s.used)
  {
    SpendableAfter(s.issued, s.used, used', n);
  }

  lemma BeginConserves(s: State, s': State, c: Credit)
    requires c.nonce !in s.used && s'.used == s.used[c.nonce := Locked] && s'.issued == s.issued
    requires |s'.threads| == |s.threads| + 1 && s'.threads[..|s.threads|] == s.threads
    requires OwedBy(s'.threads[|s.threads|]) == 0
    ensures Circulating(s') == Circulating(s)
  {
    LockingKeeps(s, s'.used, c.nonce);
  }

  lemma ConsumeOldMoves(s: State, t: nat)
    requires Inv(s) && Enabled(s, ConsumeOld(t))
    ensures var c := s.threads[t].credit;
            Circulating(Apply(s, ConsumeOld(t))) == Circulating(s) + c.value - IssuedUnder(s.issued, c.nonce)
  {
    ConsumeShrinks(s, s.threads[t].credit);
    OwedUpdate(s.threads, t, Apply(s, ConsumeOld(t)).threads[t]);
  }

  lemma ReturnSettles(s: State, t: nat)
    requires Enabled(s, ReturnSignature(t))
    ensures var th := s.threads[t];
            Circulating(Apply(s, ReturnSignature(t))) ==
            Circulating(s) - if IsConsumed(s.used, th.target.nonce) then th.target.value else 0
  {
    OwedUpdate(s.threads, t, Ended);
    SpendableIssue(s.issued, s.used, Apply(s, ReturnSignature(t)).issued[|s.issued|]);
  }

  /** An exchange moves value without making or losing any: its consume step replaces what
      was issued under the old nonce by a debt of the credit's value, exactly, and handing
      over the signature settles that debt exactly when the new nonce is still unspent. */
  lemma ExchangePreserves(s: State, t: nat)
    requires Inv(s) && t < |s.threads|
    ensures s.threads[t].Signed? ==>
              var c := s.threads[t].credit;
              Circulating(Apply(s, ConsumeOld(t))) == Circulating(s) + c.value - IssuedUnder(s.issued, c.nonce)
    ensures s.threads[t].Owing? ==>
              var th := s.threads[t];
              (Circulating(Apply(s, ReturnSignature(t))) == Circulating(s)
              <==> !IsConsumed(s.used, th.target.nonce) || th.credit.value == 0)
  {
    if s.threads[t].Signed? { ConsumeOldMoves(s, t); }
    if s.threads[t].Owing? { ReturnSettles(s, t); }
  }

  function Refunded(refund: Option<nat>): (n: nat)
  {
    if refund.Some? then refund.value else 0
  }

  /** A commit replaces what was issued under its nonce by the refund it owes, exactly. Nobody
      compares the two: value is made exactly when the refund is the larger. */
  lemma CommitConservesIff(s: State, t: nat, refund: Option<nat>)
    requires Inv(s) && Enabled(s, CommitTx(t, refund)) && s.threads[t].ctx.Live?
    ensures var s', under := Apply(s, CommitTx(t, refund)), IssuedUnder(s.issued, s.threads[t].credit.nonce);
            && Circulating(s') == Circulating(s) - under + Refunded(refund)
            && (Circulating(s') <= Circulating(s) <==> Refunded(refund) <= under)
            && under >= s.threads[t].credit.value
  {
    ConsumeShrinks(s, s.threads[t].credit);
    OwedUpdate(s.threads, t, Apply(s, CommitTx(t, refund)).threads[t]);
  }

  /** A refund settles its debt exactly, unless it fails or its nonce is already spent: then the
      amount is lost. */
  lemma IssueRefundSettles(s: State, t: nat, nonce: Option<Nonce>)
    requires Enabled(s, IssueRefund(t, nonce))
    ensures Circulating(Apply(s, IssueRefund(t, nonce))) ==
            Circulating(s) - if nonce.None? || IsConsumed(s.used, nonce.value) then s.threads[t].amount else 0
  {
    var s' := Apply(s, IssueRefund(t, nonce));
    OwedUpdate(s.threads, t, s'.threads[t]);
    if nonce.Some? { SpendableIssue(s.issued, s.used, s'.issued[|s.issued|]); }
  }

  lemma LetGoConserves(s: State, t: nat, used': Nonces)
    requires Inv(s) && t < |s.threads| && Keeps(s.threads[t])
    requires used' == s.used || used' == s.used - {s.threads[t].credit.nonce}
    ensures Spendable(s.issued, used') == Spendable(s.issued, s.used)
  {
    if used' != s.used { LockingKeeps(s, used', s.threads[t].credit.nonce); }
  }

  lemma RollbackConserves(s: State, t: nat)
    requires Inv(s) && Enabled(s, RollbackTx(t))
    ensures Circulating(Apply(s, RollbackTx(t))) == Circulating(s)
  {
    OwedUpdate(s.threads, t, Apply(s, RollbackTx(t)).threads[t]);
    if Holds(s.threads[t]) { LetGoConserves(s, t, Apply(s, RollbackTx(t)).used); }
  }

  lemma FailCommitConserves(s: State, t: nat)
    requires Inv(s) && Enabled(s, FailCommit(t))
    ensures Circulating(Apply(s, FailCommit(t))) == Circulating(s)
  {
    OwedUpdate(s.threads, t, Ended);
    if Holds(s.threads[t]) { LetGoConserves(s, t, Apply(s, FailCommit(t)).used); }
  }

  lemma SignConserves(s: State, t: nat, ok: bool)
    requires Inv(s) && Enabled(s, Sign(t, ok))
    ensures Circulating(Apply(s, Sign(t, ok))) == Circulating(s)
  {
    OwedUpdate(s.threads, t, Apply(s, Sign(t, ok)).threads[t]);
    LetGoConserves(s, t, Apply(s, Sign(t, ok)).used);
  }

  /** By how much a step refunds more than the credit it consumes is worth. */
  function Excess(s: State, step: Step): (n: nat)
    requires Enabled(s, step)
  {
    match step
    case CommitTx(t, Some(v)) =>
      if s.threads[t].ctx.Live? && v > s.threads[t].credit.value then v - s.threads[t].credit.value else 0
    case _ => 0
  }

  function TotalExcess(s: State, steps: seq<Step>): (n: nat)
    requires Legal(s, steps)
    decreases |steps|
  {
    if steps == [] then 0 else Excess(s, steps[0]) + TotalExcess(Apply(s, steps[0]), steps[1..])
  }

  lemma StepConserves(s: State, step: Step)
    requires Inv(s) && Enabled(s, step)
    ensures var s' := Apply(s, step);
            Circulating(s') - s'.minted <= Circulating(s) - s.minted + Excess(s, step)
  {
    match step
    case Mint(c) => SpendableIssue(s.issued, s.used, Issue(c, None));
    case Begin(c) => if Apply(s, step) != s { BeginConserves(s, Apply(s, step), c); }
    case BeginExchange(c, _, _) => if Apply(s, step) != s { BeginConserves(s, Apply(s, step), c); }
    case CancelCtx(t) => OwedUpdate(s.threads, t, s.threads[t].(ctx := Cancelled));
    case CommitTx(t, refund) => if s.threads[t].ctx.Live? { CommitConservesIff(s, t, refund); }
    case FailCommit(t) => FailCommitConserves(s, t);
    case IssueRefund(t, nonce) => IssueRefundSettles(s, t, nonce);
    case RollbackTx(t) => RollbackConserves(s, t);
    case Sign(t, ok) => SignConserves(s, t, ok);
    case ConsumeOld(t) =>
      ConsumeOldMoves(s, t);
      IssuedUnderAtLeast(s.issued, s.threads[t].credit);
    case FailConsume(t) => OwedUpdate(s.threads, t, Abandoned(s.threads[t].credit));
    case ReturnSignature(t) => ReturnSettles(s, t);
  }

  /** Conservation: over any run the value in circulation grows at most by what is minted and by
      what refunds exceed the credits they refund. */
  lemma {:induction false} Conservation(s: State, steps: seq<Step>)
    requires Inv(s) && Legal(s, steps)
    ensures var s' := After(s, steps);
            Circulating(s') - s'.minted <= Circulating(s) - s.minted + TotalExcess(s, steps)
    decreases |steps|
  {
    if steps != [] {
      StepConserves(s, steps[0]);
      RunInv(s, steps[..1]);
      assert Apply(s, steps[0]) == After(s, steps[..1]);
      Conservation(Apply(s, steps[0]), steps[1..]);
    }
  }

  /** From an empty ledger, if no refund exceeds its credit: what circulates was minted. */
  lemma OnlyMintingMakesValue(steps: seq<Step>)
    requires Legal(START, steps) && TotalExcess(START, steps) == 0
    ensures Circulating(After(START, steps)) <= After(START, steps).minted
  {
    Conservation(START, steps);
  }

  lemma OnlyTheRefund(s: State, c: Credit, v: nat)
    requires s.issued == [Issue(c, None)] && IsConsumed(s.used, c.nonce) && s.threads == [Refunding(c, v)]
    ensures Circulating(s) == v
  {
    assert s.issued[..|s.issued| - 1] == [] && s.threads[..|s.threads| - 1] == [];
    assert Spendable(s.issued, s.used) == Spendable([], s.used) && Owed(s.threads) == Owed([]) + v;
  }

  /** A refund that exceeds its credit makes value: one credit minted and committed, more owed. */
  lemma ExcessMakesValue(c: Credit, v: nat)
    requires v > c.value
    ensures var steps := [Mint(c), Begin(c), CommitTx(0, Some(v))];
            Legal(START, steps) && Circulating(After(START, steps)) == v > After(START, steps).minted
  {
    MintAndBegin(c);
    var s1 := Apply(START, Mint(c));
    var s2 := Apply(s1, Begin(c));
    var s3 := Apply(s2, CommitTx(0, Some(v)));
    assert Legal(s3, []);
    Then(s2, CommitTx(0, Some(v)), []);
    Then(s1, Begin(c), [CommitTx(0, Some(v))]);
    Then(START, Mint(c), [Begin(c), CommitTx(0, Some(v))]);
    assert [Mint(c), Begin(c), CommitTx(0, Some(v))] == [Mint(c)] + [Begin(c), CommitTx(0, Some(v))];
    OnlyTheRefund(s3, c, v);
  }
}
