/** Transactions driven the other way round: a rollback leaves the context live
    (anonpay/processor.go:142-156), so a commit after it still goes through. */
module LateCommits {
  import opened Bytes
  import opened Payments
  import opened PaymentRuns

  /** A step the router and the bank take, or a commit of a transaction already rolled back. */
  datatype AnyStep = Driven(step: Step) | LateCommit(t: nat, refund: Option<nat>)

  predicate AnyEnabled(s: State, any: AnyStep)
  {
    match any
    case Driven(step) => Enabled(s, step)
    case LateCommit(t, _) => t < |s.threads| && s.threads[t].RolledBack?
  }

  function AnyApply(s: State, any: AnyStep): (s': State)
    requires AnyEnabled(s, any)
  {
    match any
    case Driven(step) => Apply(s, step)
    case LateCommit(t, refund) =>
      var c := s.threads[t].credit;
      var (used, ctx, _) := Commit(s.used, Live, c.nonce, true);
      s.(used := used, spent := s.spent + [c.nonce],
         threads := s.threads[t := if refund.Some? then Refunding(c, refund.value) else Tx(c, ctx)])
  }

  predicate AnyLegal(s: State, steps: seq<AnyStep>)
    decreases |steps|
  {
    steps == [] || (AnyEnabled(s, steps[0]) && AnyLegal(AnyApply(s, steps[0]), steps[1..]))
  }

  function AnyAfter(s: State, steps: seq<AnyStep>): (s': State)
    requires AnyLegal(s, steps)
    decreases |steps|
  {
    if steps == [] then s else AnyAfter(AnyApply(s, steps[0]), steps[1..])
  }

  /** How often n was spent. */
  function TimesSpent(s: State, n: Nonce): (c: nat)
  {
    multiset(s.spent)[n]
  }

  /** The thread can still spend its nonce, on its own. */
  predicate CanSpend(th: Thread)
  {
    (th.Tx? && th.ctx.Live?) || th.Locking? || th.Signed? || th.RolledBack?
  }

  /** Some thread other than t can still spend n. */
  ghost predicate OtherCanSpend(s: State, t: nat, n: Nonce)
  {
    exists i :: 0 <= i < |s.threads| && i != t && CanSpend(s.threads[i]) && s.threads[i].credit.nonce == n
  }

  /** Some run from s on ends with n spent more than once. */
  ghost predicate CanSpendTwice(s: State, n: Nonce)
  {
    exists steps :: AnyLegal(s, steps) && TimesSpent(AnyAfter(s, steps), n) >= 2
  }

  // ---------- A nonce nobody can spend is not spent ----------

  ghost predicate NoneCanSpend(threads: seq<Thread>, n: Nonce)
  {
    forall i | 0 <= i < |threads| && CanSpend(threads[i]) :: threads[i].credit.nonce != n
  }

  /** n is consumed, has been spent c times, and no thread is left that can spend it. */
  ghost predicate SpentOut(s: State, n: Nonce, c: nat)
  {
    IsConsumed(s.used, n) && TimesSpent(s, n) == c && NoneCanSpend(s.threads, n)
  }

  lemma SpendMore(spent: seq<Nonce>, m: Nonce, n: Nonce)
    ensures multiset(spent + [m])[n] == multiset(spent)[n] + if m == n then 1 else 0
  {
  }

  lemma StaysConsumed(s: State, step: Step, n: Nonce)
    requires IsConsumed(s.used, n) && Enabled(s, step)
    ensures IsConsumed(Apply(s, step).used, n)
  {
  }

  lemma StillNoneCanSpend(s: State, step: Step, n: Nonce)
    requires IsConsumed(s.used, n) && NoneCanSpend(s.threads, n) && Enabled(s, step)
    ensures NoneCanSpend(Apply(s, step).threads, n)
  {
    var s' := Apply(s, step);
    forall i | 0 <= i < |s'.threads| && CanSpend(s'.threads[i]) ensures s'.threads[i].credit.nonce != n {
      if i < |s.threads| { assert CanSpend(s.threads[i]) && s'.threads[i].credit == s.threads[i].credit; }
    }
  }

  lemma NotSpentAgain(s: State, step: Step, n: Nonce)
    requires NoneCanSpend(s.threads, n) && Enabled(s, step)
    ensures TimesSpent(Apply(s, step), n) == TimesSpent(s, n)
  {
    match step
    case CommitTx(t, _) => SpendMore(s.spent, s.threads[t].credit.nonce, n);
    case ConsumeOld(t) => SpendMore(s.spent, s.threads[t].credit.nonce, n);
    case _ =>
  }

  lemma {:induction false} StaysSpentOut(s: State, steps: seq<AnyStep>, n: Nonce, c: nat)
    requires SpentOut(s, n, c) && AnyLegal(s, steps)
    ensures SpentOut(AnyAfter(s, steps), n, c)
    decreases |steps|
  {
    if steps != [] {
      match steps[0] {
        case Driven(step) =>
          StaysConsumed(s, step, n);
          StillNoneCanSpend(s, step, n);
          NotSpentAgain(s, step, n);
        case LateCommit(t, _) => SpendMore(s.spent, s.threads[t].credit.nonce, n);
      }
      StaysSpentOut(AnyApply(s, steps[0]), steps[1..], n, c);
    }
  }

  // ---------- A nonce somebody can spend can be spent ----------

  lemma Before(s: State, any: AnyStep, n: Nonce)
    requires AnyEnabled(s, any) && CanSpendTwice(AnyApply(s, any), n)
    ensures CanSpendTwice(s, n)
  {
    var rest :| AnyLegal(AnyApply(s, any), rest) && TimesSpent(AnyAfter(AnyApply(s, any), rest), n) >= 2;
    var steps := [any] + rest;
    assert steps[1..] == rest;
    assert AnyLegal(s, steps) && AnyAfter(s, steps) == AnyAfter(AnyApply(s, any), rest);
  }

  lemma Twice(s: State, n: Nonce)
    requires TimesSpent(s, n) >= 2
    ensures CanSpendTwice(s, n)
  {
    assert AnyLegal(s, []) && AnyAfter(s, []) == s;
  }

  lemma SpendOnceMore(s: State, i: nat, n: Nonce)
    requires i < |s.threads| && CanSpend(s.threads[i]) && s.threads[i].credit.nonce == n && TimesSpent(s, n) >= 1
    ensures CanSpendTwice(s, n)
  {
    SpendMore(s.spent, n, n);
    match s.threads[i]
    case Tx(_, _) =>
      Twice(AnyApply(s, Driven(CommitTx(i, None))), n);
      Before(s, Driven(CommitTx(i, None)), n);
    case RolledBack(_) =>
      Twice(AnyApply(s, LateCommit(i, None)), n);
      Before(s, LateCommit(i, None), n);
    case Signed(_, _) =>
      Twice(AnyApply(s, Driven(ConsumeOld(i))), n);
      Before(s, Driven(ConsumeOld(i)), n);
    case Locking(_, _) =>
      var s1 := AnyApply(s, Driven(Sign(i, true)));
      Twice(AnyApply(s1, Driven(ConsumeOld(i))), n);
      Before(s1, Driven(ConsumeOld(i)), n);
      Before(s, Driven(Sign(i, true)), n);
  }

  // ---------- When a late commit spends twice ----------

  lemma {:induction false} SpentOnceCounts(spent: seq<Nonce>, n: Nonce)
    requires forall i, j | 0 <= i < j < |spent| :: spent[i] != spent[j]
    ensures multiset(spent)[n] == if n in spent then 1 else 0
  {
    if spent != [] {
      var init, last := spent[..|spent| - 1], spent[|spent| - 1];
      SpentOnceCounts(init, n);
      assert spent == init + [last];
    }
  }

  /** In a state the router and the bank have got to, a late commit of n leads to n being spent
      twice, now or later, exactly if n is consumed already or another thread can still spend it:
      a live transaction, an exchange that has not consumed, or another rolled-back transaction.
      Otherwise the late commit is the first and only spend of n. */
  lemma LateCommitSpendsTwiceIff(s: State, t: nat, refund: Option<nat>)
    requires Inv(s) && AnyEnabled(s, LateCommit(t, refund))
    ensures var n, s' := s.threads[t].credit.nonce, AnyApply(s, LateCommit(t, refund));
            && (CanSpendTwice(s', n) <==> IsConsumed(s.used, n) || OtherCanSpend(s, t, n))
            && (!IsConsumed(s.used, n) && !OtherCanSpend(s, t, n) ==>
                  forall steps | AnyLegal(s', steps) :: TimesSpent(AnyAfter(s', steps), n) == 1)
  {
    var n, s' := s.threads[t].credit.nonce, AnyApply(s, LateCommit(t, refund));
    SpentOnceCounts(s.spent, n);
    SpendMore(s.spent, n, n);
    if IsConsumed(s.used, n) {
      Twice(s', n);
    } else if OtherCanSpend(s, t, n) {
      var i :| 0 <= i < |s.threads| && i != t && CanSpend(s.threads[i]) && s.threads[i].credit.nonce == n;
      assert s'.threads[i] == s.threads[i];
      SpendOnceMore(s', i, n);
    } else {
      assert SpentOut(s', n, 1);
      forall steps | AnyLegal(s', steps) ensures TimesSpent(AnyAfter(s', steps), n) == 1 {
        StaysSpentOut(s', steps, n, 1);
      }
    }
  }

  lemma LockedAgain(c: Credit)
    ensures var steps := [Mint(c), Begin(c), RollbackTx(0), Begin(c)];
            && Legal(START, steps)
            && After(START, steps) ==
               State(map[c.nonce := Locked], [Issue(c, None)], [RolledBack(c), Tx(c, Live)], [], c.value)
  {
    MintAndBegin(c);
    var s1 := Apply(START, Mint(c));
    var s2 := Apply(s1, Begin(c));
    var s3 := State(map[], [Issue(c, None)], [RolledBack(c)], [], c.value);
    assert Apply(s2, RollbackTx(0)) == s3;
    assert Verifies(s3.issued, c) by { assert s3.issued[0].credit == c; }
    Then(s3, Begin(c), []);
    Then(s2, RollbackTx(0), [Begin(c)]);
    Then(s1, Begin(c), [RollbackTx(0), Begin(c)]);
    Then(START, Mint(c), [Begin(c), RollbackTx(0), Begin(c)]);
    assert [Mint(c), Begin(c), RollbackTx(0), Begin(c)] == [Mint(c)] + [Begin(c), RollbackTx(0), Begin(c)];
  }

  /** For example a nonce locked again after the rollback: both commits of it succeed. */
  lemma LateCommitRun(c: Credit)
    ensures var steps := [Mint(c), Begin(c), RollbackTx(0), Begin(c)];
            && Legal(START, steps) && AnyEnabled(After(START, steps), LateCommit(0, None))
            && CanSpendTwice(AnyApply(After(START, steps), LateCommit(0, None)), c.nonce)
  {
    LockedAgain(c);
    var steps := [Mint(c), Begin(c), RollbackTx(0), Begin(c)];
    var s := After(START, steps);
    RunInv(START, steps);
    assert CanSpend(s.threads[1]) && s.threads[1].credit.nonce == c.nonce;
    LateCommitSpendsTwiceIff(s, 0, None);
  }

  /** Without late commits it cannot happen, whatever threads there are. */
  lemma NoLateCommitNoDoubleSpend(steps: seq<Step>, n: Nonce)
    requires Legal(START, steps)
    ensures TimesSpent(After(START, steps), n) <= 1
  {
    RunInv(START, steps);
    SpentOnceCounts(After(START, steps).spent, n);
  }
}
