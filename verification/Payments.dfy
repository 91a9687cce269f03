/** The in-memory nonce locker (inttest/noop_nonce_locker.go), transactions
    (anonpay/processor.go) and exchanges (anonpay/exchanger.go), call by call.

    Signatures are ideal: VerifyCredit accepts exactly the credits the issuer has signed. */
module Payments {
  import opened Bytes

  type Nonce = nat

  /** A value stands for the amount it encodes. */
  datatype Credit = Credit(nonce: Nonce, value: nat)

  // ---------- The nonce locker ----------

  datatype LockState = Locked | Consumed

  type Nonces = map<Nonce, LockState>

  function Lock(used: Nonces, n: Nonce): (r: (Nonces, bool))
  {
    if n in used then (used, false) else (used[n := Locked], true)
  }

  function Consume(used: Nonces, n: Nonce): (r: Nonces)
  {
    used[n := Consumed]
  }

  function Release(used: Nonces, n: Nonce): (r: (Nonces, bool))
  {
    if n !in used then (used, false)
    else if used[n].Consumed? then (used, true)
    else (used - {n}, true)
  }

  predicate IsConsumed(used: Nonces, n: Nonce)
  {
    n in used && used[n].Consumed?
  }

  class NonceLocker {
    var usedNonces: Nonces

    constructor ()
      ensures usedNonces == map[]
    {
      usedNonces := map[];
    }

    method CheckAndLockNonce(n: Nonce) returns (ok: bool)
      modifies this
      ensures (usedNonces, ok) == Lock(old(usedNonces), n)
    {
      if n in usedNonces { return false; }
      usedNonces := usedNonces[n := Locked];
      return true;
    }

    method ConsumeNonce(n: Nonce)
      modifies this
      ensures usedNonces == Consume(old(usedNonces), n)
    {
      usedNonces := usedNonces[n := Consumed];
    }

    method ReleaseNonce(n: Nonce) returns (ok: bool)
      modifies this
      ensures (usedNonces, ok) == Release(old(usedNonces), n)
    {
      if n !in usedNonces { return false; }
      if usedNonces[n].Consumed? { return true; }
      usedNonces := usedNonces - {n};
      return true;
    }
  }

  // ---------- Transactions ----------

  /** The transaction's context: live, cancelled from outside, or cancelled with ErrFinished. */
  datatype Ctx = Live | Cancelled | Finished

  /** consumes is whether consuming the locked nonce works. */
  function Commit(used: Nonces, ctx: Ctx, n: Nonce, consumes: bool): (r: (Nonces, Ctx, bool))
  {
    if !ctx.Live? then (used, ctx, false)
    else if !consumes then (Release(used, n).0, Cancelled, false)
    else (Consume(used, n), Finished, true)
  }

  function Rollback(used: Nonces, ctx: Ctx, n: Nonce): (r: (Nonces, bool))
  {
    if ctx.Finished? then (used, true)
    else if ctx.Cancelled? then (used, false)
    else Release(used, n)
  }

  class Transaction {
    const locker: NonceLocker
    const credit: Credit
    var ctx: Ctx

    constructor (locker: NonceLocker, credit: Credit)
      ensures this.locker == locker && this.credit == credit && ctx == Live
    {
      this.locker, this.credit, ctx := locker, credit, Live;
    }

    method CommitAll(consumes: bool) returns (ok: bool)
      modifies this, locker
      ensures (locker.usedNonces, ctx, ok) == Commit(old(locker.usedNonces), old(ctx), credit.nonce, consumes)
    {
      if ctx != Live { return false; }
      if !consumes {
        var _ := locker.ReleaseNonce(credit.nonce);
        ctx := Cancelled;
        return false;
      }
      locker.ConsumeNonce(credit.nonce);
      ctx := Finished;
      return true;
    }

    /** issue is what IssueUnblindedCredit makes of the unspent amount: the nonce of a fresh
        credit, or a failure. A refund only ever comes out of a commit that succeeded. */
    method CommitWithUnspend(unspend: nat, issue: Option<Nonce>, consumes: bool) returns (refund: Option<Credit>)
      modifies this, locker
      ensures (locker.usedNonces, ctx) ==
              var r := Commit(old(locker.usedNonces), old(ctx), credit.nonce, consumes); (r.0, r.1)
      ensures refund == if old(ctx).Live? && consumes && issue.Some? then Some(Credit(issue.value, unspend)) else None
      ensures refund.Some? ==> IsConsumed(locker.usedNonces, credit.nonce)
    {
      var ok := CommitAll(consumes);
      if !ok || issue.None? { return None; }
      return Some(Credit(issue.value, unspend));
    }

    method RollbackAll() returns (ok: bool)
      modifies locker
      ensures (locker.usedNonces, ok) == Rollback(old(locker.usedNonces), ctx, credit.nonce)
    {
      if ctx != Live { return ctx == Finished; }
      ok := locker.ReleaseNonce(credit.nonce);
    }
  }

  method BeginTransaction(locker: NonceLocker, signed: set<Credit>, credit: Credit)
    returns (tx: Transaction?)
    modifies locker
    ensures tx != null <==> credit in signed && Lock(old(locker.usedNonces), credit.nonce).1
    ensures tx != null ==>
              && fresh(tx) && tx.locker == locker && tx.credit == credit && tx.ctx == Live
              && locker.usedNonces == old(locker.usedNonces)[credit.nonce := Locked]
    ensures tx == null ==> locker.usedNonces == old(locker.usedNonces)
  {
    if credit !in signed { return null; }
    var ok := locker.CheckAndLockNonce(credit.nonce);
    if !ok { return null; }
    tx := new Transaction(locker, credit);
  }

  /** A deferred rollback is harmless after a commit: nothing changes and no error is reported. Of a
      transaction that is open it undoes the lock. Under a context cancelled from outside, or by a
      commit that failed, it does nothing and reports an error. */
  lemma RollbackReports(used: Nonces, n: Nonce)
    ensures var (used', ctx, ok) := Commit(used, Live, n, true); ok && Rollback(used', ctx, n) == (used', true)
    ensures var (used', ok) := Lock(used, n); ok ==> Rollback(used', Live, n) == (used, true)
    ensures var (used', ctx, ok) := Commit(used, Live, n, false); !ok && Rollback(used', ctx, n) == (used', false)
    ensures Rollback(used, Cancelled, n) == (used, false)
    ensures Commit(used, Cancelled, n, true) == (used, Cancelled, false)
  {
    assert n !in used ==> used[n := Locked] - {n} == used;
  }

  // ---------- Exchanges ----------

  /** Exchange with nothing interleaved: a signature over (newNonce, value) comes back exactly
      when the values match, the credit is signed, its nonce was free, and signing and consuming
      work. Then the nonce is consumed; it stays locked if only consuming failed, and in every
      other case the locker is as it was. */
  method Exchange(locker: NonceLocker, signed: set<Credit>, credit: Credit, value: nat, newNonce: Nonce,
                  signs: bool, consumes: bool)
    returns (signature: Option<Credit>)
    modifies locker
    ensures var signable :=
              value == credit.value && credit in signed && credit.nonce !in old(locker.usedNonces) && signs;
            && (signature.Some? <==> signable && consumes)
            && (signature.Some? ==> signature.value == Credit(newNonce, credit.value))
            && locker.usedNonces ==
               if signable then old(locker.usedNonces)[credit.nonce := if consumes then Consumed else Locked]
               else old(locker.usedNonces)
  {
    if credit.value != value { return None; }
    if credit !in signed { return None; }
    var ok := locker.CheckAndLockNonce(credit.nonce);
    if !ok { return None; }
    if !signs {
      var _ := locker.ReleaseNonce(credit.nonce);
      return None;
    }
    if !consumes { return None; }
    locker.ConsumeNonce(credit.nonce);
    return Some(Credit(newNonce, value));
  }

  /** Why commits must come before the rollback: a commit after it consumes a nonce somebody
      else holds by then, and both commits of the one nonce succeed. */
  lemma CommitAfterRollbackSpendsTwice(n: Nonce)
    ensures var used1 := Lock(map[], n).0;
            var used2 := Rollback(used1, Live, n).0;
            var (used3, locked) := Lock(used2, n);
            var (used4, _, first) := Commit(used3, Live, n, true);
            var (_, _, second) := Commit(used4, Live, n, true);
            locked && first && second
  {
  }
}
