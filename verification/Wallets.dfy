/** Wallet and payments (anonpay/wallet/wallet.go, anonpay/wallet/payment.go), call by call. */
module Wallets {
  import opened Bytes

  /** closed, the count of the payments WaitGroup, and what went out on the two channels. */
  class Wallet {
    var closed: bool
    var payments: int
    var requests: seq<nat>
    var results: seq<nat>

    constructor ()
      ensures !closed && payments == 0 && requests == [] && results == []
    {
      closed, payments, requests, results := false, 0, [], [];
    }
  }

  /** What a BeginPayment call meets: its context may end before the request is taken or before
      the response comes, and the response may carry an error. */
  datatype Fate = CancelledEarly | CancelledLate | ErrorResponse | Credited(value: nat)

  /** BeginPayment up to its return: a payment is counted from here until it is completed; a
      cancelled request is uncounted at once, a dangling or failed one stays counted. */
  method BeginPayment(w: Wallet, amount: nat, fate: Fate) returns (p: Payment?)
    modifies w
    ensures p != null <==> !old(w.closed) && fate.Credited?
    ensures p != null ==> fresh(p) && p.w == w && p.credit == fate.value && !p.completed
    ensures w.closed == old(w.closed) && w.results == old(w.results)
    ensures w.payments == old(w.payments) + if old(w.closed) || fate.CancelledEarly? then 0 else 1
    ensures w.requests == old(w.requests) + if old(w.closed) || fate.CancelledEarly? then [] else [amount]
  {
    if w.closed { return null; }
    w.payments := w.payments + 1;
    if fate.CancelledEarly? {
      w.payments := w.payments - 1;
      return null;
    }
    w.requests := w.requests + [amount];
    if !fate.Credited? { return null; }
    p := new Payment(w, fate.value);
  }

  class Payment {
    const w: Wallet
    var credit: nat
    var completed: bool

    constructor (w: Wallet, credit: nat)
      ensures this.w == w && this.credit == credit && !completed
    {
      this.w, this.credit, completed := w, credit, false;
    }

    /** accepts is whether a payment result can be made of the credit. */
    method Complete(unspend: Option<nat>, accepts: bool) returns (ok: bool)
      modifies w
      ensures w.payments == old(w.payments) - 1
      ensures w.results == old(w.results) + if unspend.Some? && accepts then [unspend.value] else []
      ensures w.closed == old(w.closed) && w.requests == old(w.requests)
      ensures ok <==> unspend.None? || accepts
    {
      if unspend.Some? && accepts { w.results := w.results + [unspend.value]; }
      w.payments := w.payments - 1; // deferred, so last
      return unspend.None? || accepts;
    }

    /** The first of any number of Success and Cancel calls counts; the others do nothing. */
    method Success(unspend: Option<nat>, accepts: bool) returns (ok: bool)
      modifies this, w
      ensures completed && credit == old(credit)
      ensures w.payments == old(w.payments) - if old(completed) then 0 else 1
      ensures w.results == old(w.results) + if !old(completed) && unspend.Some? && accepts then [unspend.value] else []
      ensures w.closed == old(w.closed) && w.requests == old(w.requests)
      ensures ok <==> old(completed) || unspend.None? || accepts
    {
      if completed { return true; }
      completed := true;
      ok := Complete(unspend, accepts);
    }

    method Cancel(accepts: bool) returns (ok: bool)
      modifies this, w
      ensures completed && credit == old(credit)
      ensures w.payments == old(w.payments) - if old(completed) then 0 else 1
      ensures w.results == old(w.results) + if !old(completed) && accepts then [credit] else []
      ensures w.closed == old(w.closed) && w.requests == old(w.requests)
      ensures ok <==> old(completed) || accepts
    {
      if completed { return true; }
      completed := true;
      ok := Complete(Some(credit), accepts);
    }

    /** waitForDanglingResponse: a credit nobody waits for any more is given back. */
    method WaitForDanglingResponse(response: Option<nat>, accepts: bool)
      modifies this, w
      ensures response.None? ==> credit == old(credit) && completed == old(completed)
      ensures response.Some? ==> completed && credit == response.value
      ensures w.payments == old(w.payments) - if old(completed) || response.None? then 0 else 1
      ensures w.results ==
              old(w.results) + if !old(completed) && response.Some? && accepts then [response.value] else []
      ensures w.closed == old(w.closed) && w.requests == old(w.requests)
    {
      if response.None? { return; }
      credit := response.value;
      var _ := Cancel(accepts);
    }
  }
}
