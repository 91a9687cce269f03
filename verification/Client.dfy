/** The life of a payment in the client (client.go): obtained with the candidate nodes, cancelled
    on every error, completed by the reader of the router's response body otherwise. */
module Client {
  import opened Bytes
  import opened Wallets

  /** The refund trailer when it is looked at: missing, a credit, or not parseable. */
  datatype Trailer = Absent | Refund(value: nat) | Garbled

  /** What a caller does with a body: reads that go on, a read that meets the end, closing. */
  datatype BodyOp = ReadSome | ReadEnd(trailer: Trailer) | CloseBody(trailer: Trailer)

  // ---------- The refund reader on values ----------

  /** completed is the payment's flag, results what the wallet has been sent so far. */
  datatype Reader = Reader(eof: bool, closed: bool, refunded: bool, completed: bool, results: seq<nat>)

  /** A reader of a payment not completed yet. */
  function NewReader(results: seq<nat>): (r: Reader)
  {
    Reader(false, false, false, false, results)
  }

  /** What completing with a trailer sends to the wallet: the refund, if there is one and a
      payment result can be made of it. */
  function Settles(t: Trailer, accepts: bool): (r: seq<nat>)
  {
    if t.Refund? && accepts then [t.value] else []
  }

  function DoRefund(r: Reader, t: Trailer, accepts: bool): (r': Reader)
  {
    if r.refunded then r
    else if t.Garbled? || r.completed then r.(refunded := true)
    else r.(refunded := true, completed := true, results := r.results + Settles(t, accepts))
  }

  function ReaderStep(r: Reader, op: BodyOp, accepts: bool): (r': Reader)
  {
    match op
    case ReadSome => r
    case ReadEnd(t) => DoRefund(r.(eof := true), t, accepts)
    case CloseBody(t) => if r.closed then r else DoRefund(r.(closed := true), t, accepts)
  }

  function ReaderAfter(r: Reader, ops: seq<BodyOp>, accepts: bool): (r': Reader)
    decreases |ops|
  {
    if ops == [] then r else ReaderAfter(ReaderStep(r, ops[0], accepts), ops[1..], accepts)
  }

  /** The trailer as it is when the body first ends or is closed. */
  function FirstEnd(ops: seq<BodyOp>): (t: Option<Trailer>)
  {
    if ops == [] then None
    else match ops[0]
      case ReadSome => FirstEnd(ops[1..])
      case ReadEnd(t) => Some(t)
      case CloseBody(t) => Some(t)
  }

  lemma {:induction false} RefundedStays(r: Reader, ops: seq<BodyOp>, accepts: bool)
    requires r.refunded
    ensures var r' := ReaderAfter(r, ops, accepts);
            r'.refunded && r'.completed == r.completed && r'.results == r.results
    decreases |ops|
  {
    if ops != [] { RefundedStays(ReaderStep(r, ops[0], accepts), ops[1..], accepts); }
  }

  /** Any pattern of reads and closes completes the payment exactly if the body has ended or
      been closed, and the trailer was missing or parseable the first time that happened; and
      it sends the wallet that refund and nothing else. */
  lemma {:induction false} BodyCompletesPayment(start: Reader, ops: seq<BodyOp>, accepts: bool)
    requires !start.closed && !start.refunded && !start.completed
    ensures var r, end := ReaderAfter(start, ops, accepts), FirstEnd(ops);
            && (r.refunded <==> end.Some?)
            && (r.completed <==> end.Some? && !end.value.Garbled?)
            && r.results == start.results + if end.Some? then Settles(end.value, accepts) else []
    decreases |ops|
  {
    if ops != [] {
      if ops[0].ReadSome? {
        BodyCompletesPayment(start, ops[1..], accepts);
      } else {
        RefundedStays(ReaderStep(start, ops[0], accepts), ops[1..], accepts);
      }
    }
  }

  // ---------- The refund reader ----------

  class RefundReader {
    const payment: Payment
    var eof: bool
    var closed: bool
    var refunded: bool

    ghost function View(): (r: Reader)
      reads this, payment, payment.w
    {
      Reader(eof, closed, refunded, payment.completed, payment.w.results)
    }

    /** The wallet's counter goes down by one exactly when the payment is completed. */
    twostate predicate CountedOut()
      reads this, payment, payment.w
    {
      && (old(payment.completed) ==> payment.completed) && payment.credit == old(payment.credit)
      && payment.w.payments == old(payment.w.payments) - if payment.completed && !old(payment.completed) then 1 else 0
    }

    constructor (payment: Payment)
      ensures this.payment == payment
      ensures View() == Reader(false, false, false, payment.completed, payment.w.results)
    {
      this.payment := payment;
      eof, closed, refunded := false, false, false;
    }

    method Refund(t: Trailer, accepts: bool) returns (ok: bool)
      modifies this, payment, payment.w
      ensures View() == DoRefund(old(View()), t, accepts) && CountedOut()
    {
      if refunded { return true; }
      refunded := true;
      if t.Garbled? { return false; }
      ok := payment.Success(if t.Refund? then Some(t.value) else None, accepts);
    }

    method Read(end: bool, t: Trailer, accepts: bool)
      modifies this, payment, payment.w
      ensures View() == ReaderStep(old(View()), if end then ReadEnd(t) else ReadSome, accepts) && CountedOut()
    {
      if end {
        eof := true;
        var _ := Refund(t, accepts);
      }
    }

    method Close(t: Trailer, accepts: bool)
      modifies this, payment, payment.w
      ensures View() == ReaderStep(old(View()), CloseBody(t), accepts) && CountedOut()
    {
      if closed { return; }
      closed := true;
      var _ := Refund(t, accepts);
    }

    /** Any pattern of uses. */
    method Use(ops: seq<BodyOp>, accepts: bool)
      modifies this, payment, payment.w
      ensures View() == ReaderAfter(old(View()), ops, accepts) && CountedOut()
    {
      var i := 0;
      while i < |ops|
        invariant 0 <= i <= |ops|
        invariant ReaderAfter(View(), ops[i..], accepts) == ReaderAfter(old(View()), ops, accepts)
        invariant CountedOut()
      {
        assert ops[i..][1..] == ops[i + 1..];
        match ops[i] {
          case ReadSome => Read(false, Absent, accepts);
          case ReadEnd(t) => Read(true, t, accepts);
          case CloseBody(t) => Close(t, accepts);
        }
        i := i + 1;
      }
    }
  }

  // ---------- A round trip ----------

  /** How the request to the router goes: not sent, refused, answered for a ping, answered with
      an unreadable node id, for a node that was no candidate, or decapsulated, after some
      reads of the body and with or without success. t is the trailer the reader is closed
      with after an error. */
  datatype RouterFate =
    | Unsent | Refused | Ping | BadNodeId(t: Trailer) | NotACandidate
    | Decapsulated(early: seq<BodyOp>, ok: bool, t: Trailer)

  /** What a round trip meets: the payment's fate, how many nodes are found (None: an error),
      whether the badge is found and encoded, the router, and whether payment results can be
      made of credits. */
  datatype Env = Env(fate: Fate, nodes: Option<nat>, badge: bool, router: RouterFate, accepts: bool)

  predicate OnlyReads(ops: seq<BodyOp>)
  {
    forall i | 0 <= i < |ops| :: !ops[i].CloseBody?
  }

  /** What has been read of the body before the caller gets it. */
  function EarlyReads(env: Env): (ops: seq<BodyOp>)
  {
    if env.router.Decapsulated? then env.router.early else []
  }

  predicate Answered(env: Env)
  {
    env.nodes.Some? && env.nodes.value > 0 && (env.router.Ping? || (env.router.Decapsulated? && env.router.ok))
  }

  /** The trailer an error after the reader is in place completes the payment with, if any. */
  function ErrorEnd(env: Env): (t: Option<Trailer>)
  {
    if env.nodes == Some(0) then None
    else match env.router
      case BadNodeId(t) => Some(t)
      case Decapsulated(early, _, t) => FirstEnd(early + [CloseBody(t)])
      case _ => None
  }

  /** What the wallet is sent for a payment of credit after an error: the refund that came with
      it, or else the whole credit. */
  function GivenBack(end: Option<Trailer>, credit: nat, accepts: bool): (r: seq<nat>)
  {
    if end.Some? && !end.value.Garbled? then Settles(end.value, accepts) else if accepts then [credit] else []
  }

  /** requestResources: a payment obtained although the nodes were not is cancelled at once. */
  method RequestResources(w: Wallet, amount: nat, env: Env) returns (p: Payment?)
    modifies w
    ensures p != null <==> !old(w.closed) && env.fate.Credited? && env.nodes.Some?
    ensures p != null ==>
              && fresh(p) && p.w == w && !p.completed && p.credit == env.fate.value
              && w.payments == old(w.payments) + 1 && w.results == old(w.results)
    ensures p == null ==>
              && w.payments == old(w.payments) + LeftCounted(old(w.closed), env.fate)
              && w.results == old(w.results) +
                              if !old(w.closed) && env.fate.Credited? && env.accepts then [env.fate.value] else []
  {
    p := BeginPayment(w, amount, env.fate);
    if p != null && env.nodes.None? {
      var _ := p.Cancel(env.accepts);
      p := null;
    }
  }

  /** What BeginPayment itself leaves counted when it gives no payment. */
  function LeftCounted(closed: bool, fate: Fate): (n: nat)
  {
    if !closed && (fate.CancelledLate? || fate.ErrorResponse?) then 1 else 0
  }

  /** doRouterRequest: with an error after the reader is in place the reader is closed, except
      when the node was no candidate. */
  method DoRouterRequest(p: Payment, env: Env) returns (body: RefundReader?)
    requires env.nodes.Some? && !p.completed && OnlyReads(EarlyReads(env))
    modifies p, p.w
    ensures p.w.payments == old(p.w.payments) - (if p.completed then 1 else 0) && p.credit == old(p.credit)
    ensures body != null <==> Answered(env)
    ensures body != null ==>
              && fresh(body) && body.payment == p
              && body.View() == ReaderAfter(NewReader(old(p.w.results)), EarlyReads(env), env.accepts)
    ensures body == null ==>
              && (p.completed <==> ErrorEnd(env).Some? && !ErrorEnd(env).value.Garbled?)
              && p.w.results == old(p.w.results) + if p.completed then Settles(ErrorEnd(env).value, env.accepts) else []
  {
    if env.nodes.value == 0 { return null; }
    if env.router.Unsent? || env.router.Refused? { return null; }
    var reader := new RefundReader(p);
    ghost var start := reader.View();
    match env.router {
      case Unsent => return null;
      case Refused => return null;
      case Ping => return reader;
      case BadNodeId(t) =>
        reader.Close(t, env.accepts);
        return null;
      case NotACandidate => return null;
      case Decapsulated(early, ok, t) =>
        reader.Use(early, env.accepts);
        if !ok {
          reader.Close(t, env.accepts);
          ReaderAfterConcat(start, early, [CloseBody(t)], env.accepts);
          assert [CloseBody(t)][1..] == [];
          BodyCompletesPayment(start, early + [CloseBody(t)], env.accepts);
          return null;
        }
        return reader;
    }
  }

  /** RoundTrip. On an error the payment obtained, if any, has been counted out exactly once and
      the wallet has been given back its refund or the whole credit; only what BeginPayment
      itself left counted is still counted. On success the payment comes with the body, and
      only the body's own reads have happened to it. */
  method RoundTrip(w: Wallet, amount: nat, env: Env) returns (body: RefundReader?)
    requires OnlyReads(EarlyReads(env))
    modifies w
    ensures body != null <==> !old(w.closed) && env.fate.Credited? && env.badge && Answered(env)
    ensures body == null ==>
              && w.payments == old(w.payments) + LeftCounted(old(w.closed), env.fate)
              && w.results == old(w.results) +
                              if old(w.closed) || !env.fate.Credited? then []
                              else
                                var end := if env.nodes.Some? && env.badge then ErrorEnd(env) else None;
                                GivenBack(end, env.fate.value, env.accepts)
    ensures body != null ==>
              && fresh(body) && fresh(body.payment) && body.payment.w == w
              && body.View() == ReaderAfter(NewReader(old(w.results)), EarlyReads(env), env.accepts)
              && w.payments == old(w.payments) + if body.payment.completed then 0 else 1
  {
    var p := RequestResources(w, amount, env);
    if p == null { return null; }
    if !env.badge {
      var _ := p.Cancel(env.accepts);
      return null;
    }
    body := DoRouterRequest(p, env);
    if body == null { var _ := p.Cancel(env.accepts); }
  }

  lemma {:induction false} ReaderAfterConcat(r: Reader, a: seq<BodyOp>, b: seq<BodyOp>, accepts: bool)
    ensures ReaderAfter(r, a + b, accepts) == ReaderAfter(ReaderAfter(r, a, accepts), b, accepts)
    decreases |a|
  {
    if a == [] {
      assert a + b == b;
    } else {
      ReaderAfterConcat(ReaderStep(r, a[0], accepts), a[1..], b, accepts);
      assert (a + b)[1..] == a[1..] + b;
    }
  }

  /** A round trip that succeeds, then any use of its body: the payment is counted out exactly
      once, unless the body never ended or its trailer could not be parsed, and the wallet gets
      exactly the refund of the trailer. */
  method RoundTripAndUse(w: Wallet, amount: nat, env: Env, ops: seq<BodyOp>)
    requires OnlyReads(EarlyReads(env))
    requires !w.closed && env.fate.Credited? && env.badge && Answered(env)
    modifies w
    ensures var end := FirstEnd(EarlyReads(env) + ops);
            && w.payments == old(w.payments) + (if end.Some? && !end.value.Garbled? then 0 else 1)
            && w.results == old(w.results) + if end.Some? then Settles(end.value, env.accepts) else []
  {
    ghost var start := Reader(false, false, false, false, w.results);
    var body := RoundTrip(w, amount, env);
    body.Use(ops, env.accepts);
    ReaderAfterConcat(start, EarlyReads(env), ops, env.accepts);
    BodyCompletesPayment(start, EarlyReads(env) + ops, env.accepts);
  }
}
