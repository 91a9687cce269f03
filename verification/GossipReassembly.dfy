/** What the two halves of the gossip layer promise together: chunks in any order, any number of
    times, with any losses, interleaved with clean-ups of the receiver. */
module GossipReassembly {
  import opened Bytes
  import opened GossipSender
  import opened GossipReceiver

  /** What happens to a receiver, and when. */
  datatype Event = Arrive(raw: Data, at: int) | Cleanup(maxAge: int, at: int)

  function InboxAfter(events: seq<Event>): (inbox: Inbox)
  {
    if events == [] then map[] else Handled(InboxAfter(events[..|events| - 1]), events[|events| - 1])
  }

  function Handled(inbox: Inbox, e: Event): (inbox': Inbox)
  {
    match e
    case Arrive(raw, at) => Receive(inbox, raw, at).0
    case Cleanup(maxAge, at) => Cleaned(inbox, maxAge, at)
  }

  /** What the receiver returns when raw arrives after events. */
  function ReceiptFor(events: seq<Event>, raw: Data, at: int): (r: Receipt)
  {
    Receive(InboxAfter(events), raw, at).1
  }

  // ---------- Transmissions and arrivals ----------

  /** The transmissions of a broadcaster that never reused an id. */
  ghost predicate GoodHistory(sent: seq<Transmission>)
  {
    && (forall j, k | 0 <= j < k < |sent| :: sent[j].id != sent[k].id)
    && (forall k | 0 <= k < |sent| :: GoodTransmission(sent[k]))
  }

  ghost predicate GoodTransmission(t: Transmission)
  {
    && |t.pieces| <= TWO32
    && (t.done ==> t.pieces != [] && Concat(t.pieces) == t.msg)
    && (t.msg != [] ==> NoEmptyPiece(t))
    && (t.msg == [] ==> forall i | 0 <= i < |t.pieces| :: t.pieces[i] == [])
  }

  /** Chunk i of t as the bytes that travel. */
  function RawAt(t: Transmission, i: nat): (raw: Data)
    requires i < |t.pieces|
  {
    Encode(ChunkAt(t, i))
  }

  ghost predicate Carries(t: Transmission, c: Data)
  {
    exists i :: 0 <= i < |t.pieces| && c == RawAt(t, i)
  }

  ghost predicate OnWire(sent: seq<Transmission>, c: Data)
  {
    exists k :: 0 <= k < |sent| && Carries(sent[k], c)
  }

  /** What arrives are chunks that were sent, in any order, any number of times each. */
  ghost predicate FromWire(sent: seq<Transmission>, events: seq<Event>)
  {
    forall a | 0 <= a < |events| && events[a].Arrive? :: OnWire(sent, events[a].raw)
  }

  ghost function Got(t: Transmission, arrivals: seq<Data>): (s: set<nat>)
  {
    set i: nat | i < |t.pieces| && RawAt(t, i) in arrivals
  }

  /** The whole message went out, and every chunk of it has arrived. */
  ghost predicate AllHere(t: Transmission, arrivals: seq<Data>)
  {
    t.done && forall i | 0 <= i < |t.pieces| :: RawAt(t, i) in arrivals
  }

  /** The time since t was last forgotten: what has arrived in it, and when the first chunk of t
      did. */
  datatype Epoch = Epoch(arrivals: seq<Data>, born: Option<int>)

  /** A clean-up forgets t if the first chunk of it came in too long ago. */
  predicate Forgets(e: Epoch, maxAge: int, now: int)
  {
    e.born.Some? && e.born.value < now - maxAge
  }

  ghost function Next(t: Transmission, e: Epoch, event: Event): (e': Epoch)
  {
    match event
    case Arrive(raw, at) =>
      Epoch(e.arrivals + [raw], if e.born.None? && Carries(t, raw) then Some(at) else e.born)
    case Cleanup(maxAge, at) => if Forgets(e, maxAge, at) then Epoch([], None) else e
  }

  ghost function EpochOf(t: Transmission, events: seq<Event>): (e: Epoch)
  {
    if events == [] then Epoch([], None)
    else Next(t, EpochOf(t, events[..|events| - 1]), events[|events| - 1])
  }

  /** The promise, for a chunk c after these arrivals since t was last forgotten: nothing until the
      last missing chunk arrives, then the message, then nothing again. A message without bytes
      only ever yields malformed chunks, and one of 2^32 chunks hangs the receiver. */
  ghost function Promised(t: Transmission, arrivals: seq<Data>, c: Data): (r: Receipt)
  {
    if t.msg == [] then Malformed
    else if !AllHere(t, arrivals + [c]) then Nothing
    else if |t.pieces| == TWO32 then Hangs
    else if AllHere(t, arrivals) then Nothing
    else Message(t.msg)
  }

  // ---------- The receiver mirrors what has arrived ----------

  /** The final index a receiver knows that has got these pieces of t. */
  ghost function LastOf(t: Transmission, got: set<nat>): (r: Option<Index>)
    requires |t.pieces| <= TWO32
  {
    if t.done && |t.pieces| - 1 in got then Some(|t.pieces| - 1) else None
  }

  /** What the receiver holds for t is what has arrived of t. */
  ghost predicate Mirrors(inbox: Inbox, t: Transmission, arrivals: seq<Data>)
    requires |t.pieces| <= TWO32
  {
    var got := Got(t, arrivals);
    && (t.id in inbox <==> got != {})
    && (t.id in inbox ==>
          && inbox[t.id].chunks == (map i | i in got :: t.pieces[i])
          && inbox[t.id].finalIndex == LastOf(t, got))
  }

  /** And it has held it since the first of that came in. */
  predicate Dated(inbox: Inbox, t: Transmission, e: Epoch)
  {
    && (t.id in inbox <==> e.born.Some?)
    && (t.id in inbox ==> inbox[t.id].createdAt == e.born.value)
  }

  lemma ChunkIdentity(t: Transmission, i: nat, t': Transmission, j: nat)
    requires i < |t.pieces| <= TWO32 && j < |t'.pieces| <= TWO32
    requires RawAt(t, i) == RawAt(t', j)
    ensures t.id == t'.id && i == j
  {
    EncodeInjective(ChunkAt(t, i), ChunkAt(t', j));
  }

  lemma ParseRawAt(t: Transmission, i: nat)
    requires i < |t.pieces|
    ensures ParseChunk(RawAt(t, i)) == if t.pieces[i] == [] then None else Some(ChunkAt(t, i))
  {
    if t.pieces[i] == [] {
      HeaderOnlyIsMalformed(ChunkAt(t, i));
    } else {
      ParseInvertsEncode(RawAt(t, i), ChunkAt(t, i));
    }
  }

  lemma {:induction false} AssemblePieces(t: Transmission, chunks: map<nat, Data>, n: nat)
    requires n <= |t.pieces|
    requires forall i | 0 <= i < n :: i in chunks && chunks[i] == t.pieces[i]
    ensures Assemble(chunks, n) == Concat(t.pieces[..n])
  {
    if n > 0 {
      AssemblePieces(t, chunks, n - 1);
      assert t.pieces[..n][..n - 1] == t.pieces[..n - 1];
    }
  }

  lemma CompleteIffAllHere(inbox: Inbox, t: Transmission, arrivals: seq<Data>)
    requires GoodTransmission(t) && Mirrors(inbox, t, arrivals)
    ensures (t.id in inbox && Complete(inbox[t.id])) <==> AllHere(t, arrivals)
    ensures (t.id in inbox && Endless(inbox[t.id])) <==> AllHere(t, arrivals) && |t.pieces| == TWO32
  {
    if AllHere(t, arrivals) {
      assert |t.pieces| - 1 in Got(t, arrivals);
    }
    if t.id in inbox && Complete(inbox[t.id]) {
      forall i | 0 <= i < |t.pieces| ensures RawAt(t, i) in arrivals {
        assert i in inbox[t.id].chunks;
      }
    }
  }

  lemma GotOneMore(t: Transmission, arrivals: seq<Data>, i: nat)
    requires i < |t.pieces| <= TWO32
    ensures Got(t, arrivals + [RawAt(t, i)]) == Got(t, arrivals) + {i}
  {
    var c := RawAt(t, i);
    forall j: nat | j in Got(t, arrivals + [c]) ensures j in Got(t, arrivals) + {i} {
      if RawAt(t, j) == c { ChunkIdentity(t, j, t, i); }
    }
  }

  /** Storing one more chunk of t, on values: got is what had arrived of t. */
  lemma StoreOwn(m: ChunkedMsg, t: Transmission, got: set<nat>, i: nat)
    requires i < |t.pieces| <= TWO32 && (forall j | j in got :: j < |t.pieces|)
    requires m.chunks == map j | j in got :: t.pieces[j]
    requires m.finalIndex == LastOf(t, got)
    ensures var m' := Store(m, ChunkAt(t, i));
            && m'.chunks == (map j | j in got + {i} :: t.pieces[j])
            && m'.finalIndex == LastOf(t, got + {i})
  {
  }

  /** A chunk of t arrives: the receiver goes on mirroring t. */
  lemma ReceiveOwnMirrors(inbox: Inbox, t: Transmission, arrivals: seq<Data>, i: nat, now: int)
    requires GoodTransmission(t) && t.msg != [] && i < |t.pieces|
    requires Mirrors(inbox, t, arrivals)
    ensures Mirrors(Receive(inbox, RawAt(t, i), now).0, t, arrivals + [RawAt(t, i)])
  {
    ParseRawAt(t, i);
    GotOneMore(t, arrivals, i);
    CompleteIffAllHere(inbox, t, arrivals);
    var got := Got(t, arrivals);
    if AllHere(t, arrivals) {
      assert got + {i} == got;
    } else {
      StoreOwn(Found(inbox, t.id, now), t, got, i);
    }
  }

  lemma ReceiveOwnDated(inbox: Inbox, t: Transmission, e: Epoch, i: nat, now: int)
    requires GoodTransmission(t) && t.msg != [] && i < |t.pieces|
    requires Dated(inbox, t, e)
    ensures Dated(Receive(inbox, RawAt(t, i), now).0, t, Next(t, e, Arrive(RawAt(t, i), now)))
  {
    ParseRawAt(t, i);
    assert Carries(t, RawAt(t, i));
  }

  /** With all of t here, what the receiver holds of it assembles to its message. */
  lemma AssembleAll(inbox: Inbox, t: Transmission, arrivals: seq<Data>)
    requires GoodTransmission(t) && Mirrors(inbox, t, arrivals) && AllHere(t, arrivals)
    ensures t.id in inbox && Complete(inbox[t.id])
    ensures Assemble(inbox[t.id].chunks, inbox[t.id].finalIndex.value + 1) == t.msg
  {
    CompleteIffAllHere(inbox, t, arrivals);
    assert inbox[t.id].finalIndex == Some(|t.pieces| - 1);
    AssemblePieces(t, inbox[t.id].chunks, |t.pieces|);
    assert t.pieces[..|t.pieces|] == t.pieces;
  }

  /** Accepting a chunk hands out what the message has become, unless it was complete. */
  lemma AcceptAnswers(inbox: Inbox, c: Chunk, now: int)
    ensures var (inbox', receipt) := Accept(inbox, c, now);
            if c.msgID in inbox && Complete(inbox[c.msgID])
            then receipt == if Endless(inbox[c.msgID]) then Hangs else Nothing
            else c.msgID in inbox' && receipt == HandOut(inbox'[c.msgID])
  {
  }

  /** A chunk of t arrives: the receiver answers as promised. */
  lemma ReceiveOwnAnswer(inbox: Inbox, t: Transmission, arrivals: seq<Data>, i: nat, now: int)
    requires GoodTransmission(t) && t.msg != [] && i < |t.pieces|
    requires Mirrors(inbox, t, arrivals)
    ensures Receive(inbox, RawAt(t, i), now).1 == Promised(t, arrivals, RawAt(t, i))
  {
    var c := RawAt(t, i);
    ParseRawAt(t, i);
    AcceptAnswers(inbox, ChunkAt(t, i), now);
    CompleteIffAllHere(inbox, t, arrivals);
    if !AllHere(t, arrivals) {
      var inbox' := Receive(inbox, c, now).0;
      ReceiveOwnMirrors(inbox, t, arrivals, i, now);
      CompleteIffAllHere(inbox', t, arrivals + [c]);
      if AllHere(t, arrivals + [c]) { AssembleAll(inbox', t, arrivals + [c]); }
    }
  }

  lemma NotCarried(t: Transmission, t': Transmission, i: nat)
    requires GoodTransmission(t) && GoodTransmission(t') && t.id != t'.id && i < |t'.pieces|
    ensures !Carries(t, RawAt(t', i))
  {
    forall j: nat | j < |t.pieces| ensures RawAt(t, j) != RawAt(t', i) {
      if RawAt(t, j) == RawAt(t', i) { ChunkIdentity(t, j, t', i); }
    }
  }

  lemma GotNoMore(t: Transmission, arrivals: seq<Data>, c: Data)
    requires !Carries(t, c)
    ensures Got(t, arrivals + [c]) == Got(t, arrivals) && AllHere(t, arrivals + [c]) == AllHere(t, arrivals)
  {
    forall i | 0 <= i < |t.pieces| ensures RawAt(t, i) in arrivals + [c] <==> RawAt(t, i) in arrivals {
      assert RawAt(t, i) != c;
    }
  }

  /** A chunk of another transmission arrives: nothing changes for t. */
  lemma ReceiveOther(inbox: Inbox, t: Transmission, e: Epoch, t': Transmission, i: nat, now: int)
    requires GoodTransmission(t) && GoodTransmission(t') && t.id != t'.id && i < |t'.pieces|
    requires Mirrors(inbox, t, e.arrivals) && Dated(inbox, t, e)
    ensures var inbox', e' := Receive(inbox, RawAt(t', i), now).0, Next(t, e, Arrive(RawAt(t', i), now));
            Mirrors(inbox', t, e'.arrivals) && Dated(inbox', t, e')
  {
    ParseRawAt(t', i);
    NotCarried(t, t', i);
    GotNoMore(t, e.arrivals, RawAt(t', i));
  }

  /** A clean-up takes t away exactly if it forgets it. */
  lemma CleanupMirrors(inbox: Inbox, t: Transmission, e: Epoch, maxAge: int, now: int)
    requires GoodTransmission(t) && Mirrors(inbox, t, e.arrivals) && Dated(inbox, t, e)
    ensures var inbox', e' := Cleaned(inbox, maxAge, now), Next(t, e, Cleanup(maxAge, now));
            Mirrors(inbox', t, e'.arrivals) && Dated(inbox', t, e')
  {
    if Forgets(e, maxAge, now) { assert Got(t, []) == {}; }
  }

  // ---------- Every sequence of events ----------

  ghost predicate Tracks(inbox: Inbox, t: Transmission, e: Epoch)
    requires |t.pieces| <= TWO32
  {
    Mirrors(inbox, t, e.arrivals) && Dated(inbox, t, e)
  }

  lemma ArriveTracks(inbox: Inbox, sent: seq<Transmission>, k: nat, e: Epoch, raw: Data, at: int)
    requires GoodHistory(sent) && k < |sent| && sent[k].msg != [] && OnWire(sent, raw)
    requires Tracks(inbox, sent[k], e)
    ensures Tracks(Receive(inbox, raw, at).0, sent[k], Next(sent[k], e, Arrive(raw, at)))
  {
    var j :| 0 <= j < |sent| && Carries(sent[j], raw);
    var i :| 0 <= i < |sent[j].pieces| && raw == RawAt(sent[j], i);
    if j == k {
      ReceiveOwnMirrors(inbox, sent[k], e.arrivals, i, at);
      ReceiveOwnDated(inbox, sent[k], e, i, at);
    } else {
      ReceiveOther(inbox, sent[k], e, sent[j], i, at);
    }
  }

  /** For every order, repetition, interleaving and loss of chunks and any clean-ups, the receiver
      holds of each transmission exactly what has come in since it was last forgotten. */
  lemma {:induction false} InboxMirrors(sent: seq<Transmission>, events: seq<Event>, k: nat)
    requires GoodHistory(sent) && FromWire(sent, events) && k < |sent| && sent[k].msg != []
    ensures Tracks(InboxAfter(events), sent[k], EpochOf(sent[k], events))
  {
    var t := sent[k];
    if events == [] {
      assert Got(t, []) == {};
    } else {
      var before, last := events[..|events| - 1], events[|events| - 1];
      InboxMirrors(sent, before, k);
      match last
      case Arrive(raw, at) => ArriveTracks(InboxAfter(before), sent, k, EpochOf(t, before), raw, at);
      case Cleanup(maxAge, at) => CleanupMirrors(InboxAfter(before), t, EpochOf(t, before), maxAge, at);
    }
  }

  /** Each arriving chunk is answered as promised. */
  lemma ReceiptAsPromised(sent: seq<Transmission>, events: seq<Event>, c: Data, at: int, k: nat)
    requires GoodHistory(sent) && k < |sent| && Carries(sent[k], c)
    requires FromWire(sent, events)
    ensures ReceiptFor(events, c, at) == Promised(sent[k], EpochOf(sent[k], events).arrivals, c)
  {
    var t := sent[k];
    var i :| 0 <= i < |t.pieces| && c == RawAt(t, i);
    if t.msg == [] {
      ParseRawAt(t, i);
    } else {
      InboxMirrors(sent, events, k);
      ReceiveOwnAnswer(InboxAfter(events), t, EpochOf(t, events).arrivals, i, at);
    }
  }

  /** How often the receiver returned a message on a chunk of t. */
  ghost function Deliveries(t: Transmission, events: seq<Event>): (n: nat)
  {
    if events == [] then 0
    else
      var before, last := events[..|events| - 1], events[|events| - 1];
      Deliveries(t, before) +
      if last.Arrive? && Carries(t, last.raw) && ReceiptFor(before, last.raw, last.at).Message? then 1 else 0
  }

  /** How often a clean-up forgot t with all of it there. */
  ghost function ForgottenWhole(t: Transmission, events: seq<Event>): (n: nat)
  {
    if events == [] then 0
    else
      var before, last := events[..|events| - 1], events[|events| - 1];
      var e := EpochOf(t, before);
      ForgottenWhole(t, before) +
      if last.Cleanup? && Forgets(e, last.maxAge, last.at) && AllHere(t, e.arrivals) then 1 else 0
  }

  /** What is there now counts as one more. */
  ghost function TimesWhole(t: Transmission, events: seq<Event>): (n: nat)
  {
    ForgottenWhole(t, events) + if AllHere(t, EpochOf(t, events).arrivals) then 1 else 0
  }

  lemma NothingThere(t: Transmission)
    requires GoodTransmission(t)
    ensures !AllHere(t, [])
  {
    if t.done { assert RawAt(t, 0) !in []; }
  }

  lemma ArriveWhole(t: Transmission, before: seq<Event>, raw: Data, at: int)
    requires GoodTransmission(t)
    ensures var events, arrivals := before + [Arrive(raw, at)], EpochOf(t, before).arrivals;
            TimesWhole(t, events) == TimesWhole(t, before)
              + if !AllHere(t, arrivals) && AllHere(t, arrivals + [raw]) then 1 else 0
  {
    var events := before + [Arrive(raw, at)];
    assert events[..|before|] == before;
    var arrivals := EpochOf(t, before).arrivals;
    if AllHere(t, arrivals) {
      assert AllHere(t, arrivals + [raw]);
    }
  }

  lemma CleanupWhole(t: Transmission, before: seq<Event>, maxAge: int, at: int)
    requires GoodTransmission(t)
    ensures TimesWhole(t, before + [Cleanup(maxAge, at)]) == TimesWhole(t, before)
  {
    var events := before + [Cleanup(maxAge, at)];
    assert events[..|before|] == before;
    NothingThere(t);
  }

  /** A message is handed out exactly as often as all of it has been there: once for every
      clean-up that forgot it whole, and once more if it is there whole now. So it is handed out
      again exactly if, after such a clean-up, every chunk of it comes in again. */
  lemma {:induction false} DeliveredAsOftenAsWhole(sent: seq<Transmission>, events: seq<Event>, k: nat)
    requires GoodHistory(sent) && k < |sent| && FromWire(sent, events)
    ensures Deliveries(sent[k], events) ==
            if sent[k].msg != [] && |sent[k].pieces| < TWO32 then TimesWhole(sent[k], events) else 0
  {
    var t := sent[k];
    if events == [] {
      NothingThere(t);
    } else {
      var before, last := events[..|events| - 1], events[|events| - 1];
      DeliveredAsOftenAsWhole(sent, before, k);
      assert events == before + [last];
      match last
      case Cleanup(maxAge, at) => CleanupWhole(t, before, maxAge, at);
      case Arrive(raw, at) =>
        ArriveWhole(t, before, raw, at);
        if Carries(t, raw) {
          ReceiptAsPromised(sent, before, raw, at, k);
        } else {
          GotNoMore(t, EpochOf(t, before).arrivals, raw);
        }
    }
  }

  /** For example a message of one chunk that comes in, is forgotten and comes in again. */
  lemma ForgottenIsHandedOutAgain(t: Transmission)
    requires GoodTransmission(t) && t.done && t.msg != [] && |t.pieces| == 1
    ensures var raw := RawAt(t, 0); Deliveries(t, [Arrive(raw, 0), Cleanup(5, 10), Arrive(raw, 11)]) == 2
  {
    var raw := RawAt(t, 0);
    var one, two, three := [Arrive(raw, 0)], [Arrive(raw, 0), Cleanup(5, 10)],
                           [Arrive(raw, 0), Cleanup(5, 10), Arrive(raw, 11)];
    assert Carries(t, raw);
    assert [] + [raw] == [raw] && AllHere(t, [raw]);
    assert one[..0] == [] && two[..1] == one && three[..2] == two;
    assert EpochOf(t, one) == Epoch([raw], Some(0));
    assert EpochOf(t, two) == Epoch([], None);
    assert EpochOf(t, three) == Epoch([raw], Some(11));
    assert ForgottenWhole(t, one) == 0;
    assert ForgottenWhole(t, two) == 1;
    assert FromWire([t], three) by { assert Carries([t][0], raw); }
    DeliveredAsOftenAsWhole([t], three, 0);
  }

  // ---------- Without forgetting ----------

  /** No clean-up comes too late for t. */
  ghost predicate NeverForgotten(t: Transmission, events: seq<Event>)
  {
    forall a | 0 <= a < |events| && events[a].Cleanup? ::
      !Forgets(EpochOf(t, events[..a]), events[a].maxAge, events[a].at)
  }

  function Arrivals(events: seq<Event>): (arrivals: seq<Data>)
  {
    if events == [] then []
    else
      var last := events[|events| - 1];
      Arrivals(events[..|events| - 1]) + if last.Arrive? then [last.raw] else []
  }

  /** Then everything that ever arrived counts, and the message is handed out once if that is all
      of it, and never otherwise. */
  lemma {:induction false} NeverForgottenOnce(t: Transmission, events: seq<Event>)
    requires NeverForgotten(t, events)
    ensures EpochOf(t, events).arrivals == Arrivals(events) && ForgottenWhole(t, events) == 0
  {
    if events != [] {
      var before, last := events[..|events| - 1], events[|events| - 1];
      forall a | 0 <= a < |before| ensures before[a] == events[a] && before[..a] == events[..a] {}
      NeverForgottenOnce(t, before);
      if last.Cleanup? { assert events[|before|] == last; }
    }
  }
}
