/** Gossip end to end: whatever a broadcaster is asked to send, however its chunks are drawn,
    and however they arrive, the receiver hands out each message once and whole. */
module Gossip {
  import opened Bytes
  import opened GossipSender
  import opened GossipReassembly
  import opened Sequences

  /** A call on the broadcaster: message(msg) or chunks(overhead, limit). */
  datatype SendOp = Submit(msg: Data) | Draw(overhead: int, limit: int)

  function Fresh(ids: seq<Draw>): (s: Sender)
  {
    Sender(ids, [], seq(ID_LEN, _ => 0), 0, [], [], None)
  }

  /** The broadcaster after ops, and all chunks it has handed out. */
  function RunSender(ids: seq<Draw>, ops: seq<SendOp>): (r: (Sender, seq<Chunk>))
  {
    if ops == [] then (Fresh(ids), [])
    else
      var (s, wire) := RunSender(ids, ops[..|ops| - 1]);
      match ops[|ops| - 1]
      case Submit(msg) => (s.(backlog := s.backlog + [msg]), wire)
      case Draw(overhead, limit) =>
        var (s', chunks) := CutChunks(s, overhead, limit, 0);
        (s', wire + chunks)
  }

  /** All transmissions of a run. */
  function SentBy(ids: seq<Draw>, ops: seq<SendOp>): (sent: seq<Transmission>)
  {
    var s := RunSender(ids, ops).0;
    Sent(s.past, s.last)
  }

  function Submitted(ops: seq<SendOp>): (r: seq<Data>)
  {
    if ops == [] then []
    else Submitted(ops[..|ops| - 1]) + match ops[|ops| - 1] case Submit(msg) => [msg] case Draw(_, _) => []
  }

  /** What every run keeps: messages leave in the order they were submitted, ids are used in
      the order they were drawn, and the wire is exactly the transmissions. */
  lemma {:induction false} RunKeeps(ids: seq<Draw>, ops: seq<SendOp>)
    ensures var (s, wire) := RunSender(ids, ops);
            Inv(s) && AccountOf(s) == Account(Submitted(ops), Supply(ids), wire)
  {
    if ops == [] {
      assert [] + Supply(ids) == Supply(ids);
    } else {
      RunKeeps(ids, ops[..|ops| - 1]);
      var (s, wire) := RunSender(ids, ops[..|ops| - 1]);
      match ops[|ops| - 1]
      case Submit(msg) =>
        SubmitGrows(s, msg);
      case Draw(overhead, limit) =>
        CutChunksExtends(s, overhead, limit, 0);
        assert Submitted(ops) == Submitted(ops[..|ops| - 1]);
    }
  }

  lemma SubmitGrows(s: Sender, msg: Data)
    requires Inv(s)
    ensures var s' := s.(backlog := s.backlog + [msg]);
            Inv(s') && AccountOf(s') == AccountOf(s).(messages := AccountOf(s).messages + [msg])
  {
    var texts := Messages(Sent(s.past, s.last));
    assert texts + (s.backlog + [msg]) == texts + s.backlog + [msg];
  }

  lemma {:induction false} PiecesAtMostBytes(pieces: seq<Data>)
    requires forall i | 0 <= i < |pieces| :: pieces[i] != []
    ensures |pieces| <= |Concat(pieces)|
  {
    if pieces != [] { PiecesAtMostBytes(pieces[..|pieces| - 1]); }
  }

  /** No piece is empty unless the message is, no byte is sent twice, and what is done is whole. */
  ghost predicate IsCut(t: Transmission)
  {
    && |Concat(t.pieces)| <= |t.msg|
    && (t.msg != [] ==> NoEmptyPiece(t))
    && (t.msg == [] ==> |t.pieces| <= 1)
    && (t.done ==> t.pieces != [] && Concat(t.pieces) == t.msg)
  }

  lemma SentIsCut(s: Sender, k: nat)
    requires Inv(s) && k < |Sent(s.past, s.last)|
    ensures IsCut(Sent(s.past, s.last)[k])
  {
    if k < |s.past| {
      assert Finished(s.past[k]);
    }
  }

  /** A message below 4 GiB cannot run out of chunk indices. */
  lemma ShortMessagesFit(s: Sender, k: nat)
    requires Inv(s) && k < |Sent(s.past, s.last)| && |Sent(s.past, s.last)[k].msg| < TWO32
    ensures |Sent(s.past, s.last)[k].pieces| < TWO32
  {
    SentIsCut(s, k);
    var t := Sent(s.past, s.last)[k];
    if t.msg != [] { PiecesAtMostBytes(t.pieces); }
  }

  lemma OnePiece(pieces: seq<Data>)
    requires |pieces| == 1
    ensures Concat(pieces) == pieces[0]
  {
    assert pieces[..0] == [];
  }

  lemma CutIsGood(t: Transmission)
    requires IsCut(t) && |t.pieces| <= TWO32
    ensures GoodTransmission(t)
  {
    if |t.pieces| == 1 { OnePiece(t.pieces); }
  }

  lemma {:induction false} At(sent: seq<Transmission>, k: nat)
    requires k < |sent|
    ensures |Messages(sent)| == |Drawn(sent)| == |sent|
    ensures Messages(sent)[k] == sent[k].msg && Drawn(sent)[k] == sent[k].id
  {
    if |sent| > 1 { At(sent[..|sent| - 1], if k < |sent| - 1 then k else 0); }
  }

  lemma PrefixDistinct(ids: seq<Id>, rest: seq<Id>, j: nat, k: nat)
    requires Distinct(ids + rest) && j < k < |ids|
    ensures ids[j] != ids[k]
  {
    assert (ids + rest)[j] == ids[j] && (ids + rest)[k] == ids[k];
  }

  lemma DistinctPrefix(sent: seq<Transmission>, rest: seq<Id>, j: nat, k: nat)
    requires Distinct(Drawn(sent) + rest) && j < k < |sent|
    ensures sent[j].id != sent[k].id
  {
    At(sent, j);
    At(sent, k);
    PrefixDistinct(Drawn(sent), rest, j, k);
  }

  lemma {:induction false} WireUpToHolds(t: Transmission, n: nat, i: nat)
    requires i < n <= |t.pieces|
    ensures ChunkAt(t, i) in WireUpTo(t, n)
  {
    if i < n - 1 { WireUpToHolds(t, n - 1, i); }
  }

  lemma {:induction false} WireUpToOnly(t: Transmission, n: nat, c: Chunk) returns (i: nat)
    requires n <= |t.pieces| && c in WireUpTo(t, n)
    ensures i < n && c == ChunkAt(t, i)
  {
    if c == ChunkAt(t, n - 1) { i := n - 1; } else { i := WireUpToOnly(t, n - 1, c); }
  }

  /** Whatever is on the wire is a chunk of some transmission. */
  lemma {:induction false} WireOnly(sent: seq<Transmission>, c: Chunk) returns (k: nat, i: nat)
    requires c in Wire(sent)
    ensures k < |sent| && i < |sent[k].pieces| && c == ChunkAt(sent[k], i)
  {
    k := |sent| - 1;
    if c in WireOf(sent[k]) {
      i := WireUpToOnly(sent[k], |sent[k].pieces|, c);
    } else {
      k, i := WireOnly(sent[..|sent| - 1], c);
    }
  }

  /** Every chunk of every transmission is on the wire. */
  lemma {:induction false} WireHolds(sent: seq<Transmission>, k: nat, i: nat)
    requires k < |sent| && i < |sent[k].pieces|
    ensures ChunkAt(sent[k], i) in Wire(sent)
  {
    if k < |sent| - 1 {
      WireHolds(sent[..|sent| - 1], k, i);
    } else {
      WireUpToHolds(sent[k], |sent[k].pieces|, i);
    }
  }

  lemma {:induction false} EncodedOnly(chunks: seq<Chunk>, raw: Data) returns (c: Chunk)
    requires raw in EncodeAll(chunks)
    ensures c in chunks && raw == Encode(c)
  {
    if raw == Encode(chunks[0]) { c := chunks[0]; } else { c := EncodedOnly(chunks[1..], raw); }
  }

  lemma {:induction false} EncodedHolds(chunks: seq<Chunk>, c: Chunk)
    requires c in chunks
    ensures Encode(c) in EncodeAll(chunks)
  {
    if c != chunks[0] { EncodedHolds(chunks[1..], c); }
  }

  /** The bytes handed out are the encoded chunks of the transmissions, and no others. */
  lemma WireIsTransmissions(sent: seq<Transmission>, raw: Data)
    ensures raw in EncodeAll(Wire(sent)) <==> OnWire(sent, raw)
  {
    if raw in EncodeAll(Wire(sent)) {
      var c := EncodedOnly(Wire(sent), raw);
      var k, i := WireOnly(sent, c);
      assert raw == RawAt(sent[k], i);
      assert Carries(sent[k], raw);
    }
    if OnWire(sent, raw) {
      var k :| 0 <= k < |sent| && Carries(sent[k], raw);
      var i :| 0 <= i < |sent[k].pieces| && raw == RawAt(sent[k], i);
      WireHolds(sent, k, i);
      EncodedHolds(Wire(sent), ChunkAt(sent[k], i));
    }
  }

  /** What arrives are chunks the run handed out, ids never repeat, indices never repeat. */
  ghost predicate HonestRun(ids: seq<Draw>, ops: seq<SendOp>, events: seq<Event>)
  {
    var sent := SentBy(ids, ops);
    && Distinct(Supply(ids))
    && (forall k | 0 <= k < |sent| :: |sent[k].pieces| <= TWO32)
    && (forall a | 0 <= a < |events| && events[a].Arrive? :: events[a].raw in EncodeAll(RunSender(ids, ops).1))
  }

  lemma HonestRunIsGood(ids: seq<Draw>, ops: seq<SendOp>, events: seq<Event>)
    requires HonestRun(ids, ops, events)
    ensures GoodHistory(SentBy(ids, ops)) && FromWire(SentBy(ids, ops), events)
  {
    RunKeeps(ids, ops);
    var s := RunSender(ids, ops).0;
    var sent := SentBy(ids, ops);
    forall j, k | 0 <= j < k < |sent| ensures sent[j].id != sent[k].id {
      DistinctPrefix(sent, Supply(s.ids), j, k);
    }
    forall k | 0 <= k < |sent| ensures GoodTransmission(sent[k]) {
      SentIsCut(s, k);
      CutIsGood(sent[k]);
    }
    forall a | 0 <= a < |events| && events[a].Arrive? ensures OnWire(sent, events[a].raw) {
      WireIsTransmissions(sent, events[a].raw);
    }
  }

  /** The end-to-end promise. For every run of the broadcaster with distinct ids and at most 2^32
      chunks per message, and every sequence of events made of its chunks in any order,
      multiplicity and interleaving and of clean-ups at any time:
      - transmissions are the submitted messages, in order;
      - a chunk is answered with its message, byte for byte, exactly when it is the last missing
        one since the message was last forgotten, with an error if the message was empty, not at
        all if the message has 2^32 chunks, and with nothing otherwise;
      - a message is handed out exactly as often as all of it was there. */
  lemma EndToEnd(ids: seq<Draw>, ops: seq<SendOp>, events: seq<Event>)
    requires HonestRun(ids, ops, events)
    ensures var sent := SentBy(ids, ops);
            && Messages(sent) + RunSender(ids, ops).0.backlog == Submitted(ops)
            && (forall a, k | 0 <= a < |events| && events[a].Arrive?
                              && 0 <= k < |sent| && Carries(sent[k], events[a].raw) ::
                  ReceiptFor(events[..a], events[a].raw, events[a].at) ==
                  Promised(sent[k], EpochOf(sent[k], events[..a]).arrivals, events[a].raw))
            && (forall k | 0 <= k < |sent| ::
                  Deliveries(sent[k], events) ==
                  if sent[k].msg != [] && |sent[k].pieces| < TWO32 then TimesWhole(sent[k], events) else 0)
  {
    RunKeeps(ids, ops);
    HonestRunIsGood(ids, ops, events);
    var sent := SentBy(ids, ops);
    forall a, k | 0 <= a < |events| && events[a].Arrive? && 0 <= k < |sent| && Carries(sent[k], events[a].raw)
      ensures ReceiptFor(events[..a], events[a].raw, events[a].at) ==
              Promised(sent[k], EpochOf(sent[k], events[..a]).arrivals, events[a].raw)
    {
      ReceiptAsPromised(sent, events[..a], events[a].raw, events[a].at, k);
    }
    forall k | 0 <= k < |sent|
      ensures Deliveries(sent[k], events) ==
              if sent[k].msg != [] && |sent[k].pieces| < TWO32 then TimesWhole(sent[k], events) else 0
    {
      DeliveredAsOftenAsWhole(sent, events, k);
    }
  }

  /** With nothing left to send, every message that is not empty has been sent whole. */
  lemma AllSent(ids: seq<Draw>, ops: seq<SendOp>, k: nat)
    requires var s := RunSender(ids, ops).0; s.backlog == [] && s.current == []
    requires k < |Submitted(ops)| && Submitted(ops)[k] != []
    ensures var sent := SentBy(ids, ops);
            k < |sent| && sent[k].msg == Submitted(ops)[k] && sent[k].done
  {
    RunKeeps(ids, ops);
    var s := RunSender(ids, ops).0;
    var sent := SentBy(ids, ops);
    assert Messages(sent) == Submitted(ops);
    if sent != [] { At(sent, 0); }
    At(sent, k);
    if k < |s.past| { assert Finished(s.past[k]); }
  }

  /** Once the broadcaster has nothing left and every chunk has arrived at least once, every
      submitted message that is not empty, has fewer than 2^32 chunks and was never forgotten has
      been handed out exactly once. */
  lemma EverythingArrives(ids: seq<Draw>, ops: seq<SendOp>, events: seq<Event>, k: nat)
    requires HonestRun(ids, ops, events)
    requires var (s, wire) := RunSender(ids, ops);
             && s.backlog == [] && s.current == []
             && (forall raw | raw in EncodeAll(wire) :: raw in Arrivals(events))
    requires k < |Submitted(ops)| && Submitted(ops)[k] != []
    requires var sent := SentBy(ids, ops);
             k < |sent| ==> |sent[k].pieces| < TWO32 && NeverForgotten(sent[k], events)
    ensures var sent := SentBy(ids, ops);
            && k < |sent| && sent[k].msg == Submitted(ops)[k]
            && Deliveries(sent[k], events) == 1
  {
    AllSent(ids, ops, k);
    RunKeeps(ids, ops);
    HonestRunIsGood(ids, ops, events);
    var sent := SentBy(ids, ops);
    forall i | 0 <= i < |sent[k].pieces| ensures RawAt(sent[k], i) in Arrivals(events) {
      assert Carries(sent[k], RawAt(sent[k], i));
      WireIsTransmissions(sent, RawAt(sent[k], i));
    }
    NeverForgottenOnce(sent[k], events);
    DeliveredAsOftenAsWhole(sent, events, k);
  }
}
