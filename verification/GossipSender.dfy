/** The chunk format of the gossip layer and the sending half of it (app/gossip/broadcaster.go). */
module GossipSender {
  import opened Bytes

  const VERSION: Byte := 1
  const FINAL_CHUNK: Byte := 1
  const ID_LEN := 16
  const HEADER_LEN := 22 // [version][message id][index][final]

  type Id = s: seq<Byte> | |s| == ID_LEN witness seq(ID_LEN, _ => 0)
  type Index = n: nat | n < TWO32
  type Data = seq<Byte>

  datatype Chunk = Chunk(msgID: Id, index: Index, final: Byte, data: Data)

  function Header(id: Id, index: Index, final: Byte): (h: Data)
    ensures |h| == HEADER_LEN
  {
    [VERSION] + id + BigEndian32(index) + [final]
  }

  function Encode(c: Chunk): (raw: Data)
    ensures |raw| == HEADER_LEN + |c.data|
  {
    Header(c.msgID, c.index, c.final) + c.data
  }

  function ParseChunk(raw: Data): (r: Option<Chunk>)
  {
    if |raw| <= HEADER_LEN || raw[0] != VERSION then None
    else Some(Chunk(raw[1..17], FromBigEndian32(raw[17..21]), raw[21], raw[HEADER_LEN..]))
  }

  /** The fields of a chunk, one behind the other. */
  lemma Fields(raw: Data)
    requires |raw| > HEADER_LEN
    ensures raw == [raw[0]] + raw[1..17] + raw[17..21] + [raw[21]] + raw[HEADER_LEN..]
  {
    var ab, abc := raw[..17], raw[..21];
    assert ab == [raw[0]] + raw[1..17];
    assert abc == ab + raw[17..21];
    assert raw[..HEADER_LEN] == abc + [raw[21]];
    assert raw == raw[..HEADER_LEN] + raw[HEADER_LEN..];
  }

  /** Parsing inverts encoding: a byte string parses to c exactly when it is the encoding
      of c, and the payload of c is not empty. */
  lemma ParseInvertsEncode(raw: Data, c: Chunk)
    ensures ParseChunk(raw) == Some(c) <==> c.data != [] && raw == Encode(c)
  {
    if ParseChunk(raw) == Some(c) {
      BigEndian32Canonical(raw[17..21]);
      Fields(raw);
    }
    if c.data != [] && raw == Encode(c) {
      assert raw[1..17] == c.msgID && raw[17..21] == BigEndian32(c.index);
      assert raw[21] == c.final && raw[HEADER_LEN..] == c.data;
    }
  }

  /** Byte by byte: version, message id, index with its highest byte first, final mark, payload. */
  lemma Layout(c: Chunk)
    ensures var (raw, i) := (Encode(c), c.index);
            && raw[0] == 1 && raw[1..17] == c.msgID
            && raw[17] == i / 0x100_0000 && raw[18] == i / 0x1_0000 % 256
            && raw[19] == i / 256 % 256 && raw[20] == i % 256
            && raw[21] == c.final && raw[22..] == c.data
  {
    BigEndian32Bytes(c.index);
    assert Encode(c)[17..21] == BigEndian32(c.index);
  }

  /** A header with nothing behind it is refused. */
  lemma HeaderOnlyIsMalformed(c: Chunk)
    requires c.data == []
    ensures ParseChunk(Encode(c)) == None
  {
  }

  /** Different chunks have different encodings, with or without a payload. */
  lemma EncodeInjective(c: Chunk, c': Chunk)
    requires Encode(c) == Encode(c')
    ensures c == c'
  {
    var raw := Encode(c);
    assert raw[1..17] == c.msgID == c'.msgID;
    assert raw[17..21] == BigEndian32(c.index) == BigEndian32(c'.index);
    assert raw[21] == c.final == c'.final;
    assert raw[HEADER_LEN..] == c.data == c'.data;
  }

  // ---------- What a broadcaster has put on the wire ----------

  /** One message taken from the backlog: the pieces it has been cut into so far, and
      whether the last of them went out marked final. */
  datatype Transmission = Transmission(id: Id, msg: Data, pieces: seq<Data>, done: bool)

  function Concat(pieces: seq<Data>): (d: Data)
  {
    if pieces == [] then [] else Concat(pieces[..|pieces| - 1]) + pieces[|pieces| - 1]
  }

  /** Chunk i of t; indices are 32 bits wide and wrap around. */
  function ChunkAt(t: Transmission, i: nat): (c: Chunk)
    requires i < |t.pieces|
  {
    Chunk(t.id, i % TWO32, if t.done && i == |t.pieces| - 1 then FINAL_CHUNK else 0, t.pieces[i])
  }

  /** The first n chunks of t. */
  function WireUpTo(t: Transmission, n: nat): (w: seq<Chunk>)
    requires n <= |t.pieces|
  {
    if n == 0 then [] else WireUpTo(t, n - 1) + [ChunkAt(t, n - 1)]
  }

  function WireOf(t: Transmission): (w: seq<Chunk>)
  {
    WireUpTo(t, |t.pieces|)
  }

  function Wire(sent: seq<Transmission>): (w: seq<Chunk>)
  {
    if sent == [] then [] else Wire(sent[..|sent| - 1]) + WireOf(sent[|sent| - 1])
  }

  function Messages(sent: seq<Transmission>): (r: seq<Data>)
  {
    if sent == [] then [] else Messages(sent[..|sent| - 1]) + [sent[|sent| - 1].msg]
  }

  function Drawn(sent: seq<Transmission>): (r: seq<Id>)
  {
    if sent == [] then [] else Drawn(sent[..|sent| - 1]) + [sent[|sent| - 1].id]
  }

  lemma Snoc(sent: seq<Transmission>, t: Transmission)
    ensures Wire(sent + [t]) == Wire(sent) + WireOf(t)
    ensures Messages(sent + [t]) == Messages(sent) + [t.msg]
    ensures Drawn(sent + [t]) == Drawn(sent) + [t.id]
  {
    assert (sent + [t])[..|sent|] == sent;
  }

  /** Everything has been cut and sent, or there was nothing to send. */
  ghost predicate Finished(t: Transmission)
  {
    && (t.done ==> t.pieces != [] && Concat(t.pieces) == t.msg)
    && (!t.done ==> t.msg == [] && t.pieces == [])
    && (t.msg != [] ==> NoEmptyPiece(t))
    && (t.msg == [] ==> |t.pieces| <= 1)
  }

  ghost predicate NoEmptyPiece(t: Transmission)
  {
    forall i | 0 <= i < |t.pieces| :: t.pieces[i] != []
  }

  // ---------- The broadcaster on values ----------

  /** What idFunc does with the id it is given: fill it, or fail and leave something in it. */
  datatype Draw = Drew(id: Id) | Failed(left: Id)

  /** ids are the outcomes idFunc will give, in order; running out of them is a failure too. past
      and last are the history of transmissions. */
  datatype Sender = Sender(
    ids: seq<Draw>, backlog: seq<Data>, id: Id, index: Index, current: Data,
    past: seq<Transmission>, last: Option<Transmission>)

  function Sent(past: seq<Transmission>, last: Option<Transmission>): (sent: seq<Transmission>)
  {
    if last.Some? then past + [last.value] else past
  }

  function TakeNext(s: Sender): (r: (bool, Sender))
    requires s.backlog != []
  {
    if s.ids == [] then (false, s)
    else if s.ids[0].Failed? then (false, s.(ids := s.ids[1..], id := s.ids[0].left))
    else
      var id := s.ids[0].id;
      (true, Sender(s.ids[1..], s.backlog[1..], id, 0, s.backlog[0],
      Sent(s.past, s.last), Some(Transmission(id, s.backlog[0], [], false))))
  }

  function AddPiece(last: Option<Transmission>, piece: Data, final: bool): (r: Option<Transmission>)
  {
    if last.None? then None
    else Some(last.value.(pieces := last.value.pieces + [piece], done := final))
  }

  function CutChunk(s: Sender, maxLen: nat): (r: (Sender, Chunk))
  {
    var final := |s.current| <= maxLen;
    var n := if final then |s.current| else maxLen;
    (s.(current := s.current[n..], index := (s.index + 1) % TWO32,
     last := AddPiece(s.last, s.current[..n], final)),
     Chunk(s.id, s.index, if final then FINAL_CHUNK else 0, s.current[..n]))
  }

  /** One turn of the loop in chunks; None when the loop stops. */
  function CutOne(s: Sender, overhead: int, limit: int, total: int): (r: (Sender, Option<Chunk>))
    ensures r.1.Some? ==> |r.0.backlog| < |s.backlog|
                          || (r.0.backlog == s.backlog && |r.0.current| < |s.current|)
  {
    if total >= limit || (s.current == [] && s.backlog == []) then (s, None)
    else
      var (ok, s1) := if s.current == [] then TakeNext(s) else (true, s);
      var maxB := limit - total - overhead - HEADER_LEN;
      if !ok || maxB <= 0 then (s1, None)
      else var (s2, c) := CutChunk(s1, maxB); (s2, Some(c))
  }

  /** Bytes a chunk takes on the wire. */
  function Size(c: Chunk): (n: nat)
  {
    HEADER_LEN + |c.data|
  }

  function CutChunks(s: Sender, overhead: int, limit: int, total: int): (r: (Sender, seq<Chunk>))
    decreases |s.backlog|, |s.current|
  {
    var (s1, chunk) := CutOne(s, overhead, limit, total);
    if chunk.None? then (s1, [])
    else
      var (s2, cs) := CutChunks(s1, overhead, limit, total + overhead + Size(chunk.value));
      (s2, [chunk.value] + cs)
  }

  /** Bytes a list of chunks takes once every chunk carries its overhead. */
  function Cost(chunks: seq<Chunk>, overhead: int): (n: int)
  {
    if chunks == [] then 0 else Size(chunks[0]) + overhead + Cost(chunks[1..], overhead)
  }

  function EncodeAll(chunks: seq<Chunk>): (raw: seq<Data>)
    ensures |raw| == |chunks|
  {
    if chunks == [] then [] else [Encode(chunks[0])] + EncodeAll(chunks[1..])
  }

  /** From s on, with done handed out already, a call ends in end having handed out all. */
  ghost predicate LeadsTo(s: Sender, overhead: int, limit: int, total: int, done: seq<Data>,
                          end: Sender, all: seq<Data>)
  {
    var (s', cs) := CutChunks(s, overhead, limit, total);
    end == s' && all == done + EncodeAll(cs)
  }

  lemma LeadsOn(s: Sender, overhead: int, limit: int, total: int, done: seq<Data>,
                end: Sender, all: seq<Data>)
    requires LeadsTo(s, overhead, limit, total, done, end, all)
    ensures var (s1, chunk) := CutOne(s, overhead, limit, total);
            if chunk.None? then s1 == end && done == all
            else LeadsTo(s1, overhead, limit, total + overhead + Size(chunk.value),
                         done + [Encode(chunk.value)], end, all)
  {
    var (s1, chunk) := CutOne(s, overhead, limit, total);
    if chunk.Some? {
      var cs := CutChunks(s1, overhead, limit, total + overhead + Size(chunk.value)).1;
      assert EncodeAll([chunk.value] + cs) == [Encode(chunk.value)] + EncodeAll(cs);
    }
  }

  // ---------- Invariant of the broadcaster ----------

  /** The last transmission is the one being cut, and what is left of it is current. */
  ghost predicate Cutting(s: Sender)
  {
    && s.last.Some?
    && var t := s.last.value;
    && !t.done
    && t.id == s.id && s.index == |t.pieces| % TWO32
    && Concat(t.pieces) + s.current == t.msg
    && (s.current == [] ==> t.pieces == [])
    && NoEmptyPiece(t)
  }

  ghost predicate AllFinished(past: seq<Transmission>)
  {
    forall k | 0 <= k < |past| :: Finished(past[k])
  }

  ghost predicate Inv(s: Sender)
  {
    && AllFinished(s.past)
    && (s.current != [] ==> Cutting(s))
    && (s.current == [] && s.last.Some? ==> Finished(s.last.value))
  }

  function Supply(ids: seq<Draw>): (r: seq<Id>)
  {
    if ids == [] then [] else (if ids[0].Drew? then [ids[0].id] else []) + Supply(ids[1..])
  }

  /** Everything submitted and everything idFunc gives, in order, and all chunks sent. */
  datatype Account = Account(messages: seq<Data>, ids: seq<Id>, wire: seq<Chunk>)

  ghost function MessagesOf(s: Sender): (r: seq<Data>)
  {
    Messages(Sent(s.past, s.last)) + s.backlog
  }

  ghost function IdsOf(s: Sender): (r: seq<Id>)
  {
    Drawn(Sent(s.past, s.last)) + Supply(s.ids)
  }

  ghost function WireSoFar(s: Sender): (r: seq<Chunk>)
  {
    Wire(Sent(s.past, s.last))
  }

  ghost function AccountOf(s: Sender): (a: Account)
  {
    Account(MessagesOf(s), IdsOf(s), WireSoFar(s))
  }

  /** Messages stay in order, ids are used in order, and chunks join the wire. */
  ghost predicate Grows(a: Account, a': Account, chunks: seq<Chunk>)
  {
    a'.messages == a.messages && a'.ids == a.ids && a'.wire == a.wire + chunks
  }

  ghost predicate Extends(s: Sender, s': Sender, chunks: seq<Chunk>)
  {
    Inv(s') && Grows(AccountOf(s), AccountOf(s'), chunks)
  }

  lemma GrowsTransitive(a: Account, cs: seq<Chunk>, a': Account, cs': seq<Chunk>, a'': Account)
    requires Grows(a, a', cs) && Grows(a', a'', cs')
    ensures Grows(a, a'', cs + cs')
  {
    assert a.wire + cs + cs' == a.wire + (cs + cs');
  }

  lemma ExtendsTransitive(s: Sender, cs: seq<Chunk>, s': Sender, cs': seq<Chunk>, s'': Sender)
    requires Extends(s, s', cs) && Extends(s', s'', cs')
    ensures Extends(s, s'', cs + cs')
  {
    GrowsTransitive(AccountOf(s), cs, AccountOf(s'), cs', AccountOf(s''));
  }

  lemma TakeNextInv(s: Sender)
    requires Inv(s) && s.current == [] && s.backlog != []
    ensures var (ok, s') := TakeNext(s); Inv(s') && (ok ==> Cutting(s'))
  {
    assert AllFinished(Sent(s.past, s.last));
  }

  lemma TakeNextMessages(s: Sender)
    requires s.backlog != []
    ensures MessagesOf(TakeNext(s).1) == MessagesOf(s)
  {
    var (ok, s') := TakeNext(s);
    if ok {
      Snoc(s'.past, s'.last.value);
      assert s.backlog == [s.backlog[0]] + s'.backlog;
    }
  }

  lemma TakeNextIds(s: Sender)
    requires s.backlog != []
    ensures IdsOf(TakeNext(s).1) == IdsOf(s)
  {
    var (ok, s') := TakeNext(s);
    if ok {
      Snoc(s'.past, s'.last.value);
      assert Supply(s.ids) == [s'.id] + Supply(s'.ids);
    }
  }

  lemma TakeNextWire(s: Sender)
    requires s.backlog != []
    ensures WireSoFar(TakeNext(s).1) == WireSoFar(s)
  {
    var (ok, s') := TakeNext(s);
    if ok { Snoc(s'.past, s'.last.value); }
  }

  lemma TakeNextExtends(s: Sender)
    requires Inv(s) && s.current == [] && s.backlog != []
    ensures var (ok, s') := TakeNext(s); Extends(s, s', []) && (ok ==> Cutting(s'))
  {
    TakeNextInv(s);
    TakeNextMessages(s);
    TakeNextIds(s);
    TakeNextWire(s);
  }

  lemma {:induction false} WireUpToSame(t: Transmission, t': Transmission, n: nat)
    requires !t.done && n <= |t.pieces| < |t'.pieces| && t'.id == t.id
    requires t'.pieces[..|t.pieces|] == t.pieces
    ensures WireUpTo(t', n) == WireUpTo(t, n)
  {
    if n > 0 {
      WireUpToSame(t, t', n - 1);
      assert t'.pieces[n - 1] == t'.pieces[..|t.pieces|][n - 1];
    }
  }

  /** Adding a piece leaves the chunks sent before it as they were. */
  lemma AddPieceExtends(t: Transmission, piece: Data, final: bool)
    requires !t.done
    ensures var t' := t.(pieces := t.pieces + [piece], done := final);
            && Concat(t'.pieces) == Concat(t.pieces) + piece
            && WireOf(t') == WireOf(t) + [ChunkAt(t', |t.pieces|)]
  {
    var t' := t.(pieces := t.pieces + [piece], done := final);
    assert t'.pieces[..|t.pieces|] == t.pieces;
    WireUpToSame(t, t', |t.pieces|);
  }

  /** What becomes of the transmission being cut when its next piece goes out. */
  lemma NextPiece(t: Transmission, current: Data, n: nat, final: bool)
    requires !t.done && Concat(t.pieces) + current == t.msg && NoEmptyPiece(t)
    requires n <= |current|
    ensures var t' := t.(pieces := t.pieces + [current[..n]], done := final);
            Concat(t'.pieces) + current[n..] == t.msg && (n > 0 ==> NoEmptyPiece(t'))
  {
    AddPieceExtends(t, current[..n], final);
    assert current == current[..n] + current[n..];
    assert Concat(t.pieces) + current == Concat(t.pieces) + current[..n] + current[n..];
  }

  lemma CutChunkInv(s: Sender, maxLen: nat)
    requires Inv(s) && Cutting(s) && maxLen > 0
    ensures Inv(CutChunk(s, maxLen).0)
  {
    var s' := CutChunk(s, maxLen).0;
    var final := |s.current| <= maxLen;
    var n := if final then |s.current| else maxLen;
    NextPiece(s.last.value, s.current, n, final);
  }

  lemma CutChunkExtends(s: Sender, maxLen: nat)
    requires Inv(s) && Cutting(s) && maxLen > 0
    ensures var (s', c) := CutChunk(s, maxLen); Extends(s, s', [c])
  {
    CutChunkInv(s, maxLen);
    var (s', c) := CutChunk(s, maxLen);
    var t, t' := s.last.value, s'.last.value;
    AddPieceExtends(t, c.data, t'.done);
    Snoc(s.past, t);
    Snoc(s.past, t');
    assert Wire(s.past) + WireOf(t') == Wire(s.past) + WireOf(t) + [c];
  }

  function AsSeq(chunk: Option<Chunk>): (cs: seq<Chunk>)
  {
    if chunk.Some? then [chunk.value] else []
  }

  lemma CutOneExtends(s: Sender, overhead: int, limit: int, total: int)
    requires Inv(s)
    ensures var (s', chunk) := CutOne(s, overhead, limit, total);
            Extends(s, s', AsSeq(chunk))
  {
    if total >= limit || (s.current == [] && s.backlog == []) { return; }
    var maxB := limit - total - overhead - HEADER_LEN;
    if s.current != [] {
      if maxB > 0 { CutChunkExtends(s, maxB); }
    } else {
      TakeNextExtends(s);
      var (ok, s1) := TakeNext(s);
      if ok && maxB > 0 {
        CutChunkExtends(s1, maxB);
        var (s2, c) := CutChunk(s1, maxB);
        ExtendsTransitive(s, [], s1, [c], s2);
        assert [] + [c] == [c];
      }
    }
  }

  predicate Turn(s: Sender, overhead: int, limit: int, total: int, s': Sender, chunk: Option<Chunk>)
  {
    CutOne(s, overhead, limit, total) == (s', chunk)
  }

  /** What every turn of the loop keeps, the whole call keeps. */
  lemma {:induction false} CutChunksKeep(s: Sender, overhead: int, limit: int, total: int, done: seq<Chunk>,
                                         keeps: (Sender, seq<Chunk>) -> bool)
    requires keeps(s, done)
    requires forall s, done, total, s', chunk |
               keeps(s, done) && Turn(s, overhead, limit, total, s', chunk) :: keeps(s', done + AsSeq(chunk))
    ensures var (s', cs) := CutChunks(s, overhead, limit, total); keeps(s', done + cs)
    decreases |s.backlog|, |s.current|
  {
    var (s1, chunk) := CutOne(s, overhead, limit, total);
    assert Turn(s, overhead, limit, total, s1, chunk);
    assert keeps(s1, done + AsSeq(chunk));
    if chunk.Some? {
      var total' := total + overhead + Size(chunk.value);
      CutChunksKeep(s1, overhead, limit, total', done + [chunk.value], keeps);
      var cs := CutChunks(s1, overhead, limit, total').1;
      assert done + [chunk.value] + cs == done + ([chunk.value] + cs);
    }
  }

  /** One call of chunks, whatever the overhead and the limit. */
  lemma CutChunksExtends(s: Sender, overhead: int, limit: int, total: int)
    requires Inv(s)
    ensures var (s', cs) := CutChunks(s, overhead, limit, total); Extends(s, s', cs)
  {
    var keeps := (s': Sender, cs: seq<Chunk>) => Extends(s, s', cs);
    forall s', cs, total, s'', chunk | keeps(s', cs) && Turn(s', overhead, limit, total, s'', chunk)
      ensures keeps(s'', cs + AsSeq(chunk))
    {
      CutOneExtends(s', overhead, limit, total);
      ExtendsTransitive(s, cs, s', AsSeq(chunk), s'');
    }
    assert WireSoFar(s) + [] == WireSoFar(s);
    CutChunksKeep(s, overhead, limit, total, [], keeps);
    var cs := CutChunks(s, overhead, limit, total).1;
    assert [] + cs == cs;
  }

  /** Messages stay in order and ids are used in order. */
  lemma CutChunksInOrder(s: Sender, overhead: int, limit: int, total: int)
    requires Inv(s)
    ensures var s' := CutChunks(s, overhead, limit, total).0; MessagesOf(s') == MessagesOf(s) && IdsOf(s') == IdsOf(s)
  {
    CutChunksExtends(s, overhead, limit, total);
  }

  /** What a call hands out joins the wire. */
  lemma CutChunksWire(s: Sender, overhead: int, limit: int, total: int)
    requires Inv(s)
    ensures var (s', cs) := CutChunks(s, overhead, limit, total); WireSoFar(s') == WireSoFar(s) + cs
  {
    CutChunksExtends(s, overhead, limit, total);
  }

  /** A call never hands out more than its limit, overhead included. */
  lemma {:induction false} CutChunksFitLimit(s: Sender, overhead: int, limit: int, total: int)
    ensures var (_, cs) := CutChunks(s, overhead, limit, total);
            cs != [] ==> total + Cost(cs, overhead) <= limit
    decreases |s.backlog|, |s.current|
  {
    var (s1, chunk) := CutOne(s, overhead, limit, total);
    if chunk.Some? {
      CutChunksFitLimit(s1, overhead, limit, total + overhead + Size(chunk.value));
    }
  }

  /** Pieces are as large as they can be: one that does not end its message fills the limit to the
      last byte, and ends the call. */
  ghost predicate Filled(cs: seq<Chunk>, overhead: int, limit: int, total: int)
  {
    forall j | 0 <= j < |cs| && cs[j].final != 1 ::
      cs[j].final == 0 && j == |cs| - 1 && total + Cost(cs, overhead) == limit
  }

  lemma {:induction false} CutChunksFilled(s: Sender, overhead: int, limit: int, total: int)
    ensures Filled(CutChunks(s, overhead, limit, total).1, overhead, limit, total)
    decreases |s.backlog|, |s.current|
  {
    var (s1, chunk) := CutOne(s, overhead, limit, total);
    if chunk.Some? {
      var total' := total + overhead + Size(chunk.value);
      CutChunksFilled(s1, overhead, limit, total');
      FilledCons(chunk.value, CutChunks(s1, overhead, limit, total').1, overhead, limit, total);
    }
  }

  lemma FilledCons(c: Chunk, cs: seq<Chunk>, overhead: int, limit: int, total: int)
    requires Filled(cs, overhead, limit, total + overhead + Size(c))
    requires c.final != 1 ==> c.final == 0 && cs == [] && total + overhead + Size(c) == limit
    ensures Filled([c] + cs, overhead, limit, total)
  {
    var all := [c] + cs;
    assert all[1..] == cs;
    forall j | 0 <= j < |all| && all[j].final != 1
      ensures all[j].final == 0 && j == |all| - 1 && total + Cost(all, overhead) == limit
    {
      if j > 0 { assert cs[j - 1] == all[j]; }
    }
  }

  /** Enough ids will be drawn for the backlog. */
  predicate Supplied(s: Sender)
  {
    |s.ids| >= |s.backlog| && forall k | 0 <= k < |s.ids| :: s.ids[k].Drew?
  }

  /** With ids enough, a turn of the loop only stops it when nothing is left or nothing fits. */
  lemma CutOneStops(s: Sender, overhead: int, limit: int, total: int)
    requires Supplied(s)
    ensures var (s1, chunk) := CutOne(s, overhead, limit, total);
            && Supplied(s1)
            && (chunk.None? ==> || total >= limit || total + overhead + HEADER_LEN >= limit
                                || (s1.current == [] && s1.backlog == []))
  {
  }

  /** Chunking goes on while there is something to send and room for one byte of it:
      if no id fails, a call stops only when less room than that or nothing is left. */
  lemma {:induction false} CutChunksFillLimit(s: Sender, overhead: int, limit: int, total: int)
    requires Supplied(s)
    ensures var (s', cs) := CutChunks(s, overhead, limit, total);
            var used := total + Cost(cs, overhead);
            || used >= limit
            || used + overhead + HEADER_LEN >= limit
            || (s'.current == [] && s'.backlog == [])
    decreases |s.backlog|, |s.current|
  {
    CutOneStops(s, overhead, limit, total);
    var (s1, chunk) := CutOne(s, overhead, limit, total);
    if chunk.Some? {
      CutChunksFillLimit(s1, overhead, limit, total + overhead + Size(chunk.value));
    }
  }

  /** The broadcaster as it is: fields updated under its lock. */
  class Broadcaster {
    var ids: seq<Draw>
    var backlog: seq<Data>
    var currentMsgID: Id
    var currentIndex: Index
    var currentMsg: Data
    ghost var past: seq<Transmission>
    ghost var last: Option<Transmission>

    ghost function View(): (s: Sender)
      reads this
    {
      Sender(ids, backlog, currentMsgID, currentIndex, currentMsg, past, last)
    }

    constructor (ids: seq<Draw>)
      ensures this.ids == ids && backlog == [] && currentMsg == [] && Sent(past, last) == []
      ensures Inv(View())
    {
      this.ids := ids;
      backlog, currentMsgID, currentIndex, currentMsg := [], seq(ID_LEN, _ => 0), 0, [];
      past, last := [], None;
    }

    method Message(msg: Data)
      modifies this`backlog
      ensures View() == old(View()).(backlog := old(backlog) + [msg])
    {
      backlog := backlog + [msg];
    }

    method NextMessage() returns (ok: bool)
      requires backlog != []
      modifies this
      ensures (ok, View()) == TakeNext(old(View()))
    {
      if ids == [] { return false; }
      var outcome := ids[0];
      ids := ids[1..];
      currentMsgID := if outcome.Drew? then outcome.id else outcome.left;
      if outcome.Failed? { return false; }
      currentIndex := 0;
      currentMsg := backlog[0];
      past, last := Sent(past, last), Some(Transmission(currentMsgID, currentMsg, [], false));
      backlog := backlog[1..];
      ok := true;
    }

    method MessageChunk(maxLen: nat) returns (chunk: Data)
      modifies this
      ensures var (s, c) := CutChunk(old(View()), maxLen); View() == s && chunk == Encode(c)
    {
      var n, final: Byte := maxLen, 0;
      if |currentMsg| <= maxLen {
        n := |currentMsg|;
        final := FINAL_CHUNK;
      }
      chunk := Header(currentMsgID, currentIndex, final) + currentMsg[..n];
      last := AddPiece(last, currentMsg[..n], final == FINAL_CHUNK);
      currentMsg := currentMsg[n..];
      currentIndex := (currentIndex + 1) % TWO32;
    }

    /** The body of the loop in Chunks. */
    method NextChunk(overhead: int, limit: int, total: int) returns (chunk: Option<Data>)
      requires total < limit
      modifies this
      ensures var (s, c) := CutOne(old(View()), overhead, limit, total);
              View() == s && chunk == if c.Some? then Some(Encode(c.value)) else None
    {
      if |currentMsg| == 0 {
        if |backlog| == 0 { return None; }
        var ok := NextMessage();
        if !ok { return None; }
      }
      var maxB := limit - total - overhead - HEADER_LEN;
      if maxB <= 0 { return None; }
      var c := MessageChunk(maxB);
      chunk := Some(c);
    }

    /** The loop in Chunks. */
    method CutAll(overhead: int, limit: int, ghost end: Sender, ghost all: seq<Data>) returns (chunks: seq<Data>)
      requires LeadsTo(View(), overhead, limit, 0, [], end, all)
      modifies this
      ensures View() == end && chunks == all
    {
      ghost var s := View();
      chunks := [];
      var total := 0;
      while total < limit
        invariant s == View() && LeadsTo(s, overhead, limit, total, chunks, end, all)
        decreases |backlog|, |currentMsg|
      {
        LeadsOn(s, overhead, limit, total, chunks, end, all);
        var chunk := NextChunk(overhead, limit, total);
        s := View();
        if chunk.None? { return; }
        chunks := chunks + [chunk.value];
        total := total + overhead + |chunk.value|;
      }
      LeadsOn(s, overhead, limit, total, chunks, end, all);
    }

    method Chunks(overhead: int, limit: int) returns (chunks: seq<Data>)
      modifies this
      ensures var (s, cs) := CutChunks(old(View()), overhead, limit, 0);
              && View() == s && chunks == EncodeAll(cs)
              && (cs != [] ==> Cost(cs, overhead) <= limit) && Filled(cs, overhead, limit, 0)
    {
      ghost var (end, cs) := CutChunks(View(), overhead, limit, 0);
      CutChunksFitLimit(View(), overhead, limit, 0);
      CutChunksFilled(View(), overhead, limit, 0);
      assert [] + EncodeAll(cs) == EncodeAll(cs);
      chunks := CutAll(overhead, limit, end, EncodeAll(cs));
    }
  }
}
