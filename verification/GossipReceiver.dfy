/** The receiving half of the gossip layer (app/gossip/receiver.go). */
module GossipReceiver {
  import opened Bytes
  import opened GossipSender

  /** createdAt is the time the first chunk came in. */
  datatype ChunkedMsg = ChunkedMsg(chunks: map<nat, Data>, finalIndex: Option<Index>, createdAt: int)

  /** What one call of receiveChunk does: it returns an error, no message or a message, or it never
      returns. */
  datatype Receipt = Malformed | Nothing | Message(bytes: Data) | Hangs

  type Inbox = map<Id, ChunkedMsg>

  predicate Complete(m: ChunkedMsg)
  {
    m.finalIndex.Some? && forall i | 0 <= i <= m.finalIndex.value :: i in m.chunks
  }

  /** All 2^32 chunks a message can have are there. A 32-bit index never gets past the last one, so
      a loop over them does not end. */
  predicate Endless(m: ChunkedMsg)
  {
    Complete(m) && m.finalIndex.value == TWO32 - 1
  }

  function Assemble(chunks: map<nat, Data>, n: nat): (d: Data)
    requires forall i | 0 <= i < n :: i in chunks
  {
    if n == 0 then [] else Assemble(chunks, n - 1) + chunks[n - 1]
  }

  function Store(m: ChunkedMsg, c: Chunk): (m': ChunkedMsg)
  {
    m.(chunks := m.chunks[c.index := c.data],
       finalIndex := if c.final == FINAL_CHUNK then Some(c.index) else m.finalIndex)
  }

  function Found(inbox: Inbox, id: Id, now: int): (m: ChunkedMsg)
  {
    if id in inbox then inbox[id] else ChunkedMsg(map[], None, now)
  }

  /** What is handed out of a message. */
  function HandOut(m: ChunkedMsg): (r: Receipt)
  {
    if Endless(m) then Hangs
    else if Complete(m) then Message(Assemble(m.chunks, m.finalIndex.value + 1))
    else Nothing
  }

  function Accept(inbox: Inbox, c: Chunk, now: int): (r: (Inbox, Receipt))
  {
    var m := Found(inbox, c.msgID, now);
    if Complete(m) then (inbox, if Endless(m) then Hangs else Nothing)
    else var m' := Store(m, c); (inbox[c.msgID := m'], HandOut(m'))
  }

  function Receive(inbox: Inbox, raw: Data, now: int): (r: (Inbox, Receipt))
  {
    var parsed := ParseChunk(raw);
    if parsed.None? then (inbox, Malformed) else Accept(inbox, parsed.value, now)
  }

  /** A chunk of a message that is not complete is stored under its index, the latest of several with
      the same, and makes its index the final one exactly if it is marked with 1. Nothing else
      changes. */
  lemma ReceiveStores(inbox: Inbox, c: Chunk, now: int)
    requires c.data != [] && !Complete(Found(inbox, c.msgID, now))
    ensures var m, inbox' := Found(inbox, c.msgID, now), Receive(inbox, Encode(c), now).0;
            && inbox'.Keys == inbox.Keys + {c.msgID}
            && (forall id | id in inbox && id != c.msgID :: inbox'[id] == inbox[id])
            && inbox'[c.msgID] == ChunkedMsg(m.chunks + map[c.index := c.data],
                                             if c.final == 1 then Some(c.index) else m.finalIndex, m.createdAt)
  {
    ParseInvertsEncode(Encode(c), c);
    var m := Found(inbox, c.msgID, now);
    assert m.chunks + map[c.index := c.data] == m.chunks[c.index := c.data];
  }

  predicate Expired(m: ChunkedMsg, maxAge: int, now: int)
  {
    m.createdAt < now - maxAge
  }

  function Cleaned(inbox: Inbox, maxAge: int, now: int): (r: Inbox)
  {
    map id | id in inbox && !Expired(inbox[id], maxAge, now) :: inbox[id]
  }

  /** None when the loop does not end: its index wraps round to zero with every chunk found. */
  method IsComplete(m: ChunkedMsg) returns (complete: Option<bool>)
    ensures complete == if Endless(m) then None else Some(Complete(m))
  {
    if m.finalIndex == None { return Some(false); }
    var i := 0;
    while i <= m.finalIndex.value
      invariant 0 <= i <= m.finalIndex.value + 1
      invariant i < TWO32
      invariant forall j | 0 <= j < i :: j in m.chunks
    {
      if i !in m.chunks { return Some(false); }
      if i == TWO32 - 1 { return None; }
      i := i + 1;
    }
    return Some(true);
  }

  method AssembledBytes(m: ChunkedMsg) returns (r: Receipt)
    ensures r == HandOut(m)
  {
    if m.finalIndex == None { return Nothing; }
    var bytes := [];
    var i := 0;
    while i <= m.finalIndex.value
      invariant 0 <= i <= m.finalIndex.value + 1
      invariant i < TWO32
      invariant forall j | 0 <= j < i :: j in m.chunks
      invariant bytes == Assemble(m.chunks, i)
    {
      if i !in m.chunks { return Nothing; }
      if i == TWO32 - 1 { return Hangs; }
      bytes := bytes + m.chunks[i];
      i := i + 1;
    }
    return Message(bytes);
  }

  class Receiver {
    var messages: Inbox

    constructor ()
      ensures messages == map[]
    {
      messages := map[];
    }

    method ReceiveChunk(raw: Data, now: int) returns (receipt: Receipt)
      modifies this
      ensures (messages, receipt) == Receive(old(messages), raw, now)
    {
      var parsed := ParseChunk(raw);
      if parsed.None? { return Malformed; }
      var c := parsed.value;
      var m := ChunkedMsg(map[], None, now);
      if c.msgID in messages { m := messages[c.msgID]; }
      var complete := IsComplete(m);
      if complete == None { return Hangs; }
      if complete == Some(true) { return Nothing; }
      m := m.(chunks := m.chunks[c.index := c.data]);
      if c.final == FINAL_CHUNK { m := m.(finalIndex := Some(c.index)); }
      messages := messages[c.msgID := m];
      complete := IsComplete(m);
      if complete == None { return Hangs; }
      if complete == Some(true) {
        receipt := AssembledBytes(m);
        return;
      }
      return Nothing;
    }

    method Cleanup(maxAge: int, now: int)
      modifies this
      ensures messages == Cleaned(old(messages), maxAge, now)
    {
      var todo := messages.Keys;
      while todo != {}
        invariant todo <= old(messages).Keys
        invariant messages == map id | id in old(messages) &&
                                       (id in todo || !Expired(old(messages)[id], maxAge, now)) :: old(messages)[id]
        decreases |todo|
      {
        var id :| id in todo;
        todo := todo - {id};
        if Expired(messages[id], maxAge, now) { messages := messages - {id}; }
      }
    }
  }
}
