// What one end of the reliability protocol does, as functions on its state
// (browser/js/reliable.js, ReliableChannel). The class in ReliableChannel.dfy is proved against them.
module Channel {
  import opened Octets
  import opened Codec

  const CRITICAL: nat := 0
  const BEST_EFFORT: nat := 1

  /** A frame the sender still keeps, encoded once and for all. */
  datatype Entry = Entry(seqNo: nat, priority: nat, encoded: bytes)

  /** A data frame as the receiver sees it. */
  datatype Item = Item(payload: bytes, seqNo: nat, priority: nat)

  /** One call of onmessage. */
  datatype Message = Message(data: bytes, seqNo: nat, priority: nat)

  datatype State = State(
    maxBuffer: nat, maxFrame: nat,
    nextSeq: nat, sendBuffer: seq<Entry>, lastAck: nat, dupAcks: nat,
    lastContiguous: nat, reorder: map<nat, Item>, ackPending: bool, assembly: seq<bytes>)

  /** The effects of one operation: new state, bytes given to the transport, frames handed up in order, messages
      delivered. */
  datatype Outcome = Outcome(state: State, wire: seq<bytes>, handed: seq<Item>, messages: seq<Message>)

  function Quiet(c: State): Outcome { Outcome(c, [], [], []) }

  function Init(maxBuffer: nat, maxFrame: nat): State {
    State(maxBuffer, maxFrame, 1, [], 0, 0, 0, map[], false, [])
  }

  // ---- Sending ----

  const TAG_STANDALONE: byte := 0x00
  const TAG_FIRST: byte := 0x01
  const TAG_MIDDLE: byte := 0x02
  const TAG_LAST: byte := 0x03

  /** The tagged pieces of a payload from offset on. */
  function Pieces(payload: bytes, maxFrame: nat, offset: nat): seq<bytes>
    requires maxFrame >= 1 && offset <= |payload|
    decreases |payload| - offset
  {
    if offset == |payload| then []
    else
      var end := if offset + maxFrame < |payload| then offset + maxFrame else |payload|;
      var tag := if offset == 0 then TAG_FIRST else if end == |payload| then TAG_LAST else TAG_MIDDLE;
      [[tag] + payload[offset..end]] + Pieces(payload, maxFrame, end)
  }

  function Fragments(payload: bytes, maxFrame: nat): seq<bytes>
    requires maxFrame >= 1
  {
    if |payload| <= maxFrame then [[TAG_STANDALONE] + payload] else Pieces(payload, maxFrame, 0)
  }

  /** Eviction under buffer pressure: from the front, only best-effort or acknowledged frames. */
  function Evict(buffer: seq<Entry>, maxBuffer: nat, lastAck: nat): seq<Entry> {
    if |buffer| > maxBuffer && (buffer[0].priority == BEST_EFFORT || buffer[0].seqNo <= lastAck)
    then Evict(buffer[1..], maxBuffer, lastAck)
    else buffer
  }

  /** clock gives the sender's clock at the moment it numbers a frame. */
  function SendOne(c: State, payload: bytes, priority: nat, clock: nat -> int): Outcome {
    var encoded := DataBytes(c.nextSeq, clock(c.nextSeq), priority, payload);
    var buffer := Evict(c.sendBuffer + [Entry(c.nextSeq, priority, encoded)], c.maxBuffer, c.lastAck);
    Outcome(c.(nextSeq := c.nextSeq + 1, sendBuffer := buffer), [encoded], [], [])
  }

  function SendAll(c: State, frames: seq<bytes>, priority: nat, clock: nat -> int): Outcome
    decreases |frames|
  {
    if frames == [] then Quiet(c)
    else
      var init := SendAll(c, frames[..|frames| - 1], priority, clock);
      var last := SendOne(init.state, frames[|frames| - 1], priority, clock);
      Outcome(last.state, init.wire + last.wire, [], [])
  }

  function Send(c: State, payload: bytes, priority: nat, clock: nat -> int): Outcome
    requires c.maxFrame >= 1
  {
    SendAll(c, Fragments(payload, c.maxFrame), priority, clock)
  }

  // ---- Receiving data ----

  /** The frames released by the reorder buffer once everything up to last has been taken. */
  function Drain(last: nat, reorder: map<nat, Item>): (run: seq<Item>)
    decreases |reorder|
  {
    if last + 1 in reorder
    then [reorder[last + 1]] + Drain(reorder[last + 1].seqNo, reorder - {last + 1})
    else []
  }

  /** What the drained frames leave behind. */
  function DrainedReorder(last: nat, reorder: map<nat, Item>): map<nat, Item>
    decreases |reorder|
  {
    if last + 1 in reorder
    then DrainedReorder(reorder[last + 1].seqNo, reorder - {last + 1})
    else reorder
  }

  /** Sequence, reorder buffer and released frames after one data frame. */
  datatype Accepted = Accepted(last: nat, reorder: map<nat, Item>, run: seq<Item>)

  function Accept(last: nat, reorder: map<nat, Item>, item: Item): Accepted {
    if item.seqNo <= last then Accepted(last, reorder, [])
    else if item.seqNo == last + 1 then
      var run := [item] + Drain(item.seqNo, reorder);
      Accepted(run[|run| - 1].seqNo, DrainedReorder(item.seqNo, reorder), run)
    else if item.seqNo in reorder then Accepted(last, reorder, [])
    else Accepted(last, reorder[item.seqNo := item], [])
  }

  function Flatten(pieces: seq<bytes>): bytes {
    if pieces == [] then [] else Flatten(pieces[..|pieces| - 1]) + pieces[|pieces| - 1]
  }

  /** Chunk assembly and deliveries. */
  datatype Processed = Processed(assembly: seq<bytes>, messages: seq<Message>)

  function ProcessChunk(assembly: seq<bytes>, item: Item): Processed {
    if item.payload == [] then Processed(assembly, [])
    else
      var tag, data := item.payload[0], item.payload[1..];
      if tag == TAG_STANDALONE then Processed(assembly, [Message(data, item.seqNo, item.priority)])
      else if tag == TAG_FIRST then Processed([data], [])
      else if tag == TAG_MIDDLE then Processed(assembly + [data], [])
      else if tag == TAG_LAST then Processed([], [Message(Flatten(assembly + [data]), item.seqNo, item.priority)])
      else Processed(assembly, [Message(item.payload, item.seqNo, item.priority)])
  }

  function Process(assembly: seq<bytes>, items: seq<Item>): Processed
    decreases |items|
  {
    if items == [] then Processed(assembly, [])
    else
      var init := Process(assembly, items[..|items| - 1]);
      var last := ProcessChunk(init.assembly, items[|items| - 1]);
      Processed(last.assembly, init.messages + last.messages)
  }

  function ReceiveData(c: State, item: Item): Outcome {
    var a := Accept(c.lastContiguous, c.reorder, item);
    var p := Process(c.assembly, a.run);
    Outcome(c.(ackPending := true, lastContiguous := a.last, reorder := a.reorder, assembly := p.assembly),
            [], a.run, p.messages)
  }

  // ---- Receiving acks and resumes ----

  /** Drops the acknowledged front of the buffer. */
  function Trim(buffer: seq<Entry>, ackSeq: nat): seq<Entry> {
    if buffer != [] && buffer[0].seqNo <= ackSeq then Trim(buffer[1..], ackSeq) else buffer
  }

  /** Encodings of the critical entries above a sequence number, in order. */
  function Replay(buffer: seq<Entry>, above: nat): seq<bytes>
    decreases |buffer|
  {
    if buffer == [] then []
    else
      var m := buffer[|buffer| - 1];
      Replay(buffer[..|buffer| - 1], above) + (if m.seqNo > above && m.priority == CRITICAL then [m.encoded] else [])
  }

  function ReceiveAck(c: State, ackSeq: nat): Outcome {
    if ackSeq > c.lastAck then Quiet(c.(lastAck := ackSeq, sendBuffer := Trim(c.sendBuffer, ackSeq), dupAcks := 0))
    else if ackSeq == c.lastAck && c.sendBuffer != [] then
      if c.dupAcks + 1 >= 3 then Outcome(c.(dupAcks := 0), Replay(c.sendBuffer, ackSeq), [], [])
      else Quiet(c.(dupAcks := c.dupAcks + 1))
    else Quiet(c)
  }

  /** The remote end claims frames this end never numbered. */
  predicate ResumeAhead(c: State, n: nat) { n >= c.nextSeq }

  /** The send buffer does not reach down to the first frame the remote end is missing. */
  predicate ResumeStale(c: State, n: nat) {
    n < c.nextSeq && (c.sendBuffer == [] || c.sendBuffer[0].seqNo > n + 1)
  }

  predicate ResumeNormal(c: State, n: nat) { !ResumeAhead(c, n) && !ResumeStale(c, n) }

  function HandleResume(c: State, n: nat): Outcome {
    if ResumeAhead(c, n) then
      Quiet(c.(lastAck := n, nextSeq := n + 1, sendBuffer := [], lastContiguous := 0, reorder := map[]))
    else if ResumeStale(c, n) then
      Quiet(c.(lastAck := n, nextSeq := n + 1, sendBuffer := [], lastContiguous := n, reorder := map[]))
    else
      Outcome(c.(lastAck := n, sendBuffer := Trim(c.sendBuffer, n)), Replay(c.sendBuffer, n), [], [])
  }

  function Receive(c: State, data: bytes): Outcome {
    match Decode(data)
    case None => Quiet(c)
    case Some(Data(seqNo, _, _, priority, payload)) => ReceiveData(c, Item(payload, seqNo, priority))
    case Some(Ack(ackSeq, _)) => ReceiveAck(c, ackSeq)
    case Some(Resume(n)) => HandleResume(c, n)
  }

  // ---- Timers and resets ----

  function Window(c: State): nat {
    if c.maxBuffer >= |c.reorder| then c.maxBuffer - |c.reorder| else 0
  }

  function Tick(c: State): Outcome {
    if c.ackPending
    then Outcome(c.(ackPending := false), [AckBytes(c.lastContiguous, Window(c))], [], [])
    else Quiet(c)
  }

  function SendResume(c: State): Outcome { Outcome(c, [ResumeBytes(c.lastContiguous)], [], []) }

  function Reset(c: State): Outcome {
    Quiet(c.(nextSeq := 1, sendBuffer := [], lastAck := 0, lastContiguous := 0, reorder := map[],
             ackPending := false, assembly := []))
  }

  /** What the connection manager does to the channel when a ws transport opens. */
  function WsOpen(c: State): Outcome {
    SendResume(c.(nextSeq := 1, sendBuffer := [], lastAck := 0, lastContiguous := 0, reorder := map[]))
  }
}
