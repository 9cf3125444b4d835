// The reliability protocol as the browser runs it: an object whose methods update its buffers and counters in place
// (browser/js/reliable.js, ReliableChannel). Every method is proved to do exactly what the functions of Channel.dfy
// say.
module Reliable {
  import opened Octets
  import opened Crc32
  import opened Codec
  import opened Channel
  import opened Messages

  class ReliableChannel {
    const table: array<bv32>
    const maxBuffer: nat
    const maxFramePayload: nat

    // Sending
    var nextSeq: nat
    var sendBuffer: seq<Entry>
    var lastAckReceived: nat
    var dupAckCount: nat

    // Receiving
    var lastContiguous: nat
    var reorderBuffer: map<nat, Item>
    var ackPending: bool
    var chunkAssembly: seq<bytes>

    // The calls made to the transport and to onmessage, and the frames handed to the chunk processor
    var wire: seq<bytes>
    var messages: seq<Message>
    ghost var handed: seq<Item>

    ghost predicate Valid()
      reads this, table
    {
      IsTable(table[..]) && maxFramePayload >= 1
    }

    ghost function View(): State
      reads this
    {
      State(maxBuffer, maxFramePayload, nextSeq, sendBuffer, lastAckReceived, dupAckCount,
            lastContiguous, reorderBuffer, ackPending, chunkAssembly)
    }

    /** The object is what an operation's outcome says, given the logs before the operation. */
    ghost predicate Did(o: Outcome, w: seq<bytes>, h: seq<Item>, m: seq<Message>)
      reads this
    {
      View() == o.state && wire == w + o.wire && handed == h + o.handed && messages == m + o.messages
    }

    constructor (table: array<bv32>, maxBuffer: nat, maxFramePayload: nat)
      requires IsTable(table[..]) && maxFramePayload >= 1
      ensures Valid() && View() == Init(maxBuffer, maxFramePayload) && this.table == table
      ensures wire == [] && handed == [] && messages == []
    {
      this.table := table;
      this.maxBuffer := maxBuffer;
      this.maxFramePayload := maxFramePayload;
      nextSeq, sendBuffer, lastAckReceived, dupAckCount := 1, [], 0, 0;
      lastContiguous, reorderBuffer, ackPending, chunkAssembly := 0, map[], false, [];
      wire, messages, handed := [], [], [];
    }

    method Transmit(encoded: bytes)
      modifies this`wire
      ensures wire == old(wire) + [encoded]
    {
      wire := wire + [encoded];
    }

    // ---- Sending ----

    method RelievePressure()
      modifies this`sendBuffer
      ensures sendBuffer == Evict(old(sendBuffer), maxBuffer, lastAckReceived)
    {
      while |sendBuffer| > maxBuffer
        invariant Evict(sendBuffer, maxBuffer, lastAckReceived) == Evict(old(sendBuffer), maxBuffer, lastAckReceived)
        decreases |sendBuffer|
      {
        var front := sendBuffer[0];
        if front.priority == BEST_EFFORT || front.seqNo <= lastAckReceived {
          sendBuffer := sendBuffer[1..];
        } else {
          break;
        }
      }
    }

    method SendOne(payload: bytes, priority: nat, clock: nat -> int)
      requires Valid()
      modifies this
      ensures Valid()
      ensures Did(Channel.SendOne(old(View()), payload, priority, clock), old(wire), old(handed), old(messages))
    {
      hide DataBytes, Evict;
      var seqNo := nextSeq;
      nextSeq := nextSeq + 1;
      var buf := EncodeData(table, seqNo, clock(seqNo), priority, payload);
      var encoded := buf[..];
      sendBuffer := sendBuffer + [Entry(seqNo, priority, encoded)];
      RelievePressure();
      Transmit(encoded);
    }

    method Send(payload: bytes, priority: nat, clock: nat -> int)
      requires Valid()
      modifies this
      ensures Valid() && Did(Channel.Send(old(View()), payload, priority, clock), old(wire), old(handed), old(messages))
    {
      hide Channel.SendOne;
      var maxChunk := maxFramePayload;
      ghost var frames := Fragments(payload, maxChunk);
      if |payload| <= maxChunk {
        var framed := [TAG_STANDALONE] + payload;
        SendOne(framed, priority, clock);
        assert frames == [framed];
        SendAllOne(old(View()), framed, priority, clock);
      } else {
        var offset := 0;
        var first := true;
        ghost var done: seq<bytes> := [];
        while offset < |payload|
          invariant 0 <= offset <= |payload| && first == (offset == 0)
          invariant frames == done + Pieces(payload, maxChunk, offset)
          invariant Valid() && Did(SendAll(old(View()), done, priority, clock), old(wire), old(handed), old(messages))
        {
          var end := if offset + maxChunk < |payload| then offset + maxChunk else |payload|;
          var isLast := end >= |payload|;
          var tag := if first then TAG_FIRST else if isLast then TAG_LAST else TAG_MIDDLE;
          var framed := [tag] + payload[offset..end];
          SendOne(framed, priority, clock);
          SendAllMore(old(View()), done, framed, priority, clock);
          assert done + Pieces(payload, maxChunk, offset) == (done + [framed]) + Pieces(payload, maxChunk, end);
          done := done + [framed];
          offset := end;
          first := false;
        }
        assert done + [] == done;
      }
    }

    // ---- Receiving ----

    method ProcessChunk(payload: bytes, seqNo: nat, priority: nat)
      requires Valid()
      modifies this`chunkAssembly, this`messages, this`handed
      ensures handed == old(handed) + [Item(payload, seqNo, priority)]
      ensures var p := Channel.ProcessChunk(old(chunkAssembly), Item(payload, seqNo, priority));
              chunkAssembly == p.assembly && messages == old(messages) + p.messages
    {
      handed := handed + [Item(payload, seqNo, priority)];
      if |payload| == 0 { return; }
      var tag := payload[0];
      var data := payload[1..];
      if tag == TAG_STANDALONE {
        messages := messages + [Message(data, seqNo, priority)];
      } else if tag == TAG_FIRST {
        chunkAssembly := [data];
      } else if tag == TAG_MIDDLE {
        chunkAssembly := chunkAssembly + [data];
      } else if tag == TAG_LAST {
        chunkAssembly := chunkAssembly + [data];
        var assembled := [];
        var i := 0;
        while i < |chunkAssembly|
          invariant 0 <= i <= |chunkAssembly| && assembled == Flatten(chunkAssembly[..i])
        {
          assert chunkAssembly[..i + 1][..i] == chunkAssembly[..i];
          assembled := assembled + chunkAssembly[i];
          i := i + 1;
        }
        assert chunkAssembly[..i] == chunkAssembly;
        chunkAssembly := [];
        messages := messages + [Message(assembled, seqNo, priority)];
      } else {
        messages := messages + [Message(payload, seqNo, priority)];
      }
    }

    /** Takes the next frame in order out of the reorder buffer. */
    method TakeWaiting() returns (next: Item)
      requires Valid() && lastContiguous + 1 in reorderBuffer
      modifies this`lastContiguous, this`reorderBuffer, this`chunkAssembly, this`messages, this`handed
      ensures next == old(reorderBuffer[lastContiguous + 1])
      ensures reorderBuffer == old(reorderBuffer) - {old(lastContiguous) + 1} && lastContiguous == next.seqNo
      ensures handed == old(handed) + [next]
      ensures var p := Channel.ProcessChunk(old(chunkAssembly), next);
              chunkAssembly == p.assembly && messages == old(messages) + p.messages
    {
      hide Channel.ProcessChunk;
      next := reorderBuffer[lastContiguous + 1];
      reorderBuffer := reorderBuffer - {lastContiguous + 1};
      lastContiguous := next.seqNo;
      ProcessChunk(next.payload, next.seqNo, next.priority);
    }

    /** Releases the frames that follow the contiguous count; terminates because each one leaves the buffer. */
    method DrainReorder()
      requires Valid()
      modifies this`lastContiguous, this`reorderBuffer, this`chunkAssembly, this`messages, this`handed
      ensures reorderBuffer == DrainedReorder(old(lastContiguous), old(reorderBuffer))
      ensures var run := Drain(old(lastContiguous), old(reorderBuffer));
              var p := Process(old(chunkAssembly), run);
              && lastContiguous == EndOf(run, old(lastContiguous))
              && handed == old(handed) + run && chunkAssembly == p.assembly && messages == old(messages) + p.messages
    {
      hide Channel.ProcessChunk, Process, EndOf, Drain, DrainedReorder;
      ghost var run: seq<Item> := [];
      ghost var p := Processed(chunkAssembly, []);
      ProcessNone(chunkAssembly);
      NothingTaken(lastContiguous);
      while lastContiguous + 1 in reorderBuffer
        invariant lastContiguous == EndOf(run, old(lastContiguous))
        invariant run + Drain(lastContiguous, reorderBuffer) == Drain(old(lastContiguous), old(reorderBuffer))
        invariant DrainedReorder(lastContiguous, reorderBuffer)
            == DrainedReorder(old(lastContiguous), old(reorderBuffer))
        invariant handed == old(handed) + run && p == Process(old(chunkAssembly), run)
        invariant chunkAssembly == p.assembly && messages == old(messages) + p.messages
        decreases |reorderBuffer|
      {
        DrainNext(lastContiguous, reorderBuffer, run);
        var next := TakeWaiting();
        ProcessMore(old(chunkAssembly), run, next);
        p := Process(old(chunkAssembly), run + [next]);
        EndOfMore(run, next, old(lastContiguous));
        run := run + [next];
      }
      DrainOver(lastContiguous, reorderBuffer, run);
    }

    method ReceiveData(item: Item)
      requires Valid()
      modifies this
      ensures Valid() && Did(Channel.ReceiveData(old(View()), item), old(wire), old(handed), old(messages))
    {
      hide Channel.ProcessChunk, Process, Drain, DrainedReorder, IsTable;
      ProcessNone(chunkAssembly);
      ackPending := true;
      if item.seqNo <= lastContiguous {
        return;
      }
      if item.seqNo == lastContiguous + 1 {
        lastContiguous := item.seqNo;
        ProcessChunk(item.payload, item.seqNo, item.priority);
        ProcessOne(old(chunkAssembly), item);
        ProcessConcat(old(chunkAssembly), [item], Drain(item.seqNo, reorderBuffer));
        DrainReorder();
        return;
      }
      if item.seqNo !in reorderBuffer {
        reorderBuffer := reorderBuffer[item.seqNo := item];
      }
    }

    // ---- Acks and resumes ----

    method ShiftAcked(ackSeq: nat)
      modifies this`sendBuffer
      ensures sendBuffer == Trim(old(sendBuffer), ackSeq)
    {
      while |sendBuffer| > 0 && sendBuffer[0].seqNo <= ackSeq
        invariant Trim(sendBuffer, ackSeq) == Trim(old(sendBuffer), ackSeq)
        decreases |sendBuffer|
      {
        sendBuffer := sendBuffer[1..];
      }
    }

    method ReplayCritical(above: nat)
      modifies this`wire
      ensures wire == old(wire) + Replay(sendBuffer, above)
    {
      var i := 0;
      while i < |sendBuffer|
        invariant 0 <= i <= |sendBuffer| && wire == old(wire) + Replay(sendBuffer[..i], above)
      {
        var m := sendBuffer[i];
        assert sendBuffer[..i + 1][..i] == sendBuffer[..i];
        if m.seqNo > above && m.priority == CRITICAL {
          Transmit(m.encoded);
        }
        i := i + 1;
      }
      assert sendBuffer[..i] == sendBuffer;
    }

    method ReceiveAck(ackSeq: nat)
      requires Valid()
      modifies this
      ensures Valid() && Did(Channel.ReceiveAck(old(View()), ackSeq), old(wire), old(handed), old(messages))
    {
      if ackSeq > lastAckReceived {
        lastAckReceived := ackSeq;
        ShiftAcked(ackSeq);
        dupAckCount := 0;
      } else if ackSeq == lastAckReceived && |sendBuffer| > 0 {
        dupAckCount := dupAckCount + 1;
        if dupAckCount >= 3 {
          dupAckCount := 0;
          ReplayCritical(ackSeq);
        }
      }
    }

    method HandleResume(lastAckSeq: nat)
      requires Valid()
      modifies this
      ensures Valid() && Did(Channel.HandleResume(old(View()), lastAckSeq), old(wire), old(handed), old(messages))
    {
      hide IsTable, Trim, Replay;
      lastAckReceived := lastAckSeq;
      if lastAckSeq >= nextSeq {
        nextSeq := lastAckSeq + 1;
        sendBuffer := [];
        lastContiguous := 0;
        reorderBuffer := map[];
        return;
      }
      if lastAckSeq < nextSeq && (|sendBuffer| == 0 || sendBuffer[0].seqNo > lastAckSeq + 1) {
        nextSeq := lastAckSeq + 1;
        lastContiguous := lastAckSeq;
        sendBuffer := [];
        reorderBuffer := map[];
        return;
      }
      ReplayCritical(lastAckSeq);
      ShiftAcked(lastAckSeq);
    }

    /** Takes any bytes at all from any transport. */
    method Receive(data: bytes)
      requires Valid()
      modifies this
      ensures Valid() && Did(Channel.Receive(old(View()), data), old(wire), old(handed), old(messages))
    {
      hide Channel.ReceiveData, Channel.ReceiveAck, Channel.HandleResume, Decode;
      var frame := DecodeBytes(table, data);
      match frame
      case None =>
      case Some(Data(seqNo, _, _, priority, payload)) => ReceiveData(Item(payload, seqNo, priority));
      case Some(Ack(ackSeq, _)) => ReceiveAck(ackSeq);
      case Some(Resume(lastAckSeq)) => HandleResume(lastAckSeq);
    }

    // ---- Timer and resets ----

    method Tick()
      requires Valid()
      modifies this
      ensures Valid() && Did(Channel.Tick(old(View())), old(wire), old(handed), old(messages))
    {
      hide AckBytes;
      if ackPending {
        var window := if maxBuffer >= |reorderBuffer| then maxBuffer - |reorderBuffer| else 0;
        var buf := EncodeAck(lastContiguous, window);
        Transmit(buf[..]);
        ackPending := false;
      }
    }

    method SendResume()
      requires Valid()
      modifies this
      ensures Valid() && Did(Channel.SendResume(old(View())), old(wire), old(handed), old(messages))
    {
      var buf := EncodeResume(lastContiguous);
      Transmit(buf[..]);
    }

    method Reset()
      requires Valid()
      modifies this
      ensures Valid() && Did(Channel.Reset(old(View())), old(wire), old(handed), old(messages))
    {
      hide IsTable;
      nextSeq, sendBuffer, lastAckReceived := 1, [], 0;
      lastContiguous, reorderBuffer, ackPending, chunkAssembly := 0, map[], false, [];
    }

    /** The part of a transport's opening that touches the channel. */
    method OnTransportOpen(name: string)
      requires Valid()
      modifies this
      ensures Valid()
      ensures Did(if name == "ws" then WsOpen(old(View())) else Channel.SendResume(old(View())), old(wire),
                  old(handed), old(messages))
    {
      if name == "ws" {
        nextSeq, sendBuffer, lastAckReceived := 1, [], 0;
        lastContiguous, reorderBuffer := 0, map[];
      }
      SendResume();
    }
  }

  // ---- Loop steps ----

  lemma SendAllOne(c: State, frame: bytes, priority: nat, clock: nat -> int)
    ensures SendAll(c, [frame], priority, clock) == Channel.SendOne(c, frame, priority, clock)
  {
    hide DataBytes, Evict;
    assert SendAll(c, [frame][..0], priority, clock) == Quiet(c);
  }

  lemma SendAllMore(c: State, frames: seq<bytes>, frame: bytes, priority: nat, clock: nat -> int)
    ensures var before := SendAll(c, frames, priority, clock);
            var last := Channel.SendOne(before.state, frame, priority, clock);
            SendAll(c, frames + [frame], priority, clock) == Outcome(last.state, before.wire + last.wire, [], [])
            && before.handed == last.handed == [] && before.messages == last.messages == []
  {
    hide DataBytes, Evict;
    assert (frames + [frame])[..|frames|] == frames;
  }

  /** The contiguous count after a run of frames has been taken. */
  ghost function EndOf(run: seq<Item>, last: nat): nat { if run == [] then last else run[|run| - 1].seqNo }

  lemma NothingTaken(last: nat)
    ensures EndOf([], last) == last
  {
  }

  lemma EndOfMore(run: seq<Item>, next: Item, last: nat)
    ensures EndOf(run + [next], last) == next.seqNo
  {
  }

  lemma DrainNext(last: nat, reorder: map<nat, Item>, run: seq<Item>)
    requires last + 1 in reorder
    ensures var next := reorder[last + 1];
            && run + Drain(last, reorder) == (run + [next]) + Drain(next.seqNo, reorder - {last + 1})
            && DrainedReorder(last, reorder) == DrainedReorder(next.seqNo, reorder - {last + 1})
  {
  }

  lemma DrainOver(last: nat, reorder: map<nat, Item>, run: seq<Item>)
    requires last + 1 !in reorder
    ensures run + Drain(last, reorder) == run && DrainedReorder(last, reorder) == reorder
  {
  }

  lemma ProcessMore(assembly: seq<bytes>, run: seq<Item>, item: Item)
    ensures var p := Process(assembly, run);
            var q := Channel.ProcessChunk(p.assembly, item);
            Process(assembly, run + [item]) == Processed(q.assembly, p.messages + q.messages)
  {
    hide Channel.ProcessChunk;
    assert (run + [item])[..|run|] == run;
  }
}
