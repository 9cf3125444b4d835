// The send buffer over every run: sends, eviction, acknowledgements, all resume branches, ws opens and resets
// (browser/js/reliable.js:183-200, 275-281, 297-338, 368-376, 743-749).
module SendBuffer {
  import opened Octets
  import opened Codec
  import opened Channel

  /** The entries carry consecutive numbers, the last one being the number handed out last. */
  predicate Contiguous(buffer: seq<Entry>, nextSeq: nat) {
    |buffer| < nextSeq && forall i :: 0 <= i < |buffer| ==> buffer[i].seqNo == nextSeq - |buffer| + i
  }

  /** Eviction drops a front part, all of it best-effort or acknowledged, and stops for one of two reasons. */
  lemma {:induction false} EvictDropsFront(buffer: seq<Entry>, maxBuffer: nat, lastAck: nat) returns (k: nat)
    ensures k <= |buffer| && Evict(buffer, maxBuffer, lastAck) == buffer[k..]
    ensures forall i :: 0 <= i < k ==> buffer[i].priority == BEST_EFFORT || buffer[i].seqNo <= lastAck
    ensures k > 0 ==> |buffer| - k >= maxBuffer
    ensures |buffer| - k > maxBuffer ==> buffer[k].priority != BEST_EFFORT && buffer[k].seqNo > lastAck
  {
    if |buffer| > maxBuffer && (buffer[0].priority == BEST_EFFORT || buffer[0].seqNo <= lastAck) {
      var m := EvictDropsFront(buffer[1..], maxBuffer, lastAck);
      k := m + 1;
      assert buffer[1..][m..] == buffer[k..];
    } else {
      k := 0;
    }
  }

  /** On a contiguous buffer, trimming keeps exactly the entries above the acknowledged number. */
  lemma {:induction false} TrimKeepsAbove(buffer: seq<Entry>, nextSeq: nat, ackSeq: nat) returns (k: nat)
    requires Contiguous(buffer, nextSeq)
    ensures k <= |buffer| && Trim(buffer, ackSeq) == buffer[k..]
    ensures forall i :: 0 <= i < k ==> buffer[i].seqNo <= ackSeq
    ensures forall i :: k <= i < |buffer| ==> buffer[i].seqNo > ackSeq
    decreases |buffer|
  {
    if buffer != [] && buffer[0].seqNo <= ackSeq {
      var m := TrimKeepsAbove(buffer[1..], nextSeq, ackSeq);
      k := m + 1;
      assert buffer[1..][m..] == buffer[k..];
      forall i | k <= i < |buffer|
        ensures buffer[i].seqNo > ackSeq
      {
        assert buffer[i] == buffer[1..][i - 1];
      }
    } else {
      k := 0;
    }
  }

  lemma SuffixContiguous(buffer: seq<Entry>, nextSeq: nat, k: nat)
    requires Contiguous(buffer, nextSeq) && k <= |buffer|
    ensures Contiguous(buffer[k..], nextSeq)
  {
  }

  /** Everything that can happen to one end of the protocol; clock is the sender's clock, data any bytes at all. */
  datatype Event =
    | DoSend(payload: bytes, priority: nat, clock: nat -> int)
    | DoReceive(data: bytes)
    | DoTick
    | DoSendResume
    | DoReset
    | DoWsOpen

  function Step(c: State, e: Event): Outcome
    requires c.maxFrame >= 1
  {
    match e
    case DoSend(payload, priority, clock) => Send(c, payload, priority, clock)
    case DoReceive(data) => Receive(c, data)
    case DoTick => Tick(c)
    case DoSendResume => SendResume(c)
    case DoReset => Reset(c)
    case DoWsOpen => WsOpen(c)
  }

  lemma SendOneContiguous(c: State, payload: bytes, priority: nat, clock: nat -> int)
    requires Contiguous(c.sendBuffer, c.nextSeq)
    ensures var s := SendOne(c, payload, priority, clock).state;
            && Contiguous(s.sendBuffer, s.nextSeq) && s.maxFrame == c.maxFrame && s.maxBuffer == c.maxBuffer
            && PressureRelieved(s)
  {
    hide DataBytes;
    var encoded := DataBytes(c.nextSeq, clock(c.nextSeq), priority, payload);
    var grown := c.sendBuffer + [Entry(c.nextSeq, priority, encoded)];
    assert Contiguous(grown, c.nextSeq + 1);
    var k := EvictDropsFront(grown, c.maxBuffer, c.lastAck);
    SuffixContiguous(grown, c.nextSeq + 1, k);
  }

  /** The buffer fits, or what overflows it is worth keeping: its oldest frame is neither best-effort nor
      acknowledged. */
  predicate PressureRelieved(c: State) {
    |c.sendBuffer| <= c.maxBuffer
    || (c.sendBuffer[0].priority != BEST_EFFORT && c.sendBuffer[0].seqNo > c.lastAck)
  }

  lemma {:induction false} SendAllContiguous(c: State, frames: seq<bytes>, priority: nat, clock: nat -> int)
    requires Contiguous(c.sendBuffer, c.nextSeq)
    ensures var s := SendAll(c, frames, priority, clock).state;
            && Contiguous(s.sendBuffer, s.nextSeq) && s.maxFrame == c.maxFrame && s.maxBuffer == c.maxBuffer
            && (frames != [] ==> PressureRelieved(s))
    decreases |frames|
  {
    hide SendOne;
    if frames != [] {
      var init := frames[..|frames| - 1];
      SendAllContiguous(c, init, priority, clock);
      SendOneContiguous(SendAll(c, init, priority, clock).state, frames[|frames| - 1], priority, clock);
    }
  }

  lemma TrimContiguous(buffer: seq<Entry>, nextSeq: nat, ackSeq: nat)
    requires Contiguous(buffer, nextSeq)
    ensures Contiguous(Trim(buffer, ackSeq), nextSeq)
  {
    var k := TrimKeepsAbove(buffer, nextSeq, ackSeq);
    SuffixContiguous(buffer, nextSeq, k);
  }

  lemma StepContiguous(c: State, e: Event)
    requires c.maxFrame >= 1 && Contiguous(c.sendBuffer, c.nextSeq)
    ensures var s := Step(c, e).state;
            && Contiguous(s.sendBuffer, s.nextSeq) && s.maxFrame == c.maxFrame && s.maxBuffer == c.maxBuffer
            && (e.DoSend? ==> PressureRelieved(s))
  {
    hide Decode, Drain, DrainedReorder, Process, SendAll;
    match e
    case DoSend(payload, priority, clock) =>
      SendAllContiguous(c, Fragments(payload, c.maxFrame), priority, clock);
    case DoReceive(data) =>
      match Decode(data) {
        case Some(Ack(ackSeq, _)) => TrimContiguous(c.sendBuffer, c.nextSeq, ackSeq);
        case Some(Resume(n)) => TrimContiguous(c.sendBuffer, c.nextSeq, n);
        case _ =>
      }
    case _ =>
  }

  function Execute(c: State, events: seq<Event>): State
    requires c.maxFrame >= 1
    ensures Execute(c, events).maxFrame == c.maxFrame
    decreases |events|
  {
    if events == [] then c
    else
      var before := Execute(c, events[..|events| - 1]);
      StepKeepsLimits(before, events[|events| - 1]);
      Step(before, events[|events| - 1]).state
  }

  lemma StepKeepsLimits(c: State, e: Event)
    requires c.maxFrame >= 1
    ensures Step(c, e).state.maxFrame == c.maxFrame && Step(c, e).state.maxBuffer == c.maxBuffer
  {
    if e.DoSend? {
      SendAllKeepsLimits(c, Fragments(e.payload, c.maxFrame), e.priority, e.clock);
    }
  }

  lemma {:induction false} SendAllKeepsLimits(c: State, frames: seq<bytes>, priority: nat, clock: nat -> int)
    ensures SendAll(c, frames, priority, clock).state.maxFrame == c.maxFrame
    ensures SendAll(c, frames, priority, clock).state.maxBuffer == c.maxBuffer
    decreases |frames|
  {
    if frames != [] {
      SendAllKeepsLimits(c, frames[..|frames| - 1], priority, clock);
    }
  }

  /** In every state reached by any events with any bytes received, the send buffer is a run of consecutive numbers
      ending at the last number handed out, and a send leaves it within bounds or headed by a frame worth keeping. */
  lemma {:induction false} EveryRunContiguous(maxBuffer: nat, maxFrame: nat, events: seq<Event>)
    requires maxFrame >= 1
    ensures var c := Execute(Init(maxBuffer, maxFrame), events);
            && Contiguous(c.sendBuffer, c.nextSeq)
            && (events != [] && events[|events| - 1].DoSend? ==> PressureRelieved(c))
    decreases |events|
  {
    hide Step;
    if events != [] {
      EveryRunContiguous(maxBuffer, maxFrame, events[..|events| - 1]);
      StepContiguous(Execute(Init(maxBuffer, maxFrame), events[..|events| - 1]), events[|events| - 1]);
    }
  }

  /** After any Resume(n), whichever branch runs: the last ack is n and the buffer holds exactly n+1 to nextSeq-1. */
  lemma ResumeResynchronises(c: State, n: nat)
    requires Contiguous(c.sendBuffer, c.nextSeq)
    ensures var s := HandleResume(c, n).state;
            && s.lastAck == n && n < s.nextSeq
            && Contiguous(s.sendBuffer, s.nextSeq) && |s.sendBuffer| == s.nextSeq - 1 - n
            && (ResumeNormal(c, n) ==> s.nextSeq == c.nextSeq)
            && (ResumeNormal(c, n) ==> s.sendBuffer == c.sendBuffer[|c.sendBuffer| - |s.sendBuffer|..])
  {
    if ResumeNormal(c, n) {
      var k := EntriesAbove(c, n);
      SuffixContiguous(c.sendBuffer, c.nextSeq, k);
    }
  }

  // ---- What a Resume replays ----

  function Encodings(buffer: seq<Entry>): seq<bytes> {
    seq(|buffer|, i requires 0 <= i < |buffer| => buffer[i].encoded)
  }

  predicate AllCritical(buffer: seq<Entry>) {
    forall i :: 0 <= i < |buffer| ==> buffer[i].priority == CRITICAL
  }

  lemma {:induction false} ReplayLength(buffer: seq<Entry>, above: nat, k: nat)
    requires k <= |buffer| && forall i :: 0 <= i < k ==> buffer[i].seqNo <= above
    requires forall i :: k <= i < |buffer| ==> buffer[i].seqNo > above
    ensures |Replay(buffer, above)| <= |buffer| - k
    ensures |Replay(buffer, above)| == |buffer| - k <==> AllCritical(buffer[k..])
    ensures AllCritical(buffer[k..]) ==> Replay(buffer, above) == Encodings(buffer[k..])
    decreases |buffer|
  {
    if k < |buffer| {
      var init := buffer[..|buffer| - 1];
      ReplayLength(init, above, k);
      assert buffer[k..] == init[k..] + [buffer[|buffer| - 1]];
      assert buffer[k..][|buffer[k..]| - 1] == buffer[|buffer| - 1];
      if AllCritical(buffer[k..]) {
        assert forall i :: 0 <= i < |init[k..]| ==> init[k..][i] == buffer[k..][i];
      }
    } else if buffer != [] {
      ReplayLength(buffer[..|buffer| - 1], above, k - 1);
    }
  }

  /** A Resume(n) replays one frame for every number above n, n+1 to nextSeq-1, exactly when the buffer still reaches
      down to n+1 (or nothing was numbered above n) and every buffered frame above n is critical. */
  predicate CanReplay(c: State, n: nat) {
    n + 1 == c.nextSeq
    || (c.sendBuffer != [] && c.sendBuffer[0].seqNo <= n + 1
        && forall i :: 0 <= i < |c.sendBuffer| && c.sendBuffer[i].seqNo > n ==> c.sendBuffer[i].priority == CRITICAL)
  }

  /** The frames numbered above n, as the buffer's last entries. */
  predicate ReplaysAllAbove(c: State, n: nat, wire: seq<bytes>) {
    var count := c.nextSeq - 1 - n;
    0 <= count <= |c.sendBuffer| && wire == Encodings(c.sendBuffer[|c.sendBuffer| - count..])
  }

  /** In the normal branch the entries above n are the last nextSeq-1-n ones. */
  lemma EntriesAbove(c: State, n: nat) returns (k: nat)
    requires Contiguous(c.sendBuffer, c.nextSeq) && ResumeNormal(c, n)
    ensures n < c.nextSeq && k == |c.sendBuffer| - (c.nextSeq - 1 - n) && 0 <= k <= |c.sendBuffer|
    ensures Trim(c.sendBuffer, n) == c.sendBuffer[k..]
    ensures forall i :: 0 <= i < k ==> c.sendBuffer[i].seqNo <= n
    ensures forall i :: k <= i < |c.sendBuffer| ==> c.sendBuffer[i].seqNo > n
  {
    k := TrimKeepsAbove(c.sendBuffer, c.nextSeq, n);
    if k < |c.sendBuffer| {
      assert c.sendBuffer[k].seqNo > n;
    }
    if k > 0 {
      assert c.sendBuffer[k - 1].seqNo <= n;
    }
  }

  lemma NormalReplaysAll(c: State, n: nat)
    requires Contiguous(c.sendBuffer, c.nextSeq) && ResumeNormal(c, n)
    ensures ReplaysAllAbove(c, n, HandleResume(c, n).wire) <==> CanReplay(c, n)
  {
    var k := EntriesAbove(c, n);
    ReplayLength(c.sendBuffer, n, k);
    CriticalSuffix(c.sendBuffer, n, k);
  }

  lemma StaleReplaysNothing(c: State, n: nat)
    requires Contiguous(c.sendBuffer, c.nextSeq) && ResumeStale(c, n)
    ensures ReplaysAllAbove(c, n, []) <==> CanReplay(c, n)
  {
    if c.sendBuffer != [] {
      assert c.sendBuffer[0].seqNo == c.nextSeq - |c.sendBuffer|;
    } else if n + 1 == c.nextSeq {
      assert Encodings(c.sendBuffer[0..]) == [];
    }
  }

  /** README, "everything after that replays automatically": true of a Resume(n) exactly when CanReplay holds. */
  lemma ResumeReplaysAll(c: State, n: nat)
    requires Contiguous(c.sendBuffer, c.nextSeq) && n < c.nextSeq
    ensures ReplaysAllAbove(c, n, HandleResume(c, n).wire) <==> CanReplay(c, n)
  {
    hide ReplaysAllAbove, CanReplay;
    if ResumeNormal(c, n) {
      NormalReplaysAll(c, n);
    } else {
      StaleReplaysNothing(c, n);
    }
  }

  lemma CriticalSuffix(buffer: seq<Entry>, n: nat, k: nat)
    requires k <= |buffer| && forall i :: 0 <= i < k ==> buffer[i].seqNo <= n
    requires forall i :: k <= i < |buffer| ==> buffer[i].seqNo > n
    ensures AllCritical(buffer[k..]) <==>
      forall i :: 0 <= i < |buffer| && buffer[i].seqNo > n ==> buffer[i].priority == CRITICAL
  {
    if AllCritical(buffer[k..]) {
      forall i | 0 <= i < |buffer| && buffer[i].seqNo > n
        ensures buffer[i].priority == CRITICAL
      {
        assert buffer[i] == buffer[k..][i - k];
      }
    }
  }

  // ---- What a Resume does to the inbound half ----

  /** A Resume reports on the outbound direction only; the next frame due inbound is still handed up after it
      exactly when no reset branch moved the inbound counter. */
  lemma ResumeKeepsInbound(c: State, n: nat, item: Item)
    requires item.seqNo == c.lastContiguous + 1
    ensures (item in ReceiveData(HandleResume(c, n).state, item).handed) <==>
      (ResumeNormal(c, n) || c.lastContiguous == (if ResumeAhead(c, n) then 0 else n))
  {
    hide Process, Trim, Replay;
    var s := HandleResume(c, n).state;
    var run := Drain(item.seqNo, s.reorder);
    assert item == ([item] + run)[0];
  }

  /** A fully caught-up peer sends Resume(n) while our buffer is empty and we have taken only m < n of its frames:
      we skip its frames m+1 to n for good. */
  lemma CaughtUpPeerLosesFrames(c: State, n: nat, item: Item)
    requires Contiguous(c.sendBuffer, c.nextSeq) && c.sendBuffer == [] && n + 1 == c.nextSeq
    requires c.lastContiguous < item.seqNo <= n
    ensures ReceiveData(HandleResume(c, n).state, item).handed == []
    ensures HandleResume(c, n).state.lastContiguous == n
  {
  }
}
