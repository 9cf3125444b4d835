// How send cuts a payload and what it puts on the wire: number, size and content of the packets
// (browser/js/reliable.js:149-200).
module Fragmenting {
  import opened Octets
  import opened Wrappers
  import opened Codec
  import opened PayloadChecksum
  import opened Channel
  import opened Messages

  /** How many frames a payload takes when a frame carries up to n bytes. */
  function RoundedUp(length: nat, n: nat): nat
    requires n >= 1
  {
    (length + n - 1) / n
  }

  lemma OneMoreFull(length: nat, n: nat)
    requires n >= 1 && length > n
    ensures RoundedUp(length, n) == RoundedUp(length - n, n) + 1
  {
    var x := length - 1;
    assert x + n == n * (x / n + 1) + x % n by { assert x == n * (x / n) + x % n; }
    Quotient(x + n, n, x / n + 1, x % n);
  }

  lemma Quotient(x: nat, n: nat, q: nat, r: nat)
    requires r < n && x == n * q + r
    ensures x / n == q
  {
    var d := x / n;
    assert x == n * d + x % n;
    Multiples(n, d, q);
    Multiples(n, q, d);
  }

  lemma {:induction false} Multiples(n: nat, a: nat, b: nat)
    ensures a < b ==> n * a + n <= n * b
    decreases b
  {
    if a + 1 < b {
      Multiples(n, a, b - 1);
    }
  }

  lemma LastPart(length: nat, n: nat)
    requires 1 <= length <= n
    ensures RoundedUp(length, n) == 1
  {
  }

  /** Every frame but the last carries n bytes behind its tag, the last one at least one. */
  predicate FilledUp(frames: seq<bytes>, n: nat) {
    && (forall i :: 0 <= i < |frames| ==> 2 <= |frames[i]| <= n + 1)
    && (forall i :: 0 <= i < |frames| - 1 ==> |frames[i]| == n + 1)
  }

  lemma {:induction false} PiecesFill(payload: bytes, maxFrame: nat, offset: nat)
    requires maxFrame >= 1 && offset <= |payload|
    ensures var frames := Pieces(payload, maxFrame, offset);
            FilledUp(frames, maxFrame) && |frames| == RoundedUp(|payload| - offset, maxFrame)
    decreases |payload| - offset
  {
    hide RoundedUp;
    if offset < |payload| {
      var end := if offset + maxFrame < |payload| then offset + maxFrame else |payload|;
      PiecesFill(payload, maxFrame, end);
      if end < |payload| {
        OneMoreFull(|payload| - offset, maxFrame);
      } else {
        LastPart(|payload| - offset, maxFrame);
        NothingLeft(maxFrame);
      }
    } else {
      NothingLeft(maxFrame);
    }
  }

  lemma NothingLeft(n: nat)
    requires n >= 1
    ensures RoundedUp(0, n) == 0
  {
  }

  /** A payload goes out in one frame exactly when it fits, otherwise in as few full frames as it takes. */
  lemma FragmentsFit(payload: bytes, maxFrame: nat)
    requires maxFrame >= 1
    ensures var frames := Fragments(payload, maxFrame);
            && (forall i :: 0 <= i < |frames| ==> |frames[i]| <= maxFrame + 1)
            && (forall i :: 0 <= i < |frames| - 1 ==> |frames[i]| == maxFrame + 1)
            && |frames| == (if |payload| <= maxFrame then 1 else RoundedUp(|payload|, maxFrame))
            && (|frames| == 1 <==> |payload| <= maxFrame)
  {
    hide RoundedUp;
    if |payload| > maxFrame {
      PiecesFill(payload, maxFrame, 0);
      OneMoreFull(|payload|, maxFrame);
      SomeLeft(|payload| - maxFrame, maxFrame);
    }
  }

  lemma SomeLeft(length: nat, n: nat)
    requires n >= 1 && length >= 1
    ensures RoundedUp(length, n) >= 1
  {
  }

  // ---- On the wire ----

  lemma {:induction false} SendAllWire(c: State, frames: seq<bytes>, priority: nat, clock: nat -> int)
    ensures var o := SendAll(c, frames, priority, clock);
            && |o.wire| == |frames| && o.state.nextSeq == c.nextSeq + |frames|
            && forall i :: 0 <= i < |frames| ==>
                 o.wire[i] == DataBytes(c.nextSeq + i, clock(c.nextSeq + i), priority, frames[i])
    decreases |frames|
  {
    hide DataBytes, Evict;
    if frames != [] {
      SendAllWire(c, frames[..|frames| - 1], priority, clock);
    }
  }

  lemma PacketIs(seqNo: nat, timestamp: int, priority: nat, frame: bytes)
    requires seqNo < U32_LIMIT && priority < 256 && |frame| < U32_LIMIT
    ensures var p := DataBytes(seqNo, timestamp, priority, frame);
            |p| == 19 + |frame|
            && Decode(p) == Some(Data(seqNo, timestamp % U32_LIMIT, Checksum(frame), priority, frame))
  {
    hide Decode, Checksum;
    var p := DataBytes(seqNo, timestamp, priority, frame);
    DataRoundTrip(seqNo, timestamp, priority, frame, []);
    assert p + [] == p;
  }

  /** Every packet of a send carries one frame of the payload, with the next numbers in order, the priority given and
      the low 32 bits of the clock, in at most maxFrame + 20 bytes. */
  lemma SendPackets(c: State, payload: bytes, priority: nat, clock: nat -> int)
    requires 1 <= c.maxFrame < U32_LIMIT - 1 && priority < 256
    requires c.nextSeq + |Fragments(payload, c.maxFrame)| <= U32_LIMIT
    ensures var frames, wire := Fragments(payload, c.maxFrame), Send(c, payload, priority, clock).wire;
            && |wire| == |frames|
            && forall i :: 0 <= i < |wire| ==>
                 var n := c.nextSeq + i;
                 && |wire[i]| == 19 + |frames[i]| <= 19 + c.maxFrame + 1
                 && Decode(wire[i]) == Some(Data(n, clock(n) % U32_LIMIT, Checksum(frames[i]), priority, frames[i]))
  {
    hide DataBytes, Decode, Checksum, Fragments;
    var frames, wire := Fragments(payload, c.maxFrame), Send(c, payload, priority, clock).wire;
    SendAllWire(c, frames, priority, clock);
    FragmentsFit(payload, c.maxFrame);
    forall i | 0 <= i < |wire|
      ensures |wire[i]| == 19 + |frames[i]| && var n := c.nextSeq + i;
              Decode(wire[i]) == Some(Data(n, clock(n) % U32_LIMIT, Checksum(frames[i]), priority, frames[i]))
    {
      PacketIs(c.nextSeq + i, clock(c.nextSeq + i), priority, frames[i]);
    }
  }

  /** The tags: alone, first, middle, last. */
  lemma TagExamples()
    ensures Fragments([], 2) == [[0x00]] && Fragments([7, 8], 2) == [[0x00, 7, 8]]
    ensures Fragments([7, 8, 9, 10, 11], 2) == [[0x01, 7, 8], [0x02, 9, 10], [0x03, 11]]
    ensures Fragments([7, 8, 9, 10], 2) == [[0x01, 7, 8], [0x03, 9, 10]]
  {
    var p: bytes := [7, 8, 9, 10, 11];
    var q: bytes := [7, 8, 9, 10];
    assert p[0..2] == [7, 8] && p[2..4] == [9, 10] && p[4..5] == [11];
    assert q[0..2] == [7, 8] && q[2..4] == [9, 10];
    NextPiece(p, 2, 0, 2, TAG_FIRST);
    NextPiece(p, 2, 2, 4, TAG_MIDDLE);
    NextPiece(p, 2, 4, 5, TAG_LAST);
    NextPiece(q, 2, 0, 2, TAG_FIRST);
    NextPiece(q, 2, 2, 4, TAG_LAST);
    assert Pieces(p, 2, 5) == [] && Pieces(q, 2, 4) == [];
    assert [TAG_FIRST] + p[0..2] == [0x01, 7, 8] && [TAG_MIDDLE] + p[2..4] == [0x02, 9, 10];
    assert [TAG_LAST] + p[4..5] == [0x03, 11] && [TAG_LAST] + q[2..4] == [0x03, 9, 10];
    assert [TAG_FIRST] + q[0..2] == [0x01, 7, 8];
    var a: bytes, none: bytes := [7, 8], [];
    assert [TAG_STANDALONE] + a == [0x00, 7, 8] && [TAG_STANDALONE] + none == [0x00];
  }

  lemma NextPiece(payload: bytes, maxFrame: nat, offset: nat, end: nat, tag: byte)
    requires maxFrame >= 1 && offset < |payload|
    requires end == if offset + maxFrame < |payload| then offset + maxFrame else |payload|
    requires tag == if offset == 0 then TAG_FIRST else if end == |payload| then TAG_LAST else TAG_MIDDLE
    ensures Pieces(payload, maxFrame, offset) == [[tag] + payload[offset..end]] + Pieces(payload, maxFrame, end)
  {
  }

  /** A frame without a known tag is delivered whole, an empty one not at all. */
  lemma UntaggedDelivered(assembly: seq<bytes>, item: Item)
    requires item.payload == [] || item.payload[0] > 0x03
    ensures Process(assembly, [item])
         == Processed(assembly, if item.payload == [] then [] else [Message(item.payload, item.seqNo, item.priority)])
  {
    ProcessOne(assembly, item);
  }
}
