// The binary frame format of the reliability layer (browser/js/reliable.js, encodeData to decode).
module Codec {
  import opened Octets
  import opened Crc32
  import opened PayloadChecksum
  import opened Wrappers

  const MAGIC: byte := 0xB3
  const MAGIC_DATA: byte := 0x01
  const MAGIC_ACK: byte := 0x02
  const MAGIC_RESUME: byte := 0x03
  const DATA_HEADER_SIZE: nat := 19
  const ACK_SIZE: nat := 8
  const RESUME_SIZE: nat := 6
  const U16_LIMIT: nat := 0x1_0000
  const U32_LIMIT: nat := 0x1_0000_0000

  datatype Frame =
    | Data(seqNo: nat, timestamp: nat, checksum: nat, priority: nat, payload: bytes)
    | Ack(ackSeq: nat, window: nat)
    | Resume(lastAckSeq: nat)

  // ---- Little-endian fields; the writers keep the low bytes of any number ----

  function ByteOf(n: nat): byte
    requires n < 256
  {
    n as byte
  }

  function ValueOf(b: byte): nat { b as nat }

  function U8(n: int): bytes { [ByteOf(n % 256)] }

  function U16(n: int): bytes { [ByteOf(n % 256), ByteOf(n / 256 % 256)] }

  function U32(n: int): (r: bytes)
    ensures |r| == 4
  {
    var n1 := n / 256;
    var n2 := n1 / 256;
    var n3 := n2 / 256;
    [ByteOf(n % 256), ByteOf(n1 % 256), ByteOf(n2 % 256), ByteOf(n3 % 256)]
  }

  function ReadU8(data: bytes, at: nat): nat
    requires at + 1 <= |data|
  {
    ValueOf(data[at])
  }

  function ReadU16(data: bytes, at: nat): nat
    requires at + 2 <= |data|
  {
    ValueOf(data[at]) + 0x100 * ValueOf(data[at + 1])
  }

  function ReadU32(data: bytes, at: nat): nat
    requires at + 4 <= |data|
  {
    FromDigits(ValueOf(data[at]), ValueOf(data[at + 1]), ValueOf(data[at + 2]), ValueOf(data[at + 3]))
  }

  function FromDigits(a: nat, b: nat, c: nat, d: nat): nat {
    a + 256 * (b + 256 * (c + 256 * d))
  }

  // ---- Frames ----

  function Header(seqNo: bytes, timestamp: bytes, checksum: bytes, priority: bytes, length: bytes): bytes {
    [MAGIC, MAGIC_DATA] + seqNo + timestamp + checksum + priority + length
  }

  function DataBytes(seqNo: nat, timestamp: int, priority: nat, payload: bytes): bytes {
    Header(U32(seqNo), U32(timestamp), U32(Checksum(payload)), U8(priority), U32(|payload|)) + payload
  }

  function AckBytes(ackSeq: nat, window: nat): bytes {
    [MAGIC, MAGIC_ACK] + U32(ackSeq) + U16(window)
  }

  function ResumeBytes(lastAckSeq: nat): bytes {
    [MAGIC, MAGIC_RESUME] + U32(lastAckSeq)
  }

  function DecodeData(data: bytes): Option<Frame>
    requires |data| >= DATA_HEADER_SIZE
  {
    var length := ReadU32(data, 15);
    if |data| < DATA_HEADER_SIZE + length then None
    else
      var payload := data[DATA_HEADER_SIZE..DATA_HEADER_SIZE + length];
      var checksum := ReadU32(data, 10);
      if Checksum(payload) != checksum then None
      else Some(Data(ReadU32(data, 2), ReadU32(data, 6), checksum, ReadU8(data, 14), payload))
  }

  function Decode(data: bytes): Option<Frame> {
    if |data| < 2 || data[0] != MAGIC then None
    else if data[1] == MAGIC_DATA && |data| >= DATA_HEADER_SIZE then DecodeData(data)
    else if data[1] == MAGIC_ACK && |data| >= ACK_SIZE then Some(Ack(ReadU32(data, 2), ReadU16(data, 6)))
    else if data[1] == MAGIC_RESUME && |data| >= RESUME_SIZE then Some(Resume(ReadU32(data, 2)))
    else None
  }

  // ---- Round trips ----

  lemma DigitsBack(a: nat, b: nat, c: nat, d: nat)
    requires a < 256 && b < 256 && c < 256 && d < 256
    ensures FromDigits(a, b, c, d) < U32_LIMIT
    ensures U32(FromDigits(a, b, c, d)) == [ByteOf(a), ByteOf(b), ByteOf(c), ByteOf(d)]
  {
    var n := FromDigits(a, b, c, d);
    assert n / 256 == b + 256 * (c + 256 * d);
    assert n / 256 / 256 == c + 256 * d;
    assert n / 256 / 256 / 256 == d;
  }

  lemma U32RoundTrip(n: nat, data: bytes, at: nat)
    requires n < U32_LIMIT && at + 4 <= |data| && data[at..at + 4] == U32(n)
    ensures ReadU32(data, at) == n
  {
    var d := data[at..at + 4];
    assert data[at] == d[0] && data[at + 1] == d[1] && data[at + 2] == d[2] && data[at + 3] == d[3];
    var n1 := n / 256;
    var n2 := n1 / 256;
    var n3 := n2 / 256;
  }

  lemma U32Back(data: bytes, at: nat)
    requires at + 4 <= |data|
    ensures ReadU32(data, at) < U32_LIMIT && U32(ReadU32(data, at)) == data[at..at + 4]
  {
    DigitsBack(ValueOf(data[at]), ValueOf(data[at + 1]), ValueOf(data[at + 2]), ValueOf(data[at + 3]));
  }

  lemma Peel(n: int, m: nat, r: int)
    requires n == m + 256 * r
    ensures n % 256 == m % 256 && n / 256 == m / 256 + r
  {
  }

  lemma U32Wraps(n: int)
    ensures U32(n) == U32(n % U32_LIMIT)
  {
    var m, q := n % U32_LIMIT, n / U32_LIMIT;
    Peel(n, m, 0x100_0000 * q);
    Peel(n / 256, m / 256, 0x1_0000 * q);
    Peel(n / 256 / 256, m / 256 / 256, 0x100 * q);
    Peel(n / 256 / 256 / 256, m / 256 / 256 / 256, q);
  }

  lemma U16RoundTrip(n: nat, data: bytes, at: nat)
    requires n < U16_LIMIT && at + 2 <= |data| && data[at..at + 2] == U16(n)
    ensures ReadU16(data, at) == n
  {
    var d := data[at..at + 2];
    assert data[at] == d[0] && data[at + 1] == d[1];
  }

  lemma U16Back(data: bytes, at: nat)
    requires at + 2 <= |data|
    ensures ReadU16(data, at) < U16_LIMIT && U16(ReadU16(data, at)) == data[at..at + 2]
  {
  }

  /** Where each field of a data frame lies. */
  lemma Layout(data: bytes, a: bytes, b: bytes, c: bytes, p: bytes, l: bytes, rest: bytes)
    requires |a| == |b| == |c| == |l| == 4 && |p| == 1
    requires data == Header(a, b, c, p, l) + rest
    ensures |data| == DATA_HEADER_SIZE + |rest| && data[0] == MAGIC && data[1] == MAGIC_DATA
    ensures data[2..6] == a && data[6..10] == b && data[10..14] == c && data[14..15] == p && data[15..19] == l
    ensures data[19..] == rest
  {
  }

  lemma LayoutBack(data: bytes)
    requires |data| >= DATA_HEADER_SIZE && data[0] == MAGIC && data[1] == MAGIC_DATA
    ensures data[..19] == Header(data[2..6], data[6..10], data[10..14], data[14..15], data[15..19])
  {
  }

  lemma FieldsRead(data: bytes, seqNo: nat, timestamp: int, checksum: nat, priority: nat, length: nat)
    requires seqNo < U32_LIMIT && checksum < U32_LIMIT && priority < 256 && length < U32_LIMIT
    requires |data| >= DATA_HEADER_SIZE
    requires data[2..6] == U32(seqNo) && data[6..10] == U32(timestamp) && data[10..14] == U32(checksum)
    requires data[14..15] == U8(priority) && data[15..19] == U32(length)
    ensures ReadU32(data, 2) == seqNo && ReadU32(data, 6) == timestamp % U32_LIMIT && ReadU32(data, 10) == checksum
    ensures ReadU8(data, 14) == priority && ReadU32(data, 15) == length
  {
    hide U32, ReadU32;
    U32RoundTrip(seqNo, data, 2);
    U32Wraps(timestamp);
    U32RoundTrip(timestamp % U32_LIMIT, data, 6);
    U32RoundTrip(checksum, data, 10);
    assert data[14] == data[14..15][0];
    U32RoundTrip(length, data, 15);
  }

  lemma DecodeLaidOut(data: bytes, seqNo: nat, timestamp: int, checksum: nat, priority: nat, length: nat)
    requires seqNo < U32_LIMIT && checksum < U32_LIMIT && priority < 256 && length < U32_LIMIT
    requires |data| >= DATA_HEADER_SIZE && data[0] == MAGIC && data[1] == MAGIC_DATA
    requires data[2..6] == U32(seqNo) && data[6..10] == U32(timestamp) && data[10..14] == U32(checksum)
    requires data[14..15] == U8(priority) && data[15..19] == U32(length)
    ensures Decode(data)
         == if |data| < DATA_HEADER_SIZE + length || Checksum(data[19..19 + length]) != checksum then None
                            else Some(Data(seqNo, timestamp % U32_LIMIT, checksum, priority, data[19..19 + length]))
  {
    hide U32, ReadU32;
    FieldsRead(data, seqNo, timestamp, checksum, priority, length);
  }

  /** Decoding inverts encoding, whatever follows the frame. */
  lemma DataRoundTrip(seqNo: nat, timestamp: int, priority: nat, payload: bytes, tail: bytes)
    requires seqNo < U32_LIMIT && priority < 256 && |payload| < U32_LIMIT
    ensures Decode(DataBytes(seqNo, timestamp, priority, payload) + tail)
         == Some(Data(seqNo, timestamp % U32_LIMIT, Checksum(payload), priority, payload))
  {
    var checksum := Checksum(payload);
    var header := Header(U32(seqNo), U32(timestamp), U32(checksum), U8(priority), U32(|payload|));
    var data := DataBytes(seqNo, timestamp, priority, payload) + tail;
    assert data == header + (payload + tail);
    Layout(data, U32(seqNo), U32(timestamp), U32(checksum), U8(priority), U32(|payload|), payload + tail);
    ChecksumRange(payload);
    assert data[19..19 + |payload|] == data[19..][..|payload|] == payload;
    DecodeLaidOut(data, seqNo, timestamp, checksum, priority, |payload|);
  }

  lemma AckRoundTrip(ackSeq: nat, window: nat, tail: bytes)
    requires ackSeq < U32_LIMIT && window < U16_LIMIT
    ensures Decode(AckBytes(ackSeq, window) + tail) == Some(Ack(ackSeq, window))
  {
    var data := AckBytes(ackSeq, window) + tail;
    assert data[2..6] == U32(ackSeq) && data[6..8] == U16(window);
    U32RoundTrip(ackSeq, data, 2);
    U16RoundTrip(window, data, 6);
    MagicsDiffer();
  }

  lemma ResumeRoundTrip(lastAckSeq: nat, tail: bytes)
    requires lastAckSeq < U32_LIMIT
    ensures Decode(ResumeBytes(lastAckSeq) + tail) == Some(Resume(lastAckSeq))
  {
    var data := ResumeBytes(lastAckSeq) + tail;
    assert data[2..6] == U32(lastAckSeq);
    U32RoundTrip(lastAckSeq, data, 2);
    MagicsDiffer();
  }

  lemma MagicsDiffer()
    ensures MAGIC_DATA != MAGIC_ACK && MAGIC_DATA != MAGIC_RESUME && MAGIC_ACK != MAGIC_RESUME
  {
  }

  lemma DecodedRange(data: bytes)
    requires Decode(data).Some? && Decode(data).value.Data?
    ensures var f := Decode(data).value; f.seqNo < U32_LIMIT && f.priority < 256 && |f.payload| < U32_LIMIT
  {
    hide U32, Checksum;
    U32Back(data, 2);
    U32Back(data, 15);
  }

  /** What Encode gives back for a decoded frame. */
  function Encode(f: Frame): bytes {
    match f
    case Data(seqNo, timestamp, _, priority, payload) => DataBytes(seqNo, timestamp, priority, payload)
    case Ack(ackSeq, window) => AckBytes(ackSeq, window)
    case Resume(lastAckSeq) => ResumeBytes(lastAckSeq)
  }

  lemma HeaderBack(data: bytes)
    requires |data| >= DATA_HEADER_SIZE && data[0] == MAGIC && data[1] == MAGIC_DATA
    ensures data[..19] == Header(U32(ReadU32(data, 2)), U32(ReadU32(data, 6)), U32(ReadU32(data, 10)),
                                 U8(ReadU8(data, 14)), U32(ReadU32(data, 15)))
  {
    hide U32, ReadU32, Header;
    U32Back(data, 2);
    U32Back(data, 6);
    U32Back(data, 10);
    assert data[14..15] == U8(ReadU8(data, 14));
    U32Back(data, 15);
    LayoutBack(data);
  }

  lemma DecodeDataIsFaithful(data: bytes)
    requires |data| >= DATA_HEADER_SIZE && data[0] == MAGIC && data[1] == MAGIC_DATA && DecodeData(data).Some?
    ensures Encode(DecodeData(data).value) <= data
  {
    hide U32, U8, ReadU32, ReadU8, Checksum, Header;
    var length := ReadU32(data, 15);
    HeaderBack(data);
    SplitSlice(data, 19, 19 + length);
  }

  lemma SplitSlice(data: bytes, i: nat, j: nat)
    requires i <= j <= |data|
    ensures data[..j] == data[..i] + data[i..j]
  {
  }

  /** Decoding loses nothing: an accepted frame re-encodes to exactly the prefix it was read from. */
  lemma DecodeIsFaithful(data: bytes)
    requires Decode(data).Some?
    ensures Encode(Decode(data).value) <= data
  {
    MagicsDiffer();
    match Decode(data).value
    case Data(_, _, _, _, _) =>
      DecodeDataIsFaithful(data);
    case Ack(ackSeq, window) =>
      U32Back(data, 2);
      U16Back(data, 6);
      assert data[..8] == [MAGIC, MAGIC_ACK] + data[2..6] + data[6..8];
    case Resume(lastAckSeq) =>
      U32Back(data, 2);
      assert data[..6] == [MAGIC, MAGIC_RESUME] + data[2..6];
  }

  /** received is frame with damage only inside four consecutive payload bytes, the first of them payload byte k. */
  predicate PayloadDamaged(frame: bytes, k: nat, received: bytes) {
    received != frame && ChangedWithin(frame, received, DATA_HEADER_SIZE + k)
  }

  lemma SplitAtHeader(header: bytes, payload: bytes, k: nat, received: bytes)
    requires |header| == DATA_HEADER_SIZE && PayloadDamaged(header + payload, k, received)
    ensures |received| == DATA_HEADER_SIZE + |payload| && received == header + received[DATA_HEADER_SIZE..]
    ensures received[DATA_HEADER_SIZE..] != payload && ChangedWithin(payload, received[DATA_HEADER_SIZE..], k)
  {
    var frame, damaged := header + payload, received[DATA_HEADER_SIZE..];
    assert received[..DATA_HEADER_SIZE] == header;
    forall i | 0 <= i < |payload| && !(k <= i < k + 4)
      ensures payload[i] == damaged[i]
    {
      assert frame[DATA_HEADER_SIZE + i] == received[DATA_HEADER_SIZE + i];
    }
  }

  /** What decoding makes of any payload of the announced length under the header of another one. */
  lemma DecodeUnderHeader(seqNo: nat, timestamp: int, priority: nat, checksum: nat, damaged: bytes)
    requires seqNo < U32_LIMIT && priority < 256 && checksum < U32_LIMIT && |damaged| < U32_LIMIT
    ensures var received := Header(U32(seqNo), U32(timestamp), U32(checksum), U8(priority), U32(|damaged|)) + damaged;
            Checksum(damaged) != checksum ==> Decode(received) == None
  {
    hide U32, ReadU32, Checksum, Decode, Header;
    var received := Header(U32(seqNo), U32(timestamp), U32(checksum), U8(priority), U32(|damaged|)) + damaged;
    Layout(received, U32(seqNo), U32(timestamp), U32(checksum), U8(priority), U32(|damaged|), damaged);
    DecodeLaidOut(received, seqNo, timestamp, checksum, priority, |damaged|);
    assert received[19..19 + |damaged|] == damaged;
  }

  lemma HeaderLength(a: bytes, b: bytes, c: bytes, p: bytes, l: bytes)
    requires |a| == |b| == |c| == |l| == 4 && |p| == 1
    ensures |Header(a, b, c, p, l)| == DATA_HEADER_SIZE
  {
  }

  /** A data frame of any length with a damaged payload window is refused. */
  lemma DamageRejected(seqNo: nat, timestamp: int, priority: nat, payload: bytes, k: nat, received: bytes)
    requires seqNo < U32_LIMIT && priority < 256 && |payload| < U32_LIMIT
    requires PayloadDamaged(DataBytes(seqNo, timestamp, priority, payload), k, received)
    ensures Decode(received) == None
  {
    hide U32, Decode, Checksum, PayloadDamaged, Header;
    var checksum := Checksum(payload);
    HeaderLength(U32(seqNo), U32(timestamp), U32(checksum), U8(priority), U32(|payload|));
    var header := Header(U32(seqNo), U32(timestamp), U32(checksum), U8(priority), U32(|payload|));
    SplitAtHeader(header, payload, k, received);
    var damaged := received[DATA_HEADER_SIZE..];
    ChecksumRange(payload);
    ChecksumBurst(payload, damaged, k);
    DecodeUnderHeader(seqNo, timestamp, priority, checksum, damaged);
  }

  /** The checksum does not cover the header: with another sequence number written into it the frame is still accepted,
      as that other frame. */
  lemma HeaderUnprotected(seqNo: nat, other: nat, timestamp: int, priority: nat, payload: bytes)
    requires seqNo < U32_LIMIT && other < U32_LIMIT && priority < 256 && |payload| < U32_LIMIT
    ensures var frame := DataBytes(seqNo, timestamp, priority, payload);
            Decode(frame[..2] + U32(other) + frame[6..])
            == Some(Data(other, timestamp % U32_LIMIT, Checksum(payload), priority, payload))
  {
    hide U32, Decode, Checksum;
    var frame := DataBytes(seqNo, timestamp, priority, payload);
    DataRoundTrip(other, timestamp, priority, payload, []);
    assert frame[..2] + U32(other) + frame[6..] == DataBytes(other, timestamp, priority, payload) + [];
  }

  // ---- The encoders, writing their fields into a buffer front to back ----

  method SetBytes(buf: array<byte>, at: nat, b: bytes)
    requires at + |b| <= buf.Length
    modifies buf
    ensures buf[..at + |b|] == old(buf[..at]) + b
    ensures buf[at + |b|..] == old(buf[at + |b|..])
  {
    forall i | 0 <= i < |b| { buf[at + i] := b[i]; }
  }

  method EncodeData(table: array<bv32>, seqNo: nat, timestamp: int, priority: nat, payload: bytes)
    returns (buf: array<byte>)
    requires IsTable(table[..])
    ensures fresh(buf) && buf[..] == DataBytes(seqNo, timestamp, priority, payload)
  {
    hide U32, Checksum;
    var checksum := Crc32Of(table, payload);
    buf := new byte[DATA_HEADER_SIZE + |payload|];
    SetBytes(buf, 0, [MAGIC, MAGIC_DATA]);
    SetBytes(buf, 2, U32(seqNo));
    SetBytes(buf, 6, U32(timestamp));
    SetBytes(buf, 10, U32(checksum));
    SetBytes(buf, 14, U8(priority));
    SetBytes(buf, 15, U32(|payload|));
    SetBytes(buf, DATA_HEADER_SIZE, payload);
    assert buf[..] == buf[..buf.Length];
  }

  method EncodeAck(ackSeq: nat, window: nat) returns (buf: array<byte>)
    ensures fresh(buf) && buf[..] == AckBytes(ackSeq, window)
  {
    buf := new byte[ACK_SIZE];
    SetBytes(buf, 0, [MAGIC, MAGIC_ACK]);
    SetBytes(buf, 2, U32(ackSeq));
    SetBytes(buf, 6, U16(window));
    assert buf[..] == buf[..ACK_SIZE];
  }

  method EncodeResume(lastAckSeq: nat) returns (buf: array<byte>)
    ensures fresh(buf) && buf[..] == ResumeBytes(lastAckSeq)
  {
    buf := new byte[RESUME_SIZE];
    SetBytes(buf, 0, [MAGIC, MAGIC_RESUME]);
    SetBytes(buf, 2, U32(lastAckSeq));
    assert buf[..] == buf[..RESUME_SIZE];
  }

  /** decode as written: header fields first, the checksum last. */
  method DecodeBytes(table: array<bv32>, data: bytes) returns (frame: Option<Frame>)
    requires IsTable(table[..])
    ensures frame == Decode(data)
  {
    if |data| < 2 || data[0] != MAGIC { return None; }
    if data[1] == MAGIC_DATA && |data| >= DATA_HEADER_SIZE {
      var seqNo := ReadU32(data, 2);
      var timestamp := ReadU32(data, 6);
      var checksum := ReadU32(data, 10);
      var priority := ReadU8(data, 14);
      var length := ReadU32(data, 15);
      if |data| < DATA_HEADER_SIZE + length { return None; }
      var payload := data[DATA_HEADER_SIZE..DATA_HEADER_SIZE + length];
      var actual := Crc32Of(table, payload);
      if actual != checksum { return None; }
      return Some(Data(seqNo, timestamp, checksum, priority, payload));
    }
    if data[1] == MAGIC_ACK && |data| >= ACK_SIZE {
      return Some(Ack(ReadU32(data, 2), ReadU16(data, 6)));
    }
    if data[1] == MAGIC_RESUME && |data| >= RESUME_SIZE {
      return Some(Resume(ReadU32(data, 2)));
    }
    return None;
  }
}
