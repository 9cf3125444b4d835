// The three kinds of frames byte by byte, with the numbers of the format written out
// (browser/js/reliable.js:38-84).
module WireFormat {
  import opened Octets
  import opened Crc32
  import opened PayloadChecksum
  import opened Codec
  import opened Channel

  /** "hello" */
  const HELLO: bytes := [0x68, 0x65, 0x6C, 0x6C, 0x6F]

  lemma AckExample()
    ensures AckBytes(0x01020304, 0x0506) == [0xB3, 0x02, 0x04, 0x03, 0x02, 0x01, 0x06, 0x05]
  {
    assert U32(0x01020304) == [0x04, 0x03, 0x02, 0x01];
    assert U16(0x0506) == [0x06, 0x05];
  }

  lemma ResumeExample()
    ensures ResumeBytes(0x01020304) == [0xB3, 0x03, 0x04, 0x03, 0x02, 0x01]
  {
    assert U32(0x01020304) == [0x04, 0x03, 0x02, 0x01];
  }

  lemma HelloOctets()
    ensures OctetsOf(HELLO) == [0x68, 0x65, 0x6C, 0x6C, 0x6F]
  {
    hide Pattern;
    PatternIs(0x68, 0x68);
    PatternIs(0x65, 0x65);
    PatternIs(0x6C, 0x6C);
    PatternIs(0x6F, 0x6F);
  }

  lemma PatternIs(n: nat, x: bv8)
    requires n < 256 && x as int == n
    ensures Pattern(n) == x
  {
    PatternValue(n);
    SameOctet(Pattern(n), x);
  }

  lemma SameOctet(x: bv8, y: bv8)
    requires x as int == y as int
    ensures x == y
  {
    assert x as int as bv8 == y as int as bv8;
  }

  lemma HelloIs()
    ensures Checksum(HELLO) == 0x3610A686
  {
    hide Crc;
    HelloOctets();
    HelloChecksum();
  }

  /** A data frame: number 7, time 0x0A0B0C0D, best-effort, "hello". */
  lemma DataExample()
    ensures DataBytes(7, 0x0A0B0C0D, BEST_EFFORT, HELLO)
         == [0xB3, 0x01, 0x07, 0x00, 0x00, 0x00, 0x0D, 0x0C, 0x0B, 0x0A, 0x86, 0xA6, 0x10, 0x36, 0x01,
             0x05, 0x00, 0x00, 0x00, 0x68, 0x65, 0x6C, 0x6C, 0x6F]
  {
    hide Checksum, U32;
    HelloIs();
    FieldExamples();
  }

  lemma FieldExamples()
    ensures U32(0x3610A686) == [0x86, 0xA6, 0x10, 0x36] && U32(0x0A0B0C0D) == [0x0D, 0x0C, 0x0B, 0x0A]
    ensures U32(7) == [0x07, 0x00, 0x00, 0x00] && U32(5) == [0x05, 0x00, 0x00, 0x00]
  {
  }

  /** Where the fields of any data frame lie. */
  lemma DataLayout(seqNo: nat, timestamp: int, priority: nat, payload: bytes)
    ensures var p := DataBytes(seqNo, timestamp, priority, payload);
            && |p| == 19 + |payload| && p[0] == 0xB3 && p[1] == 0x01
            && p[2..6] == U32(seqNo) && p[6..10] == U32(timestamp) && p[10..14] == U32(Checksum(payload))
            && p[14..15] == U8(priority) && p[15..19] == U32(|payload|) && p[19..] == payload
  {
    hide U32, Checksum;
  }
}
