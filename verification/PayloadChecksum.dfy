// The checksum field of a data frame: the CRC-32 of the payload as an unsigned number.
module PayloadChecksum {
  import opened Octets
  import opened Crc32
  import opened Crc32Bursts

  function Checksum(payload: bytes): nat { Crc(OctetsOf(payload)) as int }

  lemma ChecksumRange(payload: bytes)
    ensures Checksum(payload) < 0x1_0000_0000
  {
  }

  /** q is p with nothing changed outside the four bytes from position k on. */
  predicate ChangedWithin(p: bytes, q: bytes, k: nat) {
    |p| == |q| && forall i :: 0 <= i < |p| && !(k <= i < k + 4) ==> p[i] == q[i]
  }

  lemma SameWord(a: bv32, b: bv32)
    requires a as int == b as int
    ensures a == b
  {
    BackToBits(a);
    BackToBits(b);
  }

  /** Payloads of any length that differ only inside four consecutive bytes have different checksums. */
  lemma ChecksumBurst(p: bytes, q: bytes, k: nat)
    requires ChangedWithin(p, q, k) && p != q
    ensures Checksum(p) != Checksum(q)
  {
    hide Octet;
    var i :| 0 <= i < |p| && p[i] != q[i];
    var a, b := OctetsOf(p), OctetsOf(q);
    if a[i] == b[i] {
      OctetInjective(p[i], q[i]);
    }
    assert a != b;
    BurstDetected(a, b, k);
    if Checksum(p) == Checksum(q) {
      SameWord(Crc(a), Crc(b));
    }
  }

  lemma OctetsOfPrefix(data: bytes, i: nat)
    requires i < |data|
    ensures OctetsOf(data[..i + 1]) == OctetsOf(data[..i]) + [Octet(data[i])]
  {
  }

  /** The code: one table lookup a byte, preset and complement. */
  method Crc32Of(table: array<bv32>, data: bytes) returns (checksum: nat)
    requires IsTable(table[..])
    ensures checksum == Checksum(data)
  {
    hide Octet;
    var crc := ONES;
    var i := 0;
    while i < |data|
      invariant 0 <= i <= |data| && crc == Divide(ONES, OctetsOf(data[..i]))
    {
      var b := Octet(data[i]);
      OctetsOfPrefix(data, i);
      assert OctetsOf(data[..i + 1])[..i] == OctetsOf(data[..i]);
      var entry := Lookup(table[..], crc, b);
      StepIsLookup(crc, b, entry);
      crc := entry ^ (crc >> 8);
      i := i + 1;
    }
    assert data[..i] == data;
    checksum := (crc ^ ONES) as int;
  }
}
