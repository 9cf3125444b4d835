// Bytes as numbers, and as the bit patterns the checksum works on.
module Octets {

  newtype byte = x: int | 0 <= x < 256
  type bytes = seq<byte>
  type octets = seq<bv8>

  /** The bit pattern that counts to n. */
  function Pattern(n: nat): bv8 {
    if n == 0 then 0 else Pattern(n - 1) + 1
  }

  function Octet(b: byte): bv8 { Pattern(b as nat) }

  function OctetsOf(data: bytes): (r: octets)
    ensures |r| == |data|
  {
    seq(|data|, i requires 0 <= i < |data| => Octet(data[i]))
  }

  lemma Increment(x: bv8)
    requires x < 255
    ensures (x + 1) as int == x as int + 1
  {
  }

  lemma {:induction false} PatternValue(n: nat)
    requires n < 256
    ensures Pattern(n) as int == n
  {
    if n > 0 {
      PatternValue(n - 1);
      Increment(Pattern(n - 1));
    }
  }

  /** Distinct bytes have distinct bit patterns. */
  lemma OctetInjective(a: byte, b: byte)
    requires Octet(a) == Octet(b)
    ensures a == b
  {
    PatternValue(a as nat);
    PatternValue(b as nat);
  }
}
