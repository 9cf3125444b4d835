// CRC-32 as the reliability layer computes it (browser/js/reliable.js, crc32 and its lookup table).
//
// The reference is the bit-serial division register of RFC 1952, section 8: one message bit at a time,
// least significant bit first. The code uses a 256-entry table and one lookup a byte.
module Crc32 {

  import opened Octets

  const POLY: bv32 := 0xEDB88320
  const ONES: bv32 := 0xFFFFFFFF

  // ---- Reference: division by the generator polynomial, one message bit at a time ----

  /** Divides out one bit: the register moves by one position and takes the polynomial back when a one falls off. */
  function ShiftBit(c: bv32): bv32 {
    if c & 1 == 1 then POLY ^ (c >> 1) else c >> 1
  }

  function DivideBit(c: bv32, bit: bool): bv32 {
    ShiftBit(if bit then c ^ 1 else c)
  }

  /** Feeds the n low bits of w, lowest first. */
  function DivideBits(c: bv32, w: bv32, n: nat): bv32
    decreases n
  {
    if n == 0 then c else DivideBits(DivideBit(c, w & 1 == 1), w >> 1, n - 1)
  }

  function Wide(b: bv8): bv32 { b as bv32 }

  function Divide(c: bv32, data: octets): bv32
    decreases |data|
  {
    if data == [] then c else DivideBits(Divide(c, data[..|data| - 1]), Wide(data[|data| - 1]), 8)
  }

  /** CRC-32 by bit-serial division: register preset to ones, remainder complemented. */
  function Crc(data: octets): bv32 {
    Divide(ONES, data) ^ ONES
  }

  lemma HelloFirst()
    ensures DivideBits(ONES, 0x68, 8) == 0x6E94F918 && DivideBits(0x6E94F918, 0x65, 8) == 0x2EDA9978
  {
  }

  lemma HelloMiddle()
    ensures DivideBits(0x2EDA9978, 0x6C, 8) == 0x1AF40EE4 && DivideBits(0x1AF40EE4, 0x6C, 8) == 0xE379FF1C
  {
  }

  lemma HelloLast()
    ensures DivideBits(0xE379FF1C, 0x6F, 8) == 0xC9EF5979
  {
  }

  lemma DivideSnoc(c: bv32, data: octets, b: bv8)
    ensures Divide(c, data + [b]) == DivideBits(Divide(c, data), Wide(b), 8)
  {
    assert (data + [b])[..|data|] == data;
  }

  /** The check value of the documentation: the checksum of "hello". */
  lemma HelloChecksum()
    ensures Crc([0x68, 0x65, 0x6C, 0x6C, 0x6F]) == 0x3610A686
  {
    hide DivideBits, Divide;
    HelloFirst();
    HelloMiddle();
    HelloLast();
    NothingDivided(ONES);
    DivideSnoc(ONES, [], 0x68);
    DivideSnoc(ONES, [0x68], 0x65);
    DivideSnoc(ONES, [0x68, 0x65], 0x6C);
    DivideSnoc(ONES, [0x68, 0x65, 0x6C], 0x6C);
    DivideSnoc(ONES, [0x68, 0x65, 0x6C, 0x6C], 0x6F);
    assert [] + [0x68 as bv8] == [0x68];
    assert [0x68 as bv8] + [0x65] == [0x68, 0x65];
    assert [0x68 as bv8, 0x65] + [0x6C] == [0x68, 0x65, 0x6C];
    assert [0x68 as bv8, 0x65, 0x6C] + [0x6C] == [0x68, 0x65, 0x6C, 0x6C];
    assert [0x68 as bv8, 0x65, 0x6C, 0x6C] + [0x6F] == [0x68, 0x65, 0x6C, 0x6C, 0x6F];
  }

  lemma NothingDivided(c: bv32)
    ensures Divide(c, []) == c
  {
  }

  // ---- Division steps without input are linear and lose nothing ----

  function Shifts(c: bv32, n: nat): bv32
    decreases n
  {
    if n == 0 then c else Shifts(ShiftBit(c), n - 1)
  }

  predicate IsXor(c: bv32, a: bv32, b: bv32) { c == a ^ b }

  lemma LowBitLinear(a: bv32, b: bv32)
    ensures (a ^ b) & 1 == (a & 1) ^ (b & 1)
    ensures (a ^ b) >> 1 == (a >> 1) ^ (b >> 1)
    ensures a & 1 == 0 || a & 1 == 1
  {
  }

  lemma XorCancel(p: bv32, x: bv32, y: bv32)
    ensures (p ^ x) ^ (p ^ y) == x ^ y
    ensures (p ^ x) ^ y == p ^ (x ^ y)
    ensures x ^ (p ^ y) == p ^ (x ^ y)
  {
  }

  lemma ShiftBitLinear(a: bv32, b: bv32)
    ensures ShiftBit(a ^ b) == ShiftBit(a) ^ ShiftBit(b)
  {
    LowBitLinear(a, b);
    LowBitLinear(b, a);
    XorCancel(POLY, a >> 1, b >> 1);
  }

  lemma ShiftBitIsXor(c: bv32, a: bv32, b: bv32)
    requires IsXor(c, a, b)
    ensures IsXor(ShiftBit(c), ShiftBit(a), ShiftBit(b))
  {
    ShiftBitLinear(a, b);
  }

  lemma {:induction false} ShiftsIsXor(c: bv32, a: bv32, b: bv32, n: nat)
    requires IsXor(c, a, b)
    ensures IsXor(Shifts(c, n), Shifts(a, n), Shifts(b, n))
    decreases n
  {
    if n > 0 {
      ShiftBitIsXor(c, a, b);
      ShiftsIsXor(ShiftBit(c), ShiftBit(a), ShiftBit(b), n - 1);
    }
  }

  lemma ShiftBitInjective(a: bv32, b: bv32)
    requires ShiftBit(a) == ShiftBit(b)
    ensures a == b
  {
  }

  lemma {:induction false} ShiftsInjective(a: bv32, b: bv32, n: nat)
    requires Shifts(a, n) == Shifts(b, n)
    ensures a == b
    decreases n
  {
    if n > 0 {
      ShiftsInjective(ShiftBit(a), ShiftBit(b), n - 1);
      ShiftBitInjective(a, b);
    }
  }

  // ---- Plain shifting: what is left of a word after its n low bits are gone ----

  function Halve(w: bv32, n: nat): bv32
    decreases n
  {
    if n == 0 then w else Halve(w >> 1, n - 1)
  }

  predicate LowClear(w: bv32, n: nat)
    decreases n
  {
    n == 0 || (w & 1 == 0 && LowClear(w >> 1, n - 1))
  }

  /** With the low bits clear nothing falls off the register: dividing is a plain shift. */
  lemma {:induction false} ShiftsClear(w: bv32, n: nat)
    requires LowClear(w, n)
    ensures Shifts(w, n) == Halve(w, n)
    decreases n
  {
    if n > 0 {
      ShiftsClear(w >> 1, n - 1);
    }
  }

  predicate IsHalf(v: bv32, w: bv32) { v == w >> 1 }

  predicate IsEven(w: bv32) { w & 1 == 0 }

  lemma HalveNone(w: bv32)
    ensures Halve(w, 0) == w && LowClear(w, 0)
  {
  }

  lemma HalveStep(w: bv32, v: bv32, n: nat)
    requires IsHalf(v, w)
    ensures Halve(w, n + 1) == Halve(v, n)
    ensures IsEven(w) && LowClear(v, n) ==> LowClear(w, n + 1)
  {
  }

  lemma HalveChain(w: bv32, w1: bv32, w2: bv32, w3: bv32, w4: bv32, w5: bv32, w6: bv32, w7: bv32, w8: bv32)
    requires IsHalf(w1, w) && IsHalf(w2, w1) && IsHalf(w3, w2) && IsHalf(w4, w3)
    requires IsHalf(w5, w4) && IsHalf(w6, w5) && IsHalf(w7, w6) && IsHalf(w8, w7)
    ensures Halve(w, 8) == w8
    ensures IsEven(w) && IsEven(w1) && IsEven(w2) && IsEven(w3) && IsEven(w4) && IsEven(w5) && IsEven(w6) && IsEven(w7)
            ==> LowClear(w, 8)
  {
    hide Halve, LowClear, IsHalf, IsEven;
    HalveNone(w8);
    HalveStep(w7, w8, 0);
    HalveStep(w6, w7, 1);
    HalveStep(w5, w6, 2);
    HalveStep(w4, w5, 3);
    HalveStep(w3, w4, 4);
    HalveStep(w2, w3, 5);
    HalveStep(w1, w2, 6);
    HalveStep(w, w1, 7);
  }

  lemma Halve8(w: bv32)
    ensures Halve(w, 8) == w >> 8
    ensures w & 0xFF == 0 ==> LowClear(w, 8)
  {
    hide Halve, LowClear, IsHalf, IsEven;
    ShiftChain(w);
    HalveChain(w, w >> 1, w >> 2, w >> 3, w >> 4, w >> 5, w >> 6, w >> 7, w >> 8);
    if w & 0xFF == 0 {
      LowBits(w);
    }
  }

  lemma ShiftChain(w: bv32)
    ensures IsHalf(w >> 1, w) && IsHalf(w >> 2, w >> 1) && IsHalf(w >> 3, w >> 2) && IsHalf(w >> 4, w >> 3)
    ensures IsHalf(w >> 5, w >> 4) && IsHalf(w >> 6, w >> 5) && IsHalf(w >> 7, w >> 6) && IsHalf(w >> 8, w >> 7)
  {
  }

  lemma LowBits(w: bv32)
    requires w & 0xFF == 0
    ensures IsEven(w) && IsEven(w >> 1) && IsEven(w >> 2) && IsEven(w >> 3)
    ensures IsEven(w >> 4) && IsEven(w >> 5) && IsEven(w >> 6) && IsEven(w >> 7)
  {
  }

  // ---- Bytewise form of the register ----

  lemma SplitLowBit(x: bv32, r: bv32, w: bv32)
    requires IsXor(x, r, w)
    ensures IsXor(x, if w & 1 == 1 then r ^ 1 else r, w & 0xFFFFFFFE)
    ensures ShiftBit(w & 0xFFFFFFFE) == w >> 1
  {
  }

  /** Message bits may be mixed into the register ahead of time: x holds r with the n pending bits of w mixed in. */
  lemma {:induction false} PendingBits(x: bv32, r: bv32, w: bv32, n: nat)
    requires IsXor(x, r, w)
    ensures IsXor(Shifts(x, n), DivideBits(r, w, n), Halve(w, n))
    decreases n
  {
    if n > 0 {
      var fed := if w & 1 == 1 then r ^ 1 else r;
      SplitLowBit(x, r, w);
      ShiftBitIsXor(x, fed, w & 0xFFFFFFFE);
      PendingBits(ShiftBit(x), DivideBit(r, w & 1 == 1), w >> 1, n - 1);
    }
  }

  lemma ByteFits(b: bv8)
    ensures Wide(b) >> 8 == 0
  {
  }

  lemma XorZero(x: bv32, y: bv32, z: bv32)
    requires IsXor(x, y, z) && z == 0
    ensures x == y
  {
  }

  /** Feeding the eight bits of a byte is mixing the byte in and dividing eight times. */
  lemma DivideByte(x: bv32, r: bv32, b: bv8)
    requires IsXor(x, r, Wide(b))
    ensures DivideBits(r, Wide(b), 8) == Shifts(x, 8)
  {
    var w := Wide(b);
    PendingBits(x, r, w, 8);
    Halve8(w);
    ByteFits(b);
    XorZero(Shifts(x, 8), DivideBits(r, w, 8), Halve(w, 8));
  }

  lemma SplitLowByte(x: bv32)
    ensures IsXor(x, x & 0xFF, x & 0xFFFFFF00)
    ensures x & 0xFFFFFF00 & 0xFF == 0
    ensures (x & 0xFFFFFF00) >> 8 == x >> 8
  {
  }

  /** A table lookup replaces eight division steps. */
  lemma TableStep(x: bv32)
    ensures IsXor(Shifts(x, 8), Shifts(x & 0xFF, 8), x >> 8)
  {
    var low, high := x & 0xFF, x & 0xFFFFFF00;
    SplitLowByte(x);
    ShiftsIsXor(x, low, high, 8);
    Halve8(high);
    ShiftsClear(high, 8);
  }

  // ---- The code: table construction and the lookup loop ----

  /** Entry i of the table is i divided by the polynomial. */
  function TableValue(i: nat): bv32
    requires i < 256
  {
    Shifts(i as bv32, 8)
  }

  ghost predicate IsTable(t: seq<bv32>) {
    |t| == 256 && Filled(t, 256)
  }

  /** The first n entries are in place. */
  ghost predicate Filled(t: seq<bv32>, n: nat) {
    n <= |t| && n <= 256 && forall i :: 0 <= i < n ==> t[i] == TableValue(i)
  }

  lemma FillNext(t: seq<bv32>, n: nat, u: seq<bv32>)
    requires Filled(t, n) && n < 256 && n < |t| && u == t[n := TableValue(n)]
    ensures Filled(u, n + 1)
  {
  }

  method TableEntry(i: nat) returns (c: bv32)
    requires i < 256
    ensures c == TableValue(i)
  {
    c := i as bv32;
    var j := 0;
    while j < 8
      invariant 0 <= j <= 8 && Shifts(c, 8 - j) == TableValue(i)
    {
      c := if c & 1 == 1 then POLY ^ (c >> 1) else c >> 1;
      j := j + 1;
    }
  }

  method BuildTable() returns (t: array<bv32>)
    ensures fresh(t) && IsTable(t[..])
  {
    t := new bv32[256];
    var i := 0;
    while i < 256
      invariant 0 <= i <= 256 && Filled(t[..], i)
    {
      var c := TableEntry(i);
      ghost var before := t[..];
      t[i] := c;
      FillNext(before, i, t[..]);
      i := i + 1;
    }
  }

  function LookupIndex(crc: bv32, b: bv8): bv32 { (crc ^ Wide(b)) & 0xFF }

  lemma LowByteRange(x: bv32)
    ensures (x & 0xFF) as int < 256
  {
    assert x & 0xFF <= 255;
  }

  lemma BackToBits(x: bv32)
    ensures (x as int) as bv32 == x
  {
  }

  lemma HighBitsKept(x: bv32, crc: bv32, b: bv8)
    requires IsXor(x, crc, Wide(b))
    ensures x >> 8 == crc >> 8 && x & 0xFF == LookupIndex(crc, b)
  {
  }

  lemma StepIsLookup(crc: bv32, b: bv8, entry: bv32)
    requires entry == Shifts(LookupIndex(crc, b), 8)
    ensures IsXor(DivideBits(crc, Wide(b), 8), entry, crc >> 8)
  {
    var x := crc ^ Wide(b);
    DivideByte(x, crc, b);
    TableStep(x);
    HighBitsKept(x, crc, b);
  }

  lemma EntryAt(t: seq<bv32>, x: bv32)
    requires IsTable(t) && (x as int) < 256
    ensures t[x as int] == Shifts(x, 8)
  {
    BackToBits(x);
  }

  function Lookup(t: seq<bv32>, crc: bv32, b: bv8): (entry: bv32)
    requires IsTable(t)
    ensures entry == Shifts(LookupIndex(crc, b), 8)
  {
    LowByteRange(crc ^ Wide(b));
    EntryAt(t, LookupIndex(crc, b));
    t[LookupIndex(crc, b) as int]
  }
}
