// What the checksum of a data frame detects: any change confined to four consecutive payload bytes,
// that is, any error burst no longer than the 32-bit register.
module Crc32Bursts {
  import opened Octets
  import opened Crc32

  /** Only the n low bytes of d may be non-zero. */
  predicate Below(d: bv32, n: nat)
    requires n <= 3
  {
    d & (if n == 0 then 0 else if n == 1 then 0xFF else if n == 2 then 0xFFFF else 0xFFFFFF) == d
  }

  lemma Undo8(e: bv32)
    requires Below(e, 3)
    ensures Shifts(e << 8, 8) == e
  {
    ShiftLeftFacts(e);
    Halve8(e << 8);
    ShiftsClear(e << 8, 8);
  }

  lemma ShiftLeftFacts(e: bv32)
    requires Below(e, 3)
    ensures (e << 8) >> 8 == e && (e << 8) & 0xFF == 0
  {
  }

  lemma BelowGrows(e: bv32, n: nat)
    requires n <= 3 && Below(e, n)
    ensures Below(e, 3)
  {
  }

  /** If two registers differ in e after a byte, then they differed in e one byte further up before it,
      once the bytes fed are mixed in. */
  lemma BackOneByte(a: bv32, r: bv32, x: bv8, b: bv32, t: bv32, y: bv8, d: bv32, e: bv32)
    requires IsXor(a, r, Wide(x)) && IsXor(b, t, Wide(y)) && IsXor(d, a, b)
    requires IsXor(e, DivideBits(r, Wide(x), 8), DivideBits(t, Wide(y), 8)) && Below(e, 3)
    ensures d == e << 8
  {
    DivideByte(a, r, x);
    DivideByte(b, t, y);
    ShiftsIsXor(d, a, b, 8);
    Undo8(e);
    SameXor(Shifts(d, 8), e, Shifts(a, 8), Shifts(b, 8));
    ShiftsInjective(d, e << 8, 8);
  }

  lemma SameXor(c: bv32, d: bv32, a: bv32, b: bv32)
    requires IsXor(c, a, b) && IsXor(d, a, b)
    ensures c == d
  {
  }

  lemma WidenDifference(a: bv32, r: bv32, x: bv8, b: bv32, t: bv32, y: bv8, d: bv32, e: bv32, n: nat)
    requires n <= 2 && Below(e, n)
    requires IsXor(a, r, Wide(x)) && IsXor(b, t, Wide(y)) && IsXor(e << 8, a, b) && IsXor(d, r, t)
    ensures Below(d, n + 1)
  {
  }

  lemma Xor(a: bv32, b: bv32) returns (c: bv32)
    ensures IsXor(c, a, b)
  {
    c := a ^ b;
  }

  lemma StepBack(r: bv32, t: bv32, x: bv8, y: bv8, e: bv32, n: nat) returns (d: bv32)
    requires n <= 2 && IsXor(e, DivideBits(r, Wide(x), 8), DivideBits(t, Wide(y), 8)) && Below(e, n)
    ensures IsXor(d, r, t) && Below(d, n + 1)
  {
    d := Xor(r, t);
    var a := Xor(r, Wide(x));
    var b := Xor(t, Wide(y));
    var ab := Xor(a, b);
    BelowGrows(e, n);
    BackOneByte(a, r, x, b, t, y, ab, e);
    WidenDifference(a, r, x, b, t, y, d, e, n);
  }

  lemma NoDifference(a: bv32, r: bv32, x: bv8, b: bv32, y: bv8, e: bv32)
    requires Below(e, 3)
    requires IsXor(a, r, Wide(x)) && IsXor(b, r, Wide(y)) && IsXor(e << 8, a, b)
    ensures x == y
  {
  }

  lemma StepApart(r: bv32, x: bv8, y: bv8, e: bv32)
    requires IsXor(e, DivideBits(r, Wide(x), 8), DivideBits(r, Wide(y), 8)) && Below(e, 3)
    ensures x == y
  {
    var a := Xor(r, Wide(x));
    var b := Xor(r, Wide(y));
    var ab := Xor(a, b);
    BackOneByte(a, r, x, b, r, y, ab, e);
    NoDifference(a, r, x, b, y, e);
  }

  lemma Equal(r: bv32) returns (d: bv32)
    ensures IsXor(d, r, r) && Below(d, 0)
  {
    d := 0;
  }

  lemma {:induction false} DivideFirst(c: bv32, x: bv8, rest: octets)
    ensures Divide(c, [x] + rest) == Divide(DivideBits(c, Wide(x), 8), rest)
    decreases |rest|
  {
    if rest == [] {
      assert [x] + rest == [x];
      assert Divide(c, [x]) == DivideBits(Divide(c, []), Wide(x), 8);
    } else {
      var init := rest[..|rest| - 1];
      DivideFirst(c, x, init);
      assert ([x] + rest)[..|rest|] == [x] + init;
    }
  }

  /** Registers that meet after n bytes differed at most in their n low bytes before. */
  lemma {:induction false} MeetingRegisters(r: bv32, t: bv32, xs: octets, ys: octets) returns (d: bv32)
    requires |xs| == |ys| <= 3 && Divide(r, xs) == Divide(t, ys)
    ensures IsXor(d, r, t) && Below(d, |xs|)
    decreases |xs|
  {
    if xs == [] {
      d := Equal(r);
    } else {
      AfterFirst(r, xs);
      AfterFirst(t, ys);
      var e := MeetingRegisters(DivideBits(r, Wide(xs[0]), 8), DivideBits(t, Wide(ys[0]), 8), xs[1..], ys[1..]);
      d := StepBack(r, t, xs[0], ys[0], e, |xs| - 1);
    }
  }

  lemma AfterFirst(c: bv32, xs: octets)
    requires xs != []
    ensures Divide(c, xs) == Divide(DivideBits(c, Wide(xs[0]), 8), xs[1..])
  {
    assert xs == [xs[0]] + xs[1..];
    DivideFirst(c, xs[0], xs[1..]);
  }

  lemma FirstByteSame(r: bv32, xs: octets, ys: octets)
    requires 0 < |xs| == |ys| <= 4 && Divide(r, xs) == Divide(r, ys)
    ensures xs[0] == ys[0]
  {
    AfterFirst(r, xs);
    AfterFirst(r, ys);
    var e := MeetingRegisters(DivideBits(r, Wide(xs[0]), 8), DivideBits(r, Wide(ys[0]), 8), xs[1..], ys[1..]);
    BelowGrows(e, |xs| - 1);
    StepApart(r, xs[0], ys[0], e);
  }

  /** The register tells any two words of up to four bytes apart. */
  lemma {:induction false} WordsApart(r: bv32, xs: octets, ys: octets)
    requires |xs| == |ys| <= 4 && Divide(r, xs) == Divide(r, ys)
    ensures xs == ys
    decreases |xs|
  {
    if xs != [] {
      FirstByteSame(r, xs, ys);
      AfterFirst(r, xs);
      AfterFirst(r, ys);
      WordsApart(DivideBits(r, Wide(xs[0]), 8), xs[1..], ys[1..]);
    }
  }

  lemma XorRightCancel(r: bv32, t: bv32, w: bv32)
    requires r ^ w == t ^ w
    ensures r == t
  {
  }

  lemma SameMixed(m: bv32, r: bv32, t: bv32, w: bv32)
    requires IsXor(m, r, w) && IsXor(m, t, w)
    ensures r == t
  {
  }

  lemma NoTail(r: bv32, tail: octets)
    requires tail == []
    ensures Divide(r, tail) == r
  {
  }

  /** The register after one more byte. */
  lemma LastByte(r: bv32, tail: octets) returns (mixed: bv32)
    requires tail != []
    ensures IsXor(mixed, Divide(r, tail[..|tail| - 1]), Wide(tail[|tail| - 1])) && Divide(r, tail) == Shifts(mixed, 8)
  {
    var before, last := Divide(r, tail[..|tail| - 1]), tail[|tail| - 1];
    mixed := before ^ Wide(last);
    DivideByte(mixed, before, last);
  }

  lemma {:induction false} SameTail(r: bv32, t: bv32, tail: octets)
    requires Divide(r, tail) == Divide(t, tail)
    ensures r == t
    decreases |tail|
  {
    hide Shifts, Wide, DivideBits, IsXor, Divide;
    if tail != [] {
      var init := tail[..|tail| - 1];
      var a := LastByte(r, tail);
      var b := LastByte(t, tail);
      ShiftsInjective(a, b, 8);
      SameMixed(a, Divide(r, init), Divide(t, init), Wide(tail[|tail| - 1]));
      SameTail(r, t, init);
    } else {
      NoTail(r, tail);
      NoTail(t, tail);
    }
  }

  lemma {:induction false} DivideConcat(c: bv32, xs: octets, ys: octets)
    ensures Divide(c, xs + ys) == Divide(Divide(c, xs), ys)
    decreases |ys|
  {
    if ys == [] {
      assert xs + ys == xs;
    } else {
      DivideConcat(c, xs, ys[..|ys| - 1]);
      assert (xs + ys)[..|xs + ys| - 1] == xs + ys[..|ys| - 1];
    }
  }

  /** Words between the same front and the same tail. */
  lemma WordsBetween(front: octets, xs: octets, ys: octets, tail: octets)
    requires |xs| == |ys| <= 4 && Divide(ONES, front + xs + tail) == Divide(ONES, front + ys + tail)
    ensures xs == ys
  {
    hide Divide;
    DivideConcat(ONES, front + xs, tail);
    DivideConcat(ONES, front + ys, tail);
    SameTail(Divide(ONES, front + xs), Divide(ONES, front + ys), tail);
    DivideConcat(ONES, front, xs);
    DivideConcat(ONES, front, ys);
    WordsApart(Divide(ONES, front), xs, ys);
  }

  lemma SameCrc(p: octets, q: octets)
    requires Crc(p) == Crc(q)
    ensures Divide(ONES, p) == Divide(ONES, q)
  {
    hide Divide;
    XorRightCancel(Divide(ONES, p), Divide(ONES, q), ONES);
  }

  /** The message around the bytes from lo to hi. */
  lemma Around(p: octets, lo: nat, hi: nat)
    requires lo <= hi <= |p|
    ensures p == p[..lo] + p[lo..hi] + p[hi..]
  {
  }

  lemma SameAround(p: octets, q: octets, k: nat) returns (lo: nat, hi: nat)
    requires |p| == |q| && forall i :: 0 <= i < |p| && !(k <= i < k + 4) ==> p[i] == q[i]
    ensures lo <= hi <= |p| && hi <= lo + 4 && p[..lo] == q[..lo] && p[hi..] == q[hi..]
  {
    lo := if k <= |p| then k else |p|;
    hi := if k + 4 <= |p| then k + 4 else |p|;
    assert forall i :: 0 <= i < lo ==> p[i] == q[i];
    assert forall i :: hi <= i < |p| ==> p[i] == q[i];
  }

  /** Messages of any length that differ only inside four consecutive bytes have different checksums. */
  lemma BurstDetected(p: octets, q: octets, k: nat)
    requires |p| == |q| && p != q
    requires forall i :: 0 <= i < |p| && !(k <= i < k + 4) ==> p[i] == q[i]
    ensures Crc(p) != Crc(q)
  {
    hide Divide, Crc;
    var lo, hi := SameAround(p, q, k);
    Around(p, lo, hi);
    Around(q, lo, hi);
    if Crc(p) == Crc(q) {
      SameCrc(p, q);
      WordsBetween(p[..lo], p[lo..hi], q[lo..hi], p[hi..]);
    }
  }
}
