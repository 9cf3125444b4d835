// The in-place radix-2 transform (browser/js/voice-play.js, _fft): incremental bit reversal, then butterfly stages.
// The cosines and sines are a parameter, assumed to be exact roots of unity.
module Fft {
  import opened ComplexNumbers
  import opened Powers

  // ---- Bit reversal ----

  /** The number whose m binary digits are those of i in reverse order. */
  function Rev(m: nat, i: nat): nat
    decreases m
  {
    if m == 0 then 0 else (if i % 2 == 1 then Pow2(m - 1) else 0) + Rev(m - 1, i / 2)
  }

  lemma {:induction false} RevBound(m: nat, i: nat)
    ensures Rev(m, i) < Pow2(m)
    decreases m
  {
    if m > 0 {
      RevBound(m - 1, i / 2);
    }
  }

  /** Seen from the other end: the top digit of i becomes the bottom digit. */
  lemma {:induction false} RevTop(m: nat, i: nat)
    requires i < Pow2(m)
    ensures Rev(m + 1, i) == 2 * Rev(m, i)
    ensures Rev(m + 1, i + Pow2(m)) == 2 * Rev(m, i) + 1
    decreases m
  {
    if m == 0 {
      assert Rev(1, 0) == 0 && Rev(1, 1) == 1;
    } else {
      RevTop(m - 1, i / 2);
      var p := Pow2(m - 1);
      assert (i + 2 * p) / 2 == i / 2 + p && (i + 2 * p) % 2 == i % 2;
    }
  }

  lemma {:induction false} RevInvolution(m: nat, i: nat)
    requires i < Pow2(m)
    ensures Rev(m, Rev(m, i)) == i
    decreases m
  {
    if m > 0 {
      var q := Rev(m - 1, i / 2);
      RevBound(m - 1, i / 2);
      RevInvolution(m - 1, i / 2);
      RevTop(m - 1, q);
    }
  }

  /** Adding one at the top: the carry runs downwards from bit. */
  function Increment(j: nat, m: nat): nat
    decreases m
  {
    if m == 0 then j
    else if j >= Pow2(m - 1) then Increment(j - Pow2(m - 1), m - 1)
    else j + Pow2(m - 1)
  }

  lemma QuotientBit(j: nat, bit: nat)
    requires bit >= 1 && j < 2 * bit
    ensures (j / bit % 2 == 1) <==> j >= bit
  {
    if j >= bit {
      assert j / bit == 1;
    } else {
      assert j / bit == 0;
    }
  }

  lemma {:induction false} IncrementIsNext(m: nat, i: nat)
    requires i + 1 < Pow2(m)
    ensures Increment(Rev(m, i), m) == Rev(m, i + 1)
    ensures Rev(m, i) + 1 < Pow2(m)
    decreases m
  {
    if m > 0 {
      var p, q := Pow2(m - 1), i / 2;
      RevBound(m, i);
      RevBound(m - 1, q);
      if i % 2 == 1 {
        assert (i + 1) / 2 == q + 1 && (i + 1) % 2 == 0;
        IncrementIsNext(m - 1, q);
      } else {
        assert (i + 1) / 2 == q && (i + 1) % 2 == 1;
      }
    }
  }

  // ---- The order of the scrambled samples ----

  function Zip(re: seq<real>, im: seq<real>): (z: seq<Complex>)
    requires |re| == |im|
    ensures |z| == |re|
    ensures forall i :: 0 <= i < |re| ==> z[i] == Complex(re[i], im[i])
  {
    seq(|re|, i requires 0 <= i < |re| => Complex(re[i], im[i]))
  }

  /** Undoes bit reversal of 2^m samples by interleaving halves. */
  function Unscramble(y: seq<Complex>, m: nat): (x: seq<Complex>)
    requires |y| == Pow2(m)
    ensures |x| == |y|
    decreases m
  {
    if m == 0 then y
    else
      var h := Pow2(m - 1);
      Interleave(Unscramble(y[..h], m - 1), Unscramble(y[h..], m - 1))
  }

  predicate ScrambledAt(y: seq<Complex>, x: seq<Complex>, m: nat, i: nat) {
    i < |y| && Rev(m, i) < |x| && y[i] == x[Rev(m, i)]
  }

  predicate Scrambled(y: seq<Complex>, x: seq<Complex>, m: nat) {
    |x| == |y| == Pow2(m) && forall i :: 0 <= i < |y| ==> ScrambledAt(y, x, m, i)
  }

  function Evens(x: seq<Complex>, h: nat): seq<Complex>
    requires |x| == 2 * h
  {
    seq(h, i requires 0 <= i < h => x[2 * i])
  }

  function Odds(x: seq<Complex>, h: nat): seq<Complex>
    requires |x| == 2 * h
  {
    seq(h, i requires 0 <= i < h => x[2 * i + 1])
  }

  lemma LowerHalf(y: seq<Complex>, x: seq<Complex>, m: nat)
    requires Scrambled(y, x, m + 1)
    ensures Scrambled(y[..Pow2(m)], Evens(x, Pow2(m)), m)
  {
    hide Rev;
    var lower, evens := y[..Pow2(m)], Evens(x, Pow2(m));
    forall i | 0 <= i < Pow2(m)
      ensures ScrambledAt(lower, evens, m, i)
    {
      RevTop(m, i);
      RevBound(m, i);
      assert ScrambledAt(y, x, m + 1, i);
    }
  }

  lemma UpperHalf(y: seq<Complex>, x: seq<Complex>, m: nat)
    requires Scrambled(y, x, m + 1)
    ensures Scrambled(y[Pow2(m)..], Odds(x, Pow2(m)), m)
  {
    hide Rev;
    var upper, odds := y[Pow2(m)..], Odds(x, Pow2(m));
    forall i | 0 <= i < Pow2(m)
      ensures ScrambledAt(upper, odds, m, i)
    {
      RevTop(m, i);
      RevBound(m, i);
      assert ScrambledAt(y, x, m + 1, i + Pow2(m));
    }
  }

  lemma InterleaveParts(x: seq<Complex>, h: nat)
    requires |x| == 2 * h
    ensures Interleave(Evens(x, h), Odds(x, h)) == x
  {
    var z := Interleave(Evens(x, h), Odds(x, h));
    forall i | 0 <= i < |x|
      ensures z[i] == x[i]
    {
      assert z[2 * (i / 2)] == x[2 * (i / 2)] && z[2 * (i / 2) + 1] == x[2 * (i / 2) + 1];
      assert i == 2 * (i / 2) || i == 2 * (i / 2) + 1;
    }
  }

  lemma {:induction false} UnscrambleInverts(y: seq<Complex>, x: seq<Complex>, m: nat)
    requires Scrambled(y, x, m)
    ensures Unscramble(y, m) == x
    decreases m
  {
    if m == 0 {
      assert ScrambledAt(y, x, 0, 0);
    } else {
      var h := Pow2(m - 1);
      LowerHalf(y, x, m - 1);
      UpperHalf(y, x, m - 1);
      UnscrambleInverts(y[..h], Evens(x, h), m - 1);
      UnscrambleInverts(y[h..], Odds(x, h), m - 1);
      InterleaveParts(x, h);
    }
  }

  // ---- The transform ----

  /** X is the discrete Fourier transform of x with root w. */
  predicate IsDft(X: seq<Complex>, x: seq<Complex>, w: Complex) {
    |X| == |x| && forall k :: 0 <= k < |x| ==> X[k] == Eval(x, Pow(w, k))
  }

  /** The butterflies of one block. */
  predicate Merged(X: seq<Complex>, a: seq<Complex>, b: seq<Complex>, w: Complex) {
    |a| == |b| && |X| == 2 * |a|
    && forall j :: 0 <= j < |a| ==>
        X[j] == Add(a[j], Mul(Pow(w, j), b[j])) && X[j + |a|] == Sub(a[j], Mul(Pow(w, j), b[j]))
  }

  lemma UpperHalfRoot(w: Complex, h: nat, j: nat)
    requires Pow(w, h) == Neg(ONE)
    ensures Pow(w, j + h) == Neg(Pow(w, j))
    ensures Pow(Mul(w, w), j + h) == Pow(Mul(w, w), j)
  {
    hide Mul;
    PowAdd(w, j, h);
    MinusOne(Pow(w, j));
    PowAdd(Mul(w, w), j, h);
    PowSquare(w, h);
    MinusOneSquared();
    Units(Pow(Mul(w, w), j));
  }

  lemma MergeAt(X: seq<Complex>, a: seq<Complex>, b: seq<Complex>, e: seq<Complex>, o: seq<Complex>, w: Complex, j: nat)
    requires IsDft(a, e, Mul(w, w)) && IsDft(b, o, Mul(w, w)) && |e| == |o| && Merged(X, a, b, w)
    requires Pow(w, |e|) == Neg(ONE) && j < |e|
    ensures X[j] == Eval(Interleave(e, o), Pow(w, j))
    ensures X[j + |e|] == Eval(Interleave(e, o), Pow(w, j + |e|))
  {
    hide Mul, Add, Eval;
    var h := |e|;
    EvalInterleave(e, o, Pow(w, j));
    PowSquare(w, j);
    EvalInterleave(e, o, Pow(w, j + h));
    PowSquare(w, j + h);
    UpperHalfRoot(w, h, j);
    NegMul(Pow(w, j), b[j]);
    SubIsAddNeg(a[j], Mul(Pow(w, j), b[j]));
  }

  /** Two half-size transforms merge into the transform of the interleaved samples. */
  lemma MergeIsDft(X: seq<Complex>, a: seq<Complex>, b: seq<Complex>, e: seq<Complex>, o: seq<Complex>, w: Complex)
    requires IsDft(a, e, Mul(w, w)) && IsDft(b, o, Mul(w, w)) && |e| == |o| && Merged(X, a, b, w)
    requires Pow(w, |e|) == Neg(ONE)
    ensures IsDft(X, Interleave(e, o), w)
  {
    hide Mul, Add, Sub, Neg, Pow, Eval;
    forall k | 0 <= k < |X|
      ensures X[k] == Eval(Interleave(e, o), Pow(w, k))
    {
      var j := if k < |e| then k else k - |e|;
      MergeAt(X, a, b, e, o, w, j);
    }
  }

  /** root(len) is cos and sin of -2 pi / len: squaring it gives the root for half the length, and the second root is
      -1. */
  predicate Roots(root: nat -> Complex, m: nat)
    decreases m
  {
    if m == 0 then true
    else if m == 1 then root(2) == Neg(ONE)
    else Mul(root(Pow2(m)), root(Pow2(m))) == root(Pow2(m - 1)) && Roots(root, m - 1)
  }

  lemma {:induction false} RootHalf(root: nat -> Complex, m: nat)
    requires m >= 1 && Roots(root, m)
    ensures Pow(root(Pow2(m)), Pow2(m - 1)) == Neg(ONE)
    decreases m
  {
    hide Mul;
    var w := root(Pow2(m));
    if m == 1 {
      assert Pow(w, 1) == Mul(Pow(w, 0), w);
      Units(w);
    } else {
      RootHalf(root, m - 1);
      var h := Pow2(m - 2);
      PowAdd(w, h, h);
      PowSquare(w, h);
    }
  }

  // ---- The code: bit-reversal permutation ----

  /** The permutation is complete for every pair whose smaller index is below i. */
  predicate SwappedBelow(a: seq<Complex>, x: seq<Complex>, m: nat, i: nat) {
    |a| == |x| == Pow2(m)
    && forall k :: 0 <= k < |a| ==>
        0 <= Rev(m, k) < |a| && a[k] == (if k < i || Rev(m, k) < i then x[Rev(m, k)] else x[k])
  }

  lemma SwapNothing(x: seq<Complex>, m: nat)
    requires |x| == Pow2(m)
    ensures SwappedBelow(x, x, m, 1)
  {
    forall k | 0 <= k < |x|
      ensures 0 <= Rev(m, k) < |x| && x[k] == (if k < 1 || Rev(m, k) < 1 then x[Rev(m, k)] else x[k])
    {
      RevBound(m, k);
      RevInvolution(m, k);
      RevZero(m);
    }
  }

  lemma {:induction false} RevZero(m: nat)
    ensures Rev(m, 0) == 0
    decreases m
  {
    if m > 0 {
      RevZero(m - 1);
    }
  }

  lemma SwapStep(a: seq<Complex>, b: seq<Complex>, x: seq<Complex>, m: nat, i: nat)
    requires SwappedBelow(a, x, m, i) && i < |a| && |b| == |a|
    requires var j := Rev(m, i);
             forall k :: 0 <= k < |a| ==>
                 b[k] == (if i < j && k == i then a[j] else if i < j && k == j then a[i] else a[k])
    ensures SwappedBelow(b, x, m, i + 1)
  {
    hide Rev;
    var j := Rev(m, i);
    RevInvolution(m, i);
    forall k | 0 <= k < |b|
      ensures 0 <= Rev(m, k) < |b| && b[k] == (if k < i + 1 || Rev(m, k) < i + 1 then x[Rev(m, k)] else x[k])
    {
      RevInvolution(m, k);
      assert a[k] == (if k < i || Rev(m, k) < i then x[Rev(m, k)] else x[k]);
      assert a[j] == (if j < i || Rev(m, j) < i then x[Rev(m, j)] else x[j]);
    }
  }

  lemma SwapAll(a: seq<Complex>, x: seq<Complex>, m: nat)
    requires SwappedBelow(a, x, m, Pow2(m))
    ensures Scrambled(a, x, m)
  {
    hide Rev;
    forall i | 0 <= i < |a|
      ensures ScrambledAt(a, x, m, i)
    {
      assert a[i] == x[Rev(m, i)];
    }
  }

  /** The inner loop: moves the bit-reversed counter on by one. */
  method NextReversed(j0: nat, size: nat, ghost m: nat) returns (j: nat)
    requires size == Pow2(m) && j0 + 1 < size
    ensures j == Increment(j0, m)
  {
    j := j0;
    var bit := size / 2;
    ghost var p := m;
    while j / bit % 2 == 1
      invariant 0 < p <= m && bit == Pow2(p - 1) && j + 1 < Pow2(p)
      invariant Increment(j, p) == Increment(j0, m)
      decreases p
    {
      QuotientBit(j, bit);
      j := j - bit;
      bit := bit / 2;
      p := p - 1;
    }
    QuotientBit(j, bit);
    j := j + bit;
  }

  method Swap(re: array<real>, im: array<real>, i: nat, j: nat)
    requires re != im && re.Length == im.Length && i < re.Length && j < re.Length
    modifies re, im
    ensures var b := old(Zip(re[..], im[..]));
            Zip(re[..], im[..]) == b[i := b[j]][j := b[i]]
  {
    re[i], re[j] := re[j], re[i];
    im[i], im[j] := im[j], im[i];
  }

  method Permute(re: array<real>, im: array<real>, ghost m: nat)
    requires re != im && re.Length == im.Length == Pow2(m)
    modifies re, im
    ensures Scrambled(Zip(re[..], im[..]), old(Zip(re[..], im[..])), m)
  {
    hide Rev, Increment, SwappedBelow, Scrambled;
    ghost var x := Zip(re[..], im[..]);
    ghost var z := x;
    SwapNothing(x, m);
    RevZero(m);
    var i, j := 1, 0;
    while i < re.Length
      invariant 1 <= i <= re.Length && j == Rev(m, i - 1)
      invariant z == Zip(re[..], im[..]) && SwappedBelow(z, x, m, i)
    {
      IncrementIsNext(m, i - 1);
      j := NextReversed(j, re.Length, m);
      RevBound(m, i);
      ghost var a := z;
      if i < j {
        Swap(re, im, i, j);
        z := z[i := z[j]][j := z[i]];
      }
      SwapStep(a, z, x, m, i);
      i := i + 1;
    }
    SwapAll(z, x, m);
  }

  // ---- The code: butterfly stages ----

  /** One butterfly: positions j and j + h of the block at i. */
  predicate ButterflyAt(b: seq<Complex>, a: seq<Complex>, i: nat, h: nat, w: Complex, j: nat)
    requires i + 2 * h <= |a| == |b| && j < h
  {
    var t := Mul(Pow(w, j), a[i + j + h]);
    b[i + j] == Add(a[i + j], t) && b[i + j + h] == Sub(a[i + j], t)
  }

  /** The first n butterflies of the block at i have been done, nothing else has changed. */
  predicate BlockUpTo(b: seq<Complex>, a: seq<Complex>, i: nat, h: nat, w: Complex, n: nat) {
    && i + 2 * h <= |a| == |b| && n <= h
    && (forall j :: 0 <= j < n ==> ButterflyAt(b, a, i, h, w, j))
    && (forall k :: 0 <= k < |a| && !(i <= k < i + n) && !(i + h <= k < i + h + n) ==> b[k] == a[k])
  }

  lemma BlockStep(b: seq<Complex>, a: seq<Complex>, i: nat, h: nat, w: Complex, n: nat, c: seq<Complex>, t: Complex)
    requires BlockUpTo(b, a, i, h, w, n) && n < h && t == Mul(b[i + n + h], Pow(w, n))
    requires c == b[i + n := Add(b[i + n], t)][i + n + h := Sub(b[i + n], t)]
    ensures BlockUpTo(c, a, i, h, w, n + 1)
  {
    hide Mul, Add, Sub;
    MulCommutes(a[i + n + h], Pow(w, n));
    forall j | 0 <= j < n
      ensures ButterflyAt(c, a, i, h, w, j)
    {
      assert ButterflyAt(b, a, i, h, w, j);
    }
  }

  lemma UpdatePair(re0: seq<real>, im0: seq<real>, p: nat, q: nat, t: Complex, re: seq<real>, im: seq<real>)
    requires |re0| == |im0| && p < |re0| && q < |re0| && p != q
    requires re == re0[p := re0[p] + t.re][q := re0[p] - t.re] && im == im0[p := im0[p] + t.im][q := im0[p] - t.im]
    ensures var b := Zip(re0, im0);
            Zip(re, im) == b[p := Add(b[p], t)][q := Sub(b[p], t)]
  {
  }

  /** One butterfly of the inner loop. */
  method Butterfly(re: array<real>, im: array<real>, p: nat, q: nat, curRe: real, curIm: real)
    requires re != im && re.Length == im.Length && p < re.Length && q < re.Length && p != q
    modifies re, im
    ensures var b := old(Zip(re[..], im[..]));
            var t := Mul(b[q], Complex(curRe, curIm));
            Zip(re[..], im[..]) == b[p := Add(b[p], t)][q := Sub(b[p], t)]
  {
    var tRe := re[q] * curRe - im[q] * curIm;
    var tIm := re[q] * curIm + im[q] * curRe;
    ghost var b := Zip(re[..], im[..]);
    assert b[q] == Complex(re[q], im[q]);
    assert Mul(b[q], Complex(curRe, curIm)) == Complex(tRe, tIm);
    re[q] := re[p] - tRe;
    im[q] := im[p] - tIm;
    re[p] := re[p] + tRe;
    im[p] := im[p] + tIm;
    UpdatePair(old(re[..]), old(im[..]), p, q, Complex(tRe, tIm), re[..], im[..]);
  }

  /** The butterflies of one block, with the twiddle factor carried along. */
  method MergeBlock(re: array<real>, im: array<real>, i: nat, halfLen: nat, wRe: real, wIm: real)
    requires re != im && re.Length == im.Length && i + 2 * halfLen <= re.Length
    modifies re, im
    ensures BlockUpTo(Zip(re[..], im[..]), old(Zip(re[..], im[..])), i, halfLen, Complex(wRe, wIm), halfLen)
  {
    hide BlockUpTo, Add, Sub, Mul;
    ghost var a, w := Zip(re[..], im[..]), Complex(wRe, wIm);
    ghost var z := a;
    BlockStart(a, i, halfLen, w);
    var curRe, curIm := 1.0, 0.0;
    var j := 0;
    while j < halfLen
      invariant 0 <= j <= halfLen && Complex(curRe, curIm) == Pow(w, j)
      invariant z == Zip(re[..], im[..]) && BlockUpTo(z, a, i, halfLen, w, j)
    {
      var p := i + j;
      var q := p + halfLen;
      ghost var b := z;
      Butterfly(re, im, p, q, curRe, curIm);
      ghost var t := Mul(b[q], Pow(w, j));
      z := b[p := Add(b[p], t)][q := Sub(b[p], t)];
      BlockStep(b, a, i, halfLen, w, j, z, t);
      NextTwiddle(curRe, curIm, w, j);
      var nextRe := curRe * wRe - curIm * wIm;
      curIm := curRe * wIm + curIm * wRe;
      curRe := nextRe;
      j := j + 1;
    }
  }

  lemma NextTwiddle(curRe: real, curIm: real, w: Complex, j: nat)
    requires Complex(curRe, curIm) == Pow(w, j)
    ensures Complex(curRe * w.re - curIm * w.im, curRe * w.im + curIm * w.re) == Pow(w, j + 1)
  {
    hide Pow;
    PowNext(w, j);
  }

  lemma PowNext(w: Complex, j: nat)
    ensures Pow(w, j + 1) == Mul(Pow(w, j), w)
  {
    hide Mul;
  }

  lemma BlockStart(a: seq<Complex>, i: nat, h: nat, w: Complex)
    requires i + 2 * h <= |a|
    ensures BlockUpTo(a, a, i, h, w, 0)
  {
  }

  // ---- What the stages achieve ----

  /** The block of 2^m values at i is the transform of its samples. */
  predicate BlockDone(a: seq<Complex>, y: seq<Complex>, root: nat -> Complex, i: nat, m: nat) {
    && |a| == |y| && i + Pow2(m) <= |a|
    && IsDft(a[i..i + Pow2(m)], Unscramble(y[i..i + Pow2(m)], m), root(Pow2(m)))
  }

  /** All blocks of 2^m values from i to the end. */
  predicate DoneFrom(a: seq<Complex>, y: seq<Complex>, root: nat -> Complex, i: nat, m: nat)
    decreases |a| - i
  {
    i == |a| || (BlockDone(a, y, root, i, m) && DoneFrom(a, y, root, i + Pow2(m), m))
  }

  /** All blocks of 2^m values before i. */
  predicate DoneTo(a: seq<Complex>, y: seq<Complex>, root: nat -> Complex, i: nat, m: nat)
    decreases i
  {
    i == 0 || (i >= Pow2(m) && BlockDone(a, y, root, i - Pow2(m), m) && DoneTo(a, y, root, i - Pow2(m), m))
  }

  /** n is a whole number of pieces of this length. */
  predicate Tiles(n: nat, len: nat)
    requires len >= 1
    decreases n
  {
    n == 0 || (n >= len && Tiles(n - len, len))
  }

  lemma {:induction false} TilesAdd(p: nat, q: nat, len: nat)
    requires len >= 1 && Tiles(p, len) && Tiles(q, len)
    ensures Tiles(p + q, len)
    decreases p
  {
    if p > 0 {
      TilesAdd(p - len, q, len);
    }
  }

  lemma {:induction false} PowersTile(n: nat, m: nat)
    requires m <= n
    ensures Tiles(Pow2(n), Pow2(m))
    decreases n
  {
    if n == m {
      assert Tiles(0, Pow2(m));
    } else {
      PowersTile(n - 1, m);
      TilesAdd(Pow2(n - 1), Pow2(n - 1), Pow2(m));
    }
  }

  lemma SingleEval(x: seq<Complex>, z: Complex)
    requires |x| == 1
    ensures Eval(x, z) == x[0]
  {
    hide Mul, Add;
    Units(z);
    Units(x[0]);
    assert Eval(x[1..], z) == ZERO;
  }

  lemma SingleIsDft(x: seq<Complex>, w: Complex)
    requires |x| == 1
    ensures IsDft(x, x, w)
  {
    hide Eval;
    SingleEval(x, Pow(w, 0));
  }

  lemma SingleDone(y: seq<Complex>, root: nat -> Complex, i: nat)
    requires i < |y|
    ensures BlockDone(y, y, root, i, 0)
  {
    hide IsDft;
    SingleIsDft(y[i..i + 1], root(1));
  }

  /** Single samples are their own transforms. */
  lemma {:induction false} SinglesDone(y: seq<Complex>, root: nat -> Complex, i: nat)
    requires i <= |y|
    ensures DoneFrom(y, y, root, i, 0)
    decreases |y| - i
  {
    hide BlockDone;
    if i < |y| {
      SingleDone(y, root, i);
      SinglesDone(y, root, i + 1);
    }
  }

  lemma {:induction false} DoneToFrom(a: seq<Complex>, y: seq<Complex>, root: nat -> Complex, i: nat, m: nat)
    requires DoneTo(a, y, root, i, m) && DoneFrom(a, y, root, i, m)
    ensures DoneFrom(a, y, root, 0, m)
    decreases i
  {
    hide BlockDone;
    if i > 0 {
      BlockFits(a, y, root, i - Pow2(m), m);
      DoneToFrom(a, y, root, i - Pow2(m), m);
    }
  }

  lemma BlockFits(a: seq<Complex>, y: seq<Complex>, root: nat -> Complex, i: nat, m: nat)
    requires BlockDone(a, y, root, i, m)
    ensures i + Pow2(m) <= |a| == |y|
  {
  }

  lemma BlockFrame(a: seq<Complex>, b: seq<Complex>, y: seq<Complex>, root: nat -> Complex, i: nat, m: nat)
    requires BlockDone(a, y, root, i, m) && |b| == |a| && forall k :: i <= k < i + Pow2(m) ==> b[k] == a[k]
    ensures BlockDone(b, y, root, i, m)
  {
    assert a[i..i + Pow2(m)] == b[i..i + Pow2(m)];
  }

  lemma {:induction false} FrameFrom(a: seq<Complex>, b: seq<Complex>, y: seq<Complex>, root: nat -> Complex, i: nat,
                                     m: nat)
    requires DoneFrom(a, y, root, i, m) && |b| == |a| && forall k :: i <= k < |a| ==> b[k] == a[k]
    ensures DoneFrom(b, y, root, i, m)
    decreases |a| - i
  {
    hide BlockDone;
    if i != |a| {
      BlockFits(a, y, root, i, m);
      BlockFrame(a, b, y, root, i, m);
      FrameFrom(a, b, y, root, i + Pow2(m), m);
    }
  }

  lemma {:induction false} FrameTo(a: seq<Complex>, b: seq<Complex>, y: seq<Complex>, root: nat -> Complex, i: nat,
                                   m: nat)
    requires DoneTo(a, y, root, i, m) && |b| == |a| && i <= |a| && forall k :: 0 <= k < i ==> b[k] == a[k]
    ensures DoneTo(b, y, root, i, m)
    decreases i
  {
    hide BlockDone;
    if i > 0 {
      BlockFrame(a, b, y, root, i - Pow2(m), m);
      FrameTo(a, b, y, root, i - Pow2(m), m);
    }
  }

  lemma SlicesMerged(b: seq<Complex>, a: seq<Complex>, i: nat, h: nat, w: Complex)
    requires BlockUpTo(b, a, i, h, w, h)
    ensures Merged(b[i..i + 2 * h], a[i..i + h], a[i + h..i + 2 * h], w)
  {
    hide Mul, Add, Sub;
    var X, p, q := b[i..i + 2 * h], a[i..i + h], a[i + h..i + 2 * h];
    forall j | 0 <= j < h
      ensures X[j] == Add(p[j], Mul(Pow(w, j), q[j])) && X[j + h] == Sub(p[j], Mul(Pow(w, j), q[j]))
    {
      assert ButterflyAt(b, a, i, h, w, j);
      assert q[j] == a[i + j + h];
    }
  }

  lemma UnscrambleHalves(y: seq<Complex>, m: nat)
    requires |y| == Pow2(m + 1)
    ensures Unscramble(y, m + 1) == Interleave(Unscramble(y[..Pow2(m)], m), Unscramble(y[Pow2(m)..], m))
  {
  }

  /** Merging two neighbouring blocks gives one block of the next level. */
  lemma BlocksMerge(b: seq<Complex>, a: seq<Complex>, y: seq<Complex>, root: nat -> Complex, i: nat, m: nat)
    requires Roots(root, m + 1)
    requires BlockDone(a, y, root, i, m) && BlockDone(a, y, root, i + Pow2(m), m)
    requires BlockUpTo(b, a, i, Pow2(m), root(Pow2(m + 1)), Pow2(m))
    ensures BlockDone(b, y, root, i, m + 1)
  {
    hide Merged, BlockUpTo, Mul, IsDft, Roots, Unscramble, Interleave;
    var h, w := Pow2(m), root(Pow2(m + 1));
    UpToLengths(b, a, i, h, w, h);
    SlicesMerged(b, a, i, h, w);
    RootHalf(root, m + 1);
    RootSquare(root, m);
    var ys := y[i..i + 2 * h];
    UnscrambleHalves(ys, m);
    assert ys[..h] == y[i..i + h] && ys[h..] == y[i + h..i + 2 * h];
    var e, o := Unscramble(ys[..h], m), Unscramble(ys[h..], m);
    SingleRoot(a[i..i + h], e, root, m);
    SingleRoot(a[i + h..i + 2 * h], o, root, m);
    MergeIsDft(b[i..i + 2 * h], a[i..i + h], a[i + h..i + 2 * h], e, o, w);
  }

  lemma UpToLengths(b: seq<Complex>, a: seq<Complex>, i: nat, h: nat, w: Complex, n: nat)
    requires BlockUpTo(b, a, i, h, w, n)
    ensures i + 2 * h <= |a| == |b|
  {
  }

  lemma RootSquare(root: nat -> Complex, m: nat)
    requires Roots(root, m + 1)
    ensures m > 0 ==> Mul(root(Pow2(m + 1)), root(Pow2(m + 1))) == root(Pow2(m))
  {
  }

  /** At block length one the root plays no part. */
  lemma SingleRoot(X: seq<Complex>, x: seq<Complex>, root: nat -> Complex, m: nat)
    requires IsDft(X, x, root(Pow2(m))) && |x| == Pow2(m) && Roots(root, m + 1)
    ensures IsDft(X, x, Mul(root(Pow2(m + 1)), root(Pow2(m + 1))))
  {
    hide Mul, Eval;
    RootSquare(root, m);
    if m == 0 {
      assert X[0] == Eval(x, Pow(root(1), 0));
    }
  }

  /** One stage: every pair of neighbouring blocks is merged. */
  method Stage(re: array<real>, im: array<real>, len: nat, root: nat -> Complex, ghost m: nat, ghost y: seq<Complex>)
    requires re != im && re.Length == im.Length == |y| && len == Pow2(m + 1) && Roots(root, m + 1)
    requires DoneFrom(Zip(re[..], im[..]), y, root, 0, m) && Tiles(re.Length, len)
    modifies re, im
    ensures DoneFrom(Zip(re[..], im[..]), y, root, 0, m + 1)
  {
    hide BlockDone, BlockUpTo, Roots, Zip;
    var halfLen := len / 2;
    var w := root(len);
    ghost var z := Zip(re[..], im[..]);
    var i := 0;
    while i < re.Length
      invariant 0 <= i <= re.Length && Tiles(re.Length - i, len)
      invariant z == Zip(re[..], im[..]) && |z| == |y|
      invariant DoneTo(z, y, root, i, m + 1) && DoneFrom(z, y, root, i, m)
    {
      ghost var a := z;
      MergeBlock(re, im, i, halfLen, w.re, w.im);
      z := Zip(re[..], im[..]);
      StageStep(z, a, y, root, i, m);
      i := i + len;
    }
    assert DoneFrom(z, y, root, i, m + 1);
    DoneToFrom(z, y, root, i, m + 1);
  }

  lemma StageStep(b: seq<Complex>, a: seq<Complex>, y: seq<Complex>, root: nat -> Complex, i: nat, m: nat)
    requires Roots(root, m + 1) && |a| == |y| && i + Pow2(m + 1) <= |a|
    requires DoneTo(a, y, root, i, m + 1) && DoneFrom(a, y, root, i, m)
    requires BlockUpTo(b, a, i, Pow2(m), root(Pow2(m + 1)), Pow2(m))
    ensures DoneTo(b, y, root, i + Pow2(m + 1), m + 1) && DoneFrom(b, y, root, i + Pow2(m + 1), m)
  {
    hide BlockDone, Roots;
    var h := Pow2(m);
    assert DoneFrom(a, y, root, i + h, m);
    assert BlockDone(a, y, root, i, m) && BlockDone(a, y, root, i + h, m);
    assert DoneFrom(a, y, root, i + h + h, m);
    BlocksMerge(b, a, y, root, i, m);
    FrameTo(a, b, y, root, i, m + 1);
    FrameFrom(a, b, y, root, i + 2 * h, m);
  }

  lemma WholeBlock(a: seq<Complex>, y: seq<Complex>, x: seq<Complex>, root: nat -> Complex, m: nat)
    requires DoneFrom(a, y, root, 0, m) && |a| == Pow2(m) && Scrambled(y, x, m)
    ensures IsDft(a, x, root(Pow2(m)))
  {
    hide IsDft, Scrambled;
    UnscrambleInverts(y, x, m);
    assert BlockDone(a, y, root, 0, m);
    assert a[0..Pow2(m)] == a && y[0..Pow2(m)] == y;
  }

  lemma {:induction false} RootsBelow(root: nat -> Complex, n: nat, m: nat)
    requires m <= n && Roots(root, n)
    ensures Roots(root, m)
    decreases n
  {
    if m < n {
      RootsBelow(root, n - 1, m);
    }
  }

  /** Every output is the textbook Fourier sum of the inputs. */
  predicate IsFourierTransform(X: seq<Complex>, x: seq<Complex>, w: Complex) {
    |X| == |x| && forall k :: 0 <= k < |x| ==> X[k] == FourierSum(x, w, k, |x|)
  }

  lemma DftIsFourierTransform(X: seq<Complex>, x: seq<Complex>, w: Complex)
    requires IsDft(X, x, w)
    ensures IsFourierTransform(X, x, w)
  {
    forall k | 0 <= k < |x|
      ensures X[k] == FourierSum(x, w, k, |x|)
    {
      EvalIsFourierSum(x, w, k, |x|);
      assert x[..|x|] == x;
    }
  }

  /** The transform of any power-of-two number of samples, in place. */
  method Transform(re: array<real>, im: array<real>, root: nat -> Complex, ghost n: nat)
    requires re != im && re.Length == im.Length == Pow2(n) && Roots(root, n)
    modifies re, im
    ensures IsFourierTransform(Zip(re[..], im[..]), old(Zip(re[..], im[..])), root(re.Length))
  {
    hide Scrambled, DoneFrom, IsDft, Roots, Tiles, IsFourierTransform;
    Permute(re, im, n);
    ghost var y := Zip(re[..], im[..]);
    SinglesDone(y, root, 0);
    var len := 2;
    ghost var m := 0;
    while len <= re.Length
      invariant len == Pow2(m + 1) && m <= n
      invariant DoneFrom(Zip(re[..], im[..]), y, root, 0, m)
      decreases n - m
    {
      Pow2Grows(n, m + 1);
      PowersTile(n, m + 1);
      RootsBelow(root, n, m + 1);
      Stage(re, im, len, root, m, y);
      len := len * 2;
      m := m + 1;
    }
    Pow2Grows(m + 1, n);
    WholeBlock(Zip(re[..], im[..]), y, old(Zip(re[..], im[..])), root, n);
    DftIsFourierTransform(Zip(re[..], im[..]), old(Zip(re[..], im[..])), root(re.Length));
  }
}
