// Exact complex arithmetic, and polynomial evaluation: a discrete Fourier transform is one evaluation a frequency.
module ComplexNumbers {

  datatype Complex = Complex(re: real, im: real)

  const ZERO := Complex(0.0, 0.0)
  const ONE := Complex(1.0, 0.0)

  function Add(a: Complex, b: Complex): Complex { Complex(a.re + b.re, a.im + b.im) }

  function Sub(a: Complex, b: Complex): Complex { Complex(a.re - b.re, a.im - b.im) }

  function Neg(a: Complex): Complex { Complex(-a.re, -a.im) }

  function Mul(a: Complex, b: Complex): Complex { Complex(a.re * b.re - a.im * b.im, a.re * b.im + a.im * b.re) }

  function Pow(z: Complex, n: nat): Complex {
    if n == 0 then ONE else Mul(Pow(z, n - 1), z)
  }

  lemma MulCommutes(a: Complex, b: Complex)
    ensures Mul(a, b) == Mul(b, a)
  {
  }

  lemma MulAssociates(a: Complex, b: Complex, c: Complex)
    ensures Mul(Mul(a, b), c) == Mul(a, Mul(b, c))
  {
  }

  lemma MulDistributes(a: Complex, b: Complex, c: Complex)
    ensures Mul(a, Add(b, c)) == Add(Mul(a, b), Mul(a, c))
  {
  }

  lemma Units(a: Complex)
    ensures Mul(a, ONE) == a && Mul(ONE, a) == a && Mul(a, ZERO) == ZERO && Add(a, ZERO) == a && Add(ZERO, a) == a
  {
  }

  lemma AddAssociates(a: Complex, b: Complex, c: Complex)
    ensures Add(Add(a, b), c) == Add(a, Add(b, c))
  {
  }

  lemma MinusOne(a: Complex)
    ensures Mul(a, Neg(ONE)) == Neg(a)
  {
    assert Neg(ONE) == Complex(-1.0, 0.0);
  }

  lemma MinusOneSquared()
    ensures Mul(Neg(ONE), Neg(ONE)) == ONE
  {
    assert Neg(ONE) == Complex(-1.0, 0.0);
  }

  lemma NegMul(a: Complex, b: Complex)
    ensures Mul(Neg(a), b) == Neg(Mul(a, b))
  {
  }

  lemma SubIsAddNeg(a: Complex, b: Complex)
    ensures Add(a, Neg(b)) == Sub(a, b)
  {
  }

  lemma {:induction false} PowAdd(z: Complex, m: nat, n: nat)
    ensures Pow(z, m + n) == Mul(Pow(z, m), Pow(z, n))
    decreases n
  {
    hide Mul;
    if n == 0 {
      Units(Pow(z, m));
    } else {
      PowAdd(z, m, n - 1);
      MulAssociates(Pow(z, m), Pow(z, n - 1), z);
    }
  }

  lemma SwapMiddle(a: Complex, b: Complex, c: Complex, d: Complex)
    ensures Mul(Mul(a, b), Mul(c, d)) == Mul(Mul(a, c), Mul(b, d))
  {
    hide Mul;
    MulAssociates(a, b, Mul(c, d));
    MulAssociates(b, c, d);
    MulCommutes(b, c);
    MulAssociates(c, b, d);
    MulAssociates(a, c, Mul(b, d));
  }

  lemma {:induction false} PowSquare(z: Complex, n: nat)
    ensures Pow(Mul(z, z), n) == Mul(Pow(z, n), Pow(z, n))
    decreases n
  {
    hide Mul;
    if n == 0 {
      Units(ONE);
    } else {
      PowSquare(z, n - 1);
      SwapMiddle(Pow(z, n - 1), Pow(z, n - 1), z, z);
    }
  }

  lemma {:induction false} PowPow(z: Complex, k: nat, n: nat)
    ensures Pow(Pow(z, k), n) == Pow(z, n * k)
    decreases n
  {
    hide Mul;
    if n > 0 {
      PowPow(z, k, n - 1);
      PowAdd(z, (n - 1) * k, k);
      assert (n - 1) * k + k == n * k;
    }
  }

  // ---- Polynomials ----

  /** x[0] + x[1] z + x[2] z^2 + ..., by Horner's rule. */
  function Eval(x: seq<Complex>, z: Complex): Complex
    decreases |x|
  {
    if x == [] then ZERO else Add(x[0], Mul(z, Eval(x[1..], z)))
  }

  /** The sum of the first n terms x[i] w^(i k): the textbook form of a Fourier coefficient. */
  function FourierSum(x: seq<Complex>, w: Complex, k: nat, n: nat): Complex
    requires n <= |x|
    decreases n
  {
    if n == 0 then ZERO else Add(FourierSum(x, w, k, n - 1), Mul(x[n - 1], Pow(w, (n - 1) * k)))
  }

  lemma {:induction false} EvalSnoc(x: seq<Complex>, c: Complex, z: Complex)
    ensures Eval(x + [c], z) == Add(Eval(x, z), Mul(c, Pow(z, |x|)))
    decreases |x|
  {
    hide Mul, Add;
    if x == [] {
      assert [c][1..] == [] && x + [c] == [c];
      Units(z);
      Units(c);
    } else {
      var rest := x[1..];
      assert (x + [c])[1..] == rest + [c];
      EvalSnoc(rest, c, z);
      MulDistributes(z, Eval(rest, z), Mul(c, Pow(z, |rest|)));
      MulCommutes(z, Mul(c, Pow(z, |rest|)));
      MulAssociates(c, Pow(z, |rest|), z);
      AddAssociates(x[0], Mul(z, Eval(rest, z)), Mul(c, Pow(z, |x|)));
    }
  }

  lemma {:induction false} EvalIsFourierSum(x: seq<Complex>, w: Complex, k: nat, n: nat)
    requires n <= |x|
    ensures Eval(x[..n], Pow(w, k)) == FourierSum(x, w, k, n)
    decreases n
  {
    hide Mul, Add;
    if n > 0 {
      EvalIsFourierSum(x, w, k, n - 1);
      assert x[..n] == x[..n - 1] + [x[n - 1]];
      EvalSnoc(x[..n - 1], x[n - 1], Pow(w, k));
      PowPow(w, k, n - 1);
    }
  }

  // ---- Even and odd samples ----

  function Interleave(e: seq<Complex>, o: seq<Complex>): (x: seq<Complex>)
    requires |e| == |o|
    ensures |x| == 2 * |e|
    ensures forall i :: 0 <= i < |e| ==> x[2 * i] == e[i] && x[2 * i + 1] == o[i]
    decreases |e|
  {
    if e == [] then [] else [e[0], o[0]] + Interleave(e[1..], o[1..])
  }

  lemma SplitStep(a: Complex, b: Complex, z: Complex, p: Complex, q: Complex)
    ensures Add(a, Mul(z, Add(b, Mul(z, Add(p, Mul(z, q))))))
         == Add(Add(a, Mul(Mul(z, z), p)), Mul(z, Add(b, Mul(Mul(z, z), q))))
  {
    var zz := Mul(z, z);
    MulDistributes(z, p, Mul(z, q));
    MulAssociates(z, z, q);
    MulDistributes(z, b, Add(Mul(z, p), Mul(zz, q)));
    MulDistributes(z, Mul(z, p), Mul(zz, q));
    MulAssociates(z, z, p);
    MulDistributes(z, b, Mul(zz, q));
  }

  /** A polynomial splits into its even and its odd part in z squared. */
  lemma {:induction false} EvalInterleave(e: seq<Complex>, o: seq<Complex>, z: Complex)
    requires |e| == |o|
    ensures Eval(Interleave(e, o), z) == Add(Eval(e, Mul(z, z)), Mul(z, Eval(o, Mul(z, z))))
    decreases |e|
  {
    hide Mul, Add;
    if e == [] {
      Units(z);
      Units(ZERO);
    } else {
      var rest := Interleave(e[1..], o[1..]);
      var x := Interleave(e, o);
      assert x == [e[0], o[0]] + rest;
      assert x[1..] == [o[0]] + rest && x[1..][1..] == rest;
      EvalInterleave(e[1..], o[1..], z);
      SplitStep(e[0], o[0], z, Eval(e[1..], Mul(z, z)), Eval(o[1..], Mul(z, z)));
    }
  }
}
