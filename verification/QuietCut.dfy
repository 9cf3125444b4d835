// The search for the quietest window, written once in the browser (browser/js/voice-record.js) and once on the GPU
// server (gpu-worker/local_server.py). Windows of equal length are compared by their sum of squares, which orders them
// as their root mean squares do.
module QuietCut {

  type Samples = seq<real>

  function Energy(s: Samples, i: nat, window: nat): (e: real)
    requires i + window <= |s|
    ensures e >= 0.0
    decreases window
  {
    if window == 0 then 0.0 else Energy(s, i, window - 1) + s[i + window - 1] * s[i + window - 1]
  }

  /** Windows start at start, start + step, ... below limit. */
  function Scanned(start: nat, step: nat, limit: int): nat
    requires step >= 1
  {
    if limit <= start then 0 else (limit - start + step - 1) / step
  }

  lemma FloorBounds(d: nat, step: nat)
    requires step >= 1
    ensures d / step * step <= d < d / step * step + step
  {
    assert d == step * (d / step) + d % step;
  }

  lemma ScaleMonotone(a: nat, b: nat, step: nat)
    requires a <= b
    ensures a * step <= b * step
  {
  }

  lemma ScannedWithin(start: nat, step: nat, limit: int, j: nat)
    requires step >= 1 && j < Scanned(start, step, limit)
    ensures start + j * step < limit
  {
    var k := Scanned(start, step, limit);
    FloorBounds(limit - start + step - 1, step);
    ScaleMonotone(j + 1, k, step);
    assert (j + 1) * step == j * step + step;
  }

  function WindowStart(start: nat, step: nat, j: nat): nat { start + j * step }

  /** The energies of the first k windows. */
  function Energies(s: Samples, start: nat, window: nat, step: nat, k: nat): (e: seq<real>)
    requires forall j :: 0 <= j < k ==> WindowStart(start, step, j) + window <= |s|
    ensures |e| == k && forall j :: 0 <= j < k ==> e[j] == Energy(s, WindowStart(start, step, j), window)
  {
    seq(k, j requires 0 <= j < k => Energy(s, WindowStart(start, step, j), window))
  }

  /** The position of the least element, the first one on a tie. */
  function FirstMin(e: seq<real>): (q: nat)
    requires e != []
    ensures q < |e|
    ensures forall j :: 0 <= j < |e| ==> e[q] <= e[j]
    ensures forall j :: 0 <= j < q ==> e[q] < e[j]
  {
    if |e| == 1 then 0
    else
      var front := e[..|e| - 1];
      var q := FirstMin(front);
      assert forall j :: 0 <= j < |front| ==> front[j] == e[j];
      if e[|e| - 1] < e[q] then |e| - 1 else q
  }

  /** Every scanned window lies inside the samples when the last allowed start does. */
  lemma ScannedInside(s: Samples, start: nat, window: nat, step: nat, limit: int)
    requires step >= 1 && limit + window <= |s| + 1
    ensures forall j :: 0 <= j < Scanned(start, step, limit) ==> WindowStart(start, step, j) + window <= |s|
  {
    forall j | 0 <= j < Scanned(start, step, limit)
      ensures WindowStart(start, step, j) + window <= |s|
    {
      ScannedWithin(start, step, limit, j);
    }
  }

  /** The middle of the quietest scanned window; the middle of a window at start when there is none to compare. */
  function Cut(s: Samples, start: nat, window: nat, step: nat, limit: int): nat
    requires step >= 1 && limit + window <= |s| + 1
  {
    var k := Scanned(start, step, limit);
    ScannedInside(s, start, window, step, limit);
    if k == 0 || window == 0 then start + window / 2
    else WindowStart(start, step, FirstMin(Energies(s, start, window, step, k))) + window / 2
  }

  /** The cut is the middle of a scanned window, and no scanned window is quieter. */
  lemma CutIsQuietest(s: Samples, start: nat, window: nat, step: nat, limit: int)
    requires step >= 1 && limit + window <= |s| + 1 && window > 0 && limit > start
    ensures exists q :: 0 <= q < Scanned(start, step, limit) && QuietestAt(s, start, window, step, limit, q)
                        && Cut(s, start, window, step, limit) == WindowStart(start, step, q) + window / 2
  {
    ScannedInside(s, start, window, step, limit);
    var k := Scanned(start, step, limit);
    assert (limit - start + step - 1) / step >= 1;
    var e := Energies(s, start, window, step, k);
    var q := FirstMin(e);
    forall j | 0 <= j < k
      ensures Energy(s, WindowStart(start, step, q), window) <= Energy(s, WindowStart(start, step, j), window)
      ensures j < q ==> Energy(s, WindowStart(start, step, q), window) < Energy(s, WindowStart(start, step, j), window)
    {
      assert e[q] <= e[j] && (j < q ==> e[q] < e[j]);
    }
    assert QuietestAt(s, start, window, step, limit, q);
  }

  ghost predicate QuietestAt(s: Samples, start: nat, window: nat, step: nat, limit: int, q: nat)
    requires step >= 1 && limit + window <= |s| + 1 && q < Scanned(start, step, limit)
  {
    ScannedInside(s, start, window, step, limit);
    forall j :: 0 <= j < Scanned(start, step, limit) ==>
      && Energy(s, WindowStart(start, step, q), window) <= Energy(s, WindowStart(start, step, j), window)
      && (j < q ==> Energy(s, WindowStart(start, step, q), window) < Energy(s, WindowStart(start, step, j), window))
  }

  /** The energy is the sum of the squares of the samples: one square for one sample, and additive. */
  lemma {:induction false} EnergyIsSum(s: Samples, i: nat, a: nat, b: nat)
    requires i + a + b <= |s|
    ensures Energy(s, i, a + b) == Energy(s, i, a) + Energy(s, i + a, b)
    ensures i < |s| ==> Energy(s, i, 1) == s[i] * s[i]
    decreases b
  {
    if b > 0 {
      EnergyIsSum(s, i, a, b - 1);
    }
    if i < |s| {
      assert Energy(s, i, 0) == 0.0;
    }
  }

  lemma ScannedMeans(start: nat, step: nat, limit: int, j: nat)
    requires step >= 1
    ensures start + j * step < limit <==> j < Scanned(start, step, limit)
  {
    var k := Scanned(start, step, limit);
    if j < k {
      ScannedWithin(start, step, limit, j);
    } else {
      LoopBound(start, step, limit, k);
      ScaleMonotone(k, j, step);
    }
  }

  /** Of the windows that start at start, start + step, ... below limit, the first of the quietest has its middle at
      the cut. */
  ghost predicate CutsAtQuietest(s: Samples, start: nat, window: nat, step: nat, limit: int, cut: nat)
    requires limit + window <= |s| + 1
  {
    exists q: nat :: start + q * step < limit && cut == start + q * step + window / 2 &&
      forall j: nat :: start + j * step < limit ==>
        && Energy(s, start + q * step, window) <= Energy(s, start + j * step, window)
        && (j < q ==> Energy(s, start + q * step, window) < Energy(s, start + j * step, window))
  }

  lemma CutIsFirstQuietest(s: Samples, start: nat, window: nat, step: nat, limit: int)
    requires step >= 1 && limit + window <= |s| + 1 && window > 0 && limit > start
    ensures CutsAtQuietest(s, start, window, step, limit, Cut(s, start, window, step, limit))
  {
    hide Energy, Scanned, Cut, WindowStart, QuietestAt;
    CutIsQuietest(s, start, window, step, limit);
    var q :| 0 <= q < Scanned(start, step, limit) && QuietestAt(s, start, window, step, limit, q)
             && Cut(s, start, window, step, limit) == WindowStart(start, step, q) + window / 2;
    ScannedMeans(start, step, limit, q);
    StartIs(start, step, q);
    assert start + q * step < limit && Cut(s, start, window, step, limit) == start + q * step + window / 2;
    forall j: nat | start + j * step < limit
      ensures Energy(s, start + q * step, window) <= Energy(s, start + j * step, window)
      ensures j < q ==> Energy(s, start + q * step, window) < Energy(s, start + j * step, window)
    {
      NoQuieter(s, start, window, step, limit, q, j);
    }
  }

  lemma StartIs(start: nat, step: nat, q: nat)
    ensures WindowStart(start, step, q) == start + q * step
  {
  }

  lemma NoQuieter(s: Samples, start: nat, window: nat, step: nat, limit: int, q: nat, j: nat)
    requires step >= 1 && limit + window <= |s| + 1 && start + q * step < limit && start + j * step < limit
    requires q < Scanned(start, step, limit) && QuietestAt(s, start, window, step, limit, q)
    ensures Energy(s, start + q * step, window) <= Energy(s, start + j * step, window)
    ensures j < q ==> Energy(s, start + q * step, window) < Energy(s, start + j * step, window)
  {
    hide Energy, Scanned, WindowStart;
    ScannedMeans(start, step, limit, j);
    StartIs(start, step, j);
    StartIs(start, step, q);
  }

  lemma LoopBound(start: nat, step: nat, limit: int, k: nat)
    requires step >= 1 && k <= Scanned(start, step, limit)
    ensures WindowStart(start, step, k) < limit <==> k < Scanned(start, step, limit)
  {
    if k < Scanned(start, step, limit) {
      ScannedWithin(start, step, limit, k);
    } else if limit > start {
      FloorBounds(limit - start + step - 1, step);
    }
  }

  lemma NextStart(start: nat, step: nat, k: nat)
    ensures WindowStart(start, step, k + 1) == WindowStart(start, step, k) + step
  {
  }

  lemma FirstMinNext(e: seq<real>, x: real)
    ensures FirstMin(e + [x]) == if e == [] || x < e[FirstMin(e)] then |e| else FirstMin(e)
  {
    assert (e + [x])[..|e|] == e;
  }

  /** The scanning loop of both programs. */
  method FindQuietest(s: Samples, start: nat, window: nat, step: nat, limit: int) returns (cut: nat)
    requires step >= 1 && limit + window <= |s| + 1
    ensures cut == Cut(s, start, window, step, limit)
  {
    hide FirstMin, Scanned, Energy, WindowStart;
    ScannedInside(s, start, window, step, limit);
    ghost var n := Scanned(start, step, limit);
    ghost var e := [];
    var first := true;
    var best := 0.0;
    cut := start + window / 2;
    var i := start;
    StartOfFirst(start, step);
    LoopBound(start, step, limit, 0);
    while i < limit
      invariant |e| <= n && i == WindowStart(start, step, |e|) && (i < limit <==> |e| < n)
      invariant e == Energies(s, start, window, step, |e|)
      invariant first <==> e == [] || window == 0
      invariant first ==> cut == start + window / 2
      invariant !first ==> best == e[FirstMin(e)] && cut == WindowStart(start, step, FirstMin(e)) + window / 2
      decreases n - |e|
    {
      var sumSq := SumOfSquares(s, i, window);
      FirstMinNext(e, sumSq);
      if window > 0 && (first || sumSq < best) {
        first := false;
        best := sumSq;
        cut := i + window / 2;
      }
      NextStart(start, step, |e|);
      LoopBound(start, step, limit, |e| + 1);
      e := e + [sumSq];
      i := i + step;
    }
  }

  lemma StartOfFirst(start: nat, step: nat)
    ensures WindowStart(start, step, 0) == start
  {
  }

  method SumOfSquares(s: Samples, i: nat, window: nat) returns (sum: real)
    requires i + window <= |s|
    ensures sum == Energy(s, i, window)
  {
    sum := 0.0;
    var j := i;
    while j < i + window
      invariant i <= j <= i + window && sum == Energy(s, i, j - i)
    {
      sum := sum + s[j] * s[j];
      j := j + 1;
    }
  }
}
