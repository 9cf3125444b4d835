// Merging sentences in two programs that count characters differently, the first of which may find fewer places to
// cut: when both end with the same chunks.
module SentenceMerging {
  import opened SentenceSplit

  function PyLength(s: string): int { |s| }

  /** UTF-16 code units. */
  function JsLength(s: string): int
    decreases |s|
  {
    if s == "" then 0 else JsLength(s[..|s| - 1]) + (if s[|s| - 1] as int >= 0x10000 then 2 else 1)
  }

  lemma {:induction false} JsLengthAppend(a: string, b: string)
    ensures JsLength(a + b) == JsLength(a) + JsLength(b) && JsLength(b) >= |b|
    decreases |b|
  {
    if b == "" {
      assert a + b == a;
    } else {
      assert (a + b)[..|a + b| - 1] == a + b[..|b| - 1];
      JsLengthAppend(a, b[..|b| - 1]);
    }
  }

  lemma LengthsMonotone()
    ensures Monotone(PyLength) && Monotone(JsLength)
  {
    forall a: string, b: string
      ensures JsLength(a) <= JsLength(a + b)
    {
      JsLengthAppend(a, b);
    }
  }

  lemma JsAtLeastPy(s: string)
    ensures JsLength(s) >= |s|
  {
    JsLengthAppend("", s);
  }

  // ---- Merging from the last chunk on ----

  lemma MergedOne(s: string, min: int, length: Length)
    ensures Merged([s], min, length) == [s]
  {
    assert [s][..0] == [];
  }

  lemma AddAfter(front: seq<string>, merged: seq<string>, part: string, min: int, length: Length)
    requires merged != []
    ensures Add(front + merged, part, min, length) == front + Add(merged, part, min, length)
  {
    var n := |merged|;
    assert (front + merged)[..|front| + n - 1] == front + merged[..n - 1];
  }

  /** Only the last chunk so far matters for what follows. */
  lemma {:induction false} MergedRestart(a: seq<string>, t: seq<string>, min: int, length: Length)
    requires a != []
    ensures var m := Merged(a, min, length);
            Merged(a + t, min, length) == m[..|m| - 1] + Merged([Last(m)] + t, min, length)
    decreases |t|
  {
    hide Add, Merged;
    var m := Merged(a, min, length);
    MergedNonempty(a, min, length);
    if t == [] {
      assert a + t == a && [Last(m)] + t == [Last(m)];
      MergedOne(Last(m), min, length);
    } else {
      var front, x := t[..|t| - 1], t[|t| - 1];
      MergedRestart(a, front, min, length);
      assert a + t == (a + front) + [x] && [Last(m)] + t == ([Last(m)] + front) + [x];
      MergedSnoc(a + front, x, min, length);
      MergedSnoc([Last(m)] + front, x, min, length);
      MergedNonempty([Last(m)] + front, min, length);
      AddAfter(m[..|m| - 1], Merged([Last(m)] + front, min, length), x, min, length);
    }
  }

  lemma MergedNonempty(s: seq<string>, min: int, length: Length)
    requires s != []
    ensures Merged(s, min, length) != []
  {
  }

  /** A chunk that is long enough stays as it is. */
  lemma {:induction false} MergedFresh(m: string, t: seq<string>, min: int, length: Length)
    requires t != [] && length(m) >= min
    ensures Merged([m] + t, min, length) == [m] + Merged(t, min, length)
    decreases |t|
  {
    hide Add, Merged;
    var front, x := t[..|t| - 1], t[|t| - 1];
    assert [m] + t == ([m] + front) + [x] && t == front + [x];
    MergedSnoc([m] + front, x, min, length);
    MergedSnoc(front, x, min, length);
    if front == [] {
      assert [m] + front == [m];
      MergedOne(m, min, length);
      MergedOne(x, min, length);
      AddFresh(m, x, min, length);
    } else {
      MergedFresh(m, front, min, length);
      MergedNonempty(front, min, length);
      AddAfter([m], Merged(front, min, length), x, min, length);
    }
  }

  lemma AddFresh(m: string, x: string, min: int, length: Length)
    requires length(m) >= min
    ensures Add([m], x, min, length) == [m, x]
  {
  }

  lemma AddShort(m: string, x: string, min: int, length: Length)
    requires length(m) < min && min > 0
    ensures Add([m], x, min, length) == [m + " " + x]
  {
    assert [m][..0] == [];
  }

  /** Sentences no proper prefix of which is long enough become one chunk. */
  lemma {:induction false} MergedPrefixesShort(t: seq<string>, min: int, length: Length)
    requires t != [] && forall k :: 1 <= k < |t| ==> length(Join(t[..k])) < min
    requires |t| > 1 ==> min > 0
    ensures Merged(t, min, length) == [Join(t)]
    decreases |t|
  {
    hide Add, Merged, Join;
    var front, x := t[..|t| - 1], t[|t| - 1];
    assert t == front + [x];
    JoinSnoc(front, x);
    MergedSnoc(front, x, min, length);
    if front == [] {
      assert t == [x];
      MergedOne(x, min, length);
    } else {
      assert forall k :: 1 <= k < |front| ==> front[..k] == t[..k];
      MergedPrefixesShort(front, min, length);
      AddShort(Join(front), x, min, length);
    }
  }

  /** Sentences that are too short even all together become one chunk. */
  lemma MergedAllShort(t: seq<string>, min: int, length: Length)
    requires t != [] && Monotone(length) && min > 0 && length(Join(t)) < min
    ensures Merged(t, min, length) == [Join(t)]
  {
    hide Merged, Join;
    forall k | 1 <= k < |t|
      ensures length(Join(t[..k])) < min
    {
      assert t == t[..k] + t[k..];
      JoinAppend(t[..k], t[k..]);
      assert Join(t) == Join(t[..k]) + (" " + Join(t[k..]));
    }
    MergedPrefixesShort(t, min, length);
  }

  /** The first chunk grows over the second sentence when it is too short. */
  lemma {:induction false} MergedGrows(m: string, t: seq<string>, min: int, length: Length)
    requires t != [] && length(m) < min && min > 0
    ensures Merged([m] + t, min, length) != [] && m + " " + t[0] <= Merged([m] + t, min, length)[0]
    decreases |t|
  {
    hide Add, Merged;
    var front, x := t[..|t| - 1], t[|t| - 1];
    assert [m] + t == ([m] + front) + [x];
    MergedSnoc([m] + front, x, min, length);
    if front == [] {
      assert [m] + front == [m];
      MergedOne(m, min, length);
      AddShort(m, x, min, length);
    } else {
      MergedGrows(m, front, min, length);
      AddExtends(Merged([m] + front, min, length), x, min, length);
      PrefixTwice(m + " " + t[0], Merged([m] + front, min, length)[0], Merged([m] + t, min, length)[0]);
    }
  }

  lemma AddExtends(merged: seq<string>, x: string, min: int, length: Length)
    requires merged != []
    ensures merged[0] <= Add(merged, x, min, length)[0]
  {
  }

  lemma PrefixTwice(a: string, b: string, c: string)
    requires a <= b <= c
    ensures a <= c
  {
  }

  // ---- Joins ----

  lemma {:induction false} JoinCons(m: string, t: seq<string>)
    requires t != []
    ensures Join([m] + t) == m + " " + Join(t)
    decreases |t|
  {
    hide Join;
    var front, x := t[..|t| - 1], t[|t| - 1];
    assert [m] + t == ([m] + front) + [x] && t == front + [x];
    JoinSnoc([m] + front, x);
    JoinSnoc(front, x);
    if front == [] {
      assert [m] + front == [m];
      JoinOne(m);
    } else {
      JoinCons(m, front);
      assert m + " " + Join(front) + " " + x == m + " " + (Join(front) + " " + x);
    }
  }

  lemma {:induction false} JoinAppend(a: seq<string>, b: seq<string>)
    requires a != [] && b != []
    ensures Join(a + b) == Join(a) + " " + Join(b)
    decreases |b|
  {
    hide Join;
    var front, x := b[..|b| - 1], b[|b| - 1];
    assert b == front + [x] && a + b == (a + front) + [x];
    JoinSnoc(a + front, x);
    JoinSnoc(front, x);
    if front == [] {
      assert a + front == a;
    } else {
      JoinAppend(a, front);
      assert Join(a) + " " + Join(front) + " " + x == Join(a) + " " + (Join(front) + " " + x);
    }
  }

  lemma {:induction false} JoinLong(chunks: seq<string>)
    requires |chunks| >= 2
    ensures |Join(chunks)| >= |chunks[0]| + 1 + |chunks[1]|
    decreases |chunks|
  {
    hide Join;
    var front, x := chunks[..|chunks| - 1], chunks[|chunks| - 1];
    assert chunks == front + [x];
    JoinSnoc(front, x);
    if |chunks| == 2 {
      assert front == [chunks[0]];
      JoinOne(chunks[0]);
    } else {
      JoinLong(front);
    }
  }

  // ---- Coarser lists ----

  /** The last element goes on with x. */
  function Extended(g: seq<string>, x: string): seq<string>
    requires g != []
  {
    g[..|g| - 1] + [Last(g) + " " + x]
  }

  /** The first n pieces, put together with spaces except at the cuts: piece k begins a new element when k is a cut. */
  function Glued(j: seq<string>, cuts: set<nat>, n: nat): (g: seq<string>)
    requires n <= |j|
    ensures g == [] <==> n == 0
    decreases n
  {
    if n == 0 then []
    else
      var g := Glued(j, cuts, n - 1);
      if g == [] || n - 1 in cuts then g + [j[n - 1]] else Extended(g, j[n - 1])
  }

  lemma ExtendedJoins(g: seq<string>, x: string)
    requires g != []
    ensures Join(Extended(g, x)) == Join(g) + " " + x
  {
    hide Join;
    var front := g[..|g| - 1];
    assert front + [Last(g)] == g;
    JoinPair(front, Last(g), x);
    JoinSnoc(g, x);
  }

  lemma {:induction false} GluedJoins(j: seq<string>, cuts: set<nat>, n: nat)
    requires n <= |j|
    ensures Join(Glued(j, cuts, n)) == Join(j[..n])
    decreases n
  {
    hide Join, Extended;
    if n > 0 {
      var g := Glued(j, cuts, n - 1);
      GluedJoins(j, cuts, n - 1);
      assert j[..n] == j[..n - 1] + [j[n - 1]];
      JoinSnoc(j[..n - 1], j[n - 1]);
      JoinSnoc(g, j[n - 1]);
      if g != [] {
        ExtendedJoins(g, j[n - 1]);
      }
    } else {
      assert j[..n] == [];
    }
  }

  /** Merging what Python finds: pieces glued together except at the cuts. */
  function PyMerged(j: seq<string>, cuts: set<nat>, min: int, n: nat): (m: seq<string>)
    requires n <= |j|
    ensures m == [] <==> n == 0
  {
    Merged(Glued(j, cuts, n), min, PyLength)
  }

  /** Piece k joins the last chunk m in Python: it finds no cut there, or m is too short. */
  predicate PyGlues(cuts: set<nat>, min: int, m: string, k: nat) { k !in cuts || (min > 0 && |m| < min) }

  predicate JsGlues(min: int, m: string) { min > 0 && JsLength(m) < min }

  lemma AddExtended(merged: seq<string>, y: string, x: string, min: int)
    ensures Add(merged, y + " " + x, min, PyLength) == Extended(Add(merged, y, min, PyLength), x)
  {
    if merged != [] {
      assert Last(merged) + " " + (y + " " + x) == Last(merged) + " " + y + " " + x;
    }
  }

  /** One piece more: it joins the last chunk or begins one. */
  lemma PyStep(j: seq<string>, cuts: set<nat>, min: int, n: nat)
    requires 1 <= n < |j|
    ensures var m := PyMerged(j, cuts, min, n);
            PyMerged(j, cuts, min, n + 1)
              == if PyGlues(cuts, min, Last(m), n) then Extended(m, j[n]) else m + [j[n]]
  {
    hide Merged, Add;
    var g := Glued(j, cuts, n);
    if n in cuts {
      MergedSnoc(g, j[n], min, PyLength);
      AddIs(PyMerged(j, cuts, min, n), j[n], min, PyLength);
    } else {
      var front := g[..|g| - 1];
      assert front + [Last(g)] == g;
      MergedSnoc(front, Last(g), min, PyLength);
      MergedSnoc(front, Last(g) + " " + j[n], min, PyLength);
      AddExtended(Merged(front, min, PyLength), Last(g), j[n], min);
    }
  }

  lemma AddIs(merged: seq<string>, x: string, min: int, length: Length)
    requires merged != []
    ensures Add(merged, x, min, length)
         == if min > 0 && length(Last(merged)) < min then Extended(merged, x) else merged + [x]
  {
  }

  lemma JsStep(j: seq<string>, min: int, n: nat)
    requires 1 <= n < |j|
    ensures var m := Merged(j[..n], min, JsLength);
            Merged(j[..n + 1], min, JsLength) == if JsGlues(min, Last(m)) then Extended(m, j[n]) else m + [j[n]]
  {
    hide Merged, Add, JsLength, Extended;
    assert j[..n + 1] == j[..n] + [j[n]];
    MergedSnoc(j[..n], j[n], min, JsLength);
    AddIs(Merged(j[..n], min, JsLength), j[n], min, JsLength);
  }

  // ---- Where the programs first decide differently ----

  /** One program joins piece k to the last chunk and the other one begins a chunk. */
  predicate DifferAt(j: seq<string>, cuts: set<nat>, min: int, jsMin: int, k: nat) {
    && 1 <= k < |j|
    && var m := Last(Merged(j[..k], jsMin, JsLength));
    PyGlues(cuts, min, m, k) != JsGlues(jsMin, m)
  }

  /** The first such k from here on, or the number of pieces. */
  function FirstDifference(j: seq<string>, cuts: set<nat>, min: int, jsMin: int, k: nat): (r: nat)
    requires 1 <= k
    ensures k <= r && (r < |j| ==> DifferAt(j, cuts, min, jsMin, r)) && (k <= |j| ==> r <= |j|)
    ensures forall i :: k <= i < r ==> !DifferAt(j, cuts, min, jsMin, i)
    decreases |j| - k
  {
    if k >= |j| || DifferAt(j, cuts, min, jsMin, k) then k else FirstDifference(j, cuts, min, jsMin, k + 1)
  }

  lemma {:induction false} SameUpTo(j: seq<string>, cuts: set<nat>, min: int, jsMin: int, k: nat)
    requires 1 <= k <= |j| && forall i :: 1 <= i < k ==> !DifferAt(j, cuts, min, jsMin, i)
    ensures PyMerged(j, cuts, min, k) == Merged(j[..k], jsMin, JsLength)
    decreases k
  {
    hide Merged, JsLength, PyMerged, PyGlues, JsGlues, Extended;
    if k == 1 {
      FirstPiece(j, cuts, min);
      assert j[..1] == [j[0]];
      MergedOne(j[0], jsMin, JsLength);
    } else {
      SameUpTo(j, cuts, min, jsMin, k - 1);
      assert !DifferAt(j, cuts, min, jsMin, k - 1);
      PyStep(j, cuts, min, k - 1);
      JsStep(j, jsMin, k - 1);
    }
  }

  lemma FirstPiece(j: seq<string>, cuts: set<nat>, min: int)
    requires j != []
    ensures PyMerged(j, cuts, min, 1) == [j[0]]
  {
    assert Glued(j, cuts, 0) == [];
    MergedOne(j[0], min, PyLength);
  }

  // ---- The chunks of a list of sentences ----

  function Result(s: seq<string>, min: int, length: Length): seq<string> { Finish(Merged(s, min, length), min, length) }

  /** What must hold once the programs have decided differently at k: it is JavaScript that begins a chunk, it finds
      all the rest too short and puts it back, and Python ends with the rest in one chunk that it merges with nothing
      before. */
  predicate Heals(j: seq<string>, cuts: set<nat>, min: int, jsMin: int, k: nat)
    requires 1 <= k < |j|
  {
    var m := Merged(j[..k], jsMin, JsLength);
    && !JsGlues(jsMin, Last(m)) && JsLength(Join(j[k..])) < jsMin
    && if min > 0 then |m| == 1 || |Last(m) + " " + Join(j[k..])| >= min
       else forall i :: k <= i < |j| ==> i !in cuts
  }

  /** The final passes of the two programs do the same with these chunks. */
  predicate EndAlike(m: seq<string>, min: int, jsMin: int) {
    |m| > 1 ==> ((min > 0 && |Last(m)| < min) <==> JsGlues(jsMin, Last(m)))
  }

  /** The two programs end with the same chunks: JavaScript from these pieces, Python from those it sees, which are cut
      only at the cuts. */
  predicate AgreeOn(j: seq<string>, cuts: set<nat>, min: int, jsMin: int) {
    var k := FirstDifference(j, cuts, min, jsMin, 1);
    if k < |j| then Heals(j, cuts, min, jsMin, k) else EndAlike(Merged(j, jsMin, JsLength), min, jsMin)
  }

  lemma FinishDecides(m: seq<string>, min: int, jsMin: int)
    requires m != []
    ensures Finish(m, min, PyLength) == Finish(m, jsMin, JsLength) <==> EndAlike(m, min, jsMin)
  {
    hide JsLength;
    if !EndAlike(m, min, jsMin) {
      assert |Finish(m, min, PyLength)| != |Finish(m, jsMin, JsLength)|;
    }
  }

  // ---- The program that begins a chunk ----

  /** The boundary after m stays when the rest is long enough. */
  lemma BoundaryStays(X: seq<string>, m: string, t: seq<string>, min: int, length: Length)
    requires t != [] && length(m) >= min && length(Join(t)) >= min
    ensures var f := Finish(X + Merged([m] + t, min, length), min, length);
            |f| > |X| && f[|X|] == m
  {
    hide Merged, Join;
    var C := Merged(t, min, length);
    MergedFresh(m, t, min, length);
    MergedNonempty(t, min, length);
    MergedJoins(t, min, length);
    if |C| == 1 {
      JoinOne(C[0]);
      assert C == [C[0]];
    }
    assert X + ([m] + C) == (X + [m]) + C;
  }

  /** A rest that is too short is put back. */
  lemma RestPutBack(X: seq<string>, m: string, t: seq<string>, min: int, length: Length)
    requires t != [] && min > 0 && Monotone(length) && length(m) >= min && length(Join(t)) < min
    ensures Finish(X + Merged([m] + t, min, length), min, length) == X + [m + " " + Join(t)]
  {
    hide Merged, Join;
    MergedFresh(m, t, min, length);
    MergedAllShort(t, min, length);
    var L := X + ([m] + [Join(t)]);
    assert L[..|L| - 2] == X;
  }

  /** Python keeps what comes before a chunk that it has begun. */
  lemma {:induction false} PyKeeps(j: seq<string>, cuts: set<nat>, min: int, k: nat, n: nat)
    requires 1 <= k < n <= |j| && !PyGlues(cuts, min, Last(PyMerged(j, cuts, min, k)), k)
    ensures var m := PyMerged(j, cuts, min, k); m < PyMerged(j, cuts, min, n)
    decreases n
  {
    hide PyMerged, PyGlues;
    PyStep(j, cuts, min, n - 1);
    if k < n - 1 {
      PyKeeps(j, cuts, min, k, n - 1);
    }
  }

  // ---- The program that goes on with the last chunk ----

  /** The chunk after X begins with a. */
  predicate GoesOn(X: seq<string>, a: string, f: seq<string>) { X <= f && (|f| > |X| ==> a <= f[|X|]) }

  lemma FinishGoesOn(X: seq<string>, a: string, f: seq<string>, min: int, length: Length)
    requires |f| > |X| && GoesOn(X, a, f)
    ensures var g := Finish(f, min, length); |g| > |X| ==> GoesOn(X, a, g)
  {
  }

  /** JavaScript, after joining piece k to m. */
  lemma JsGrows(X: seq<string>, m: string, t: seq<string>, min: int)
    requires t != [] && JsGlues(min, m)
    ensures var f := Finish(X + Merged([m] + t, min, JsLength), min, JsLength);
            |f| > |X| ==> f[|X|] != m
  {
    hide Merged, Finish, JsLength;
    MergedGrows(m, t, min, JsLength);
    var A := Merged([m] + t, min, JsLength);
    assert (X + A)[|X|] == A[0];
    FinishGoesOn(X, m + " " + t[0], X + A, min, JsLength);
  }

  /** Python, after joining piece k to m. */
  lemma {:induction false} PyGrows(j: seq<string>, cuts: set<nat>, min: int, k: nat, n: nat)
    requires 1 <= k < n <= |j|
    requires PyGlues(cuts, min, Last(PyMerged(j, cuts, min, k)), k)
    ensures var m := PyMerged(j, cuts, min, k);
            var r := PyMerged(j, cuts, min, n);
            |r| >= |m| && GoesOn(m[..|m| - 1], Last(m) + " " + j[k], r)
    decreases n
  {
    hide PyMerged, PyGlues;
    PyStep(j, cuts, min, n - 1);
    if k < n - 1 {
      PyGrows(j, cuts, min, k, n - 1);
    }
  }

  /** Pieces without a cut never begin a chunk. */
  lemma {:induction false} NoMoreCuts(j: seq<string>, cuts: set<nat>, min: int, k: nat, n: nat)
    requires 1 <= k <= n <= |j| && forall i :: k <= i < n ==> i !in cuts
    ensures |PyMerged(j, cuts, min, n)| == |PyMerged(j, cuts, min, k)|
    decreases n
  {
    hide PyMerged;
    if k < n {
      PyStep(j, cuts, min, n - 1);
      NoMoreCuts(j, cuts, min, k, n - 1);
    }
  }

  lemma {:induction false} NeverFewer(j: seq<string>, cuts: set<nat>, min: int, k: nat, n: nat)
    requires 1 <= k <= n <= |j|
    ensures |PyMerged(j, cuts, min, n)| >= |PyMerged(j, cuts, min, k)|
    decreases n
  {
    hide PyMerged, PyGlues;
    if k < n {
      PyStep(j, cuts, min, n - 1);
      NeverFewer(j, cuts, min, k, n - 1);
    }
  }

  /** Without a minimum Python begins as many chunks as there are cuts. */
  lemma NoMinimumCuts(j: seq<string>, cuts: set<nat>, min: int, k: nat)
    requires min <= 0 && 1 <= k <= |j|
    ensures |PyMerged(j, cuts, min, |j|)| == |PyMerged(j, cuts, min, k)|
       <==> forall i :: k <= i < |j| ==> i !in cuts
  {
    hide PyMerged;
    if i :| k <= i < |j| && i in cuts {
      NeverFewer(j, cuts, min, k, i);
      PyStep(j, cuts, min, i);
      NeverFewer(j, cuts, min, i + 1, |j|);
    } else {
      NoMoreCuts(j, cuts, min, k, |j|);
    }
  }

  /** What Python has after the chunks before m joins to m and the rest. */
  lemma RestJoins(j: seq<string>, cuts: set<nat>, min: int, k: nat, X: seq<string>, A: seq<string>)
    requires 1 <= k < |j| && A != [] && |PyMerged(j, cuts, min, k)| == |X| + 1
    requires PyMerged(j, cuts, min, |j|) == X + A && PyMerged(j, cuts, min, k)[..|X|] == X
    ensures Join(A) == Last(PyMerged(j, cuts, min, k)) + " " + Join(j[k..])
  {
    hide Join, Merged, Glued;
    var P := PyMerged(j, cuts, min, k);
    var m, t := Last(P), j[k..];
    assert P == X + [m] && j[..|j|] == j == j[..k] + t;
    MergedJoins(Glued(j, cuts, k), min, PyLength);
    MergedJoins(Glued(j, cuts, |j|), min, PyLength);
    GluedJoins(j, cuts, k);
    GluedJoins(j, cuts, |j|);
    JoinAppend(j[..k], t);
    JoinOne(m);
    if X != [] {
      JoinAppend(X, A);
      JoinAppend(X, [m]);
      SameTail(Join(X) + " ", Join(A), m + " " + Join(t));
    } else {
      assert X + A == A && X + [m] == [m];
    }
  }

  lemma SameTail(a: string, b: string, c: string)
    requires a + b == a + c
    ensures b == c
  {
    assert (a + b)[|a|..] == b && (a + c)[|a|..] == c;
  }

  /** Chunks that begin with m and a piece, joining to m and a short rest, are one, or two that the final pass
      joins. */
  lemma PyShape(A: seq<string>, m: string, rest: string, min: int)
    requires A != [] && |A[0]| > |m| && Join(A) == m + " " + rest && |rest| < min && AllReach(A, |A| - 1, min, PyLength)
    ensures var w := m + " " + rest;
            || A == [w]
            || (|A| == 2 && A[0] + " " + A[1] == w && |A[1]| < min && |w| >= min)
  {
    hide Join;
    if |A| == 1 {
      JoinOne(A[0]);
      assert A == [A[0]];
    } else {
      JoinLong(A);
      assert |A[1]| < min;
      assert |A| == 2;
      JoinTwo(A[0], A[1]);
      assert A == [A[0], A[1]];
    }
  }

  lemma JoinTwo(a: string, b: string)
    ensures Join([a, b]) == a + " " + b
  {
    JoinSnoc([a], b);
    JoinOne(a);
    assert [a] + [b] == [a, b];
  }

  lemma ShapeFinishes(X: seq<string>, A: seq<string>, w: string, min: int)
    requires min > 0
    requires A == [w] || (|A| == 2 && A[0] + " " + A[1] == w && |A[1]| < min && |w| >= min)
    ensures Finish(X + A, min, PyLength) == X + [w] <==> X == [] || |w| >= min
  {
    var L := X + A;
    if A != [w] {
      assert L[..|L| - 2] == X && L[|L| - 2] == A[0] && L[|L| - 1] == A[1];
    }
  }

  /** Python ends with the short rest in one chunk after X exactly when the last condition of Heals holds. */
  lemma PyHeals(j: seq<string>, cuts: set<nat>, min: int, k: nat)
    requires 1 <= k < |j| && PyGlues(cuts, min, Last(PyMerged(j, cuts, min, k)), k)
    requires min > 0 ==> |Join(j[k..])| < min
    ensures var P := PyMerged(j, cuts, min, k);
            var w := Last(P) + " " + Join(j[k..]);
            (Finish(PyMerged(j, cuts, min, |j|), min, PyLength) == P[..|P| - 1] + [w])
              <==> (if min > 0 then |P| == 1 || |w| >= min else forall i :: k <= i < |j| ==> i !in cuts)
  {
    hide Join, Merged, Glued, PyGlues;
    var P, R := PyMerged(j, cuts, min, k), PyMerged(j, cuts, min, |j|);
    var X, m := P[..|P| - 1], Last(P);
    var w := m + " " + Join(j[k..]);
    PyGrows(j, cuts, min, k, |j|);
    var A := R[|X|..];
    assert R == X + A;
    RestJoins(j, cuts, min, k, X, A);
    if min > 0 {
      MergedReach(Glued(j, cuts, |j|), min, PyLength);
      PyShape(A, m, Join(j[k..]), min);
      ShapeFinishes(X, A, w, min);
    } else {
      NoMinimumCuts(j, cuts, min, k);
      if |A| == 1 {
        JoinOne(A[0]);
        assert A == [A[0]];
      }
    }
  }

  // ---- The exact condition ----

  /** JavaScript begins a chunk at k and Python does not. */
  lemma JsBegins(j: seq<string>, cuts: set<nat>, min: int, jsMin: int, k: nat)
    requires (min > 0 ==> jsMin == min) && 1 <= k < |j|
    requires PyMerged(j, cuts, min, k) == Merged(j[..k], jsMin, JsLength)
    requires PyGlues(cuts, min, Last(PyMerged(j, cuts, min, k)), k)
    requires !JsGlues(jsMin, Last(Merged(j[..k], jsMin, JsLength)))
    ensures (Finish(PyMerged(j, cuts, min, |j|), min, PyLength) == Result(j, jsMin, JsLength))
       <==> Heals(j, cuts, min, jsMin, k)
  {
    hide Merged, Finish, JsLength, Join, PyMerged, PyGlues;
    var P, R, t := PyMerged(j, cuts, min, k), PyMerged(j, cuts, min, |j|), j[k..];
    var X, m := P[..|P| - 1], Last(P);
    assert j == j[..k] + t;
    MergedRestart(j[..k], t, jsMin, JsLength);
    JsAtLeastPy(Join(t));
    JsAtLeastPy(m);
    if JsLength(Join(t)) >= jsMin {
      BoundaryStays(X, m, t, jsMin, JsLength);
      PyGrows(j, cuts, min, k, |j|);
      FinishGoesOn(X, m + " " + j[k], R, min, PyLength);
    } else {
      LengthsMonotone();
      RestPutBack(X, m, t, jsMin, JsLength);
      PyHeals(j, cuts, min, k);
    }
  }

  /** Python begins a chunk at k and JavaScript does not. */
  lemma PyBegins(j: seq<string>, cuts: set<nat>, min: int, jsMin: int, k: nat)
    requires (min > 0 ==> jsMin == min) && 1 <= k < |j|
    requires PyMerged(j, cuts, min, k) == Merged(j[..k], jsMin, JsLength)
    requires !PyGlues(cuts, min, Last(PyMerged(j, cuts, min, k)), k)
    requires JsGlues(jsMin, Last(Merged(j[..k], jsMin, JsLength)))
    ensures Finish(PyMerged(j, cuts, min, |j|), min, PyLength) != Result(j, jsMin, JsLength)
  {
    hide Merged, JsLength, Join, PyMerged;
    var P, t := PyMerged(j, cuts, min, k), j[k..];
    var X, m := P[..|P| - 1], Last(P);
    JsAtLeastPy(m);
    assert min <= 0;
    assert j == j[..k] + t;
    MergedRestart(j[..k], t, jsMin, JsLength);
    JsGrows(X, m, t, jsMin);
    PyKeeps(j, cuts, min, k, |j|);
  }

  /** The chunks are the same exactly when AgreeOn holds. */
  lemma AgreeExactly(j: seq<string>, cuts: set<nat>, min: int, jsMin: int)
    requires j != [] && (min > 0 ==> jsMin == min)
    ensures Result(Glued(j, cuts, |j|), min, PyLength) == Result(j, jsMin, JsLength) <==> AgreeOn(j, cuts, min, jsMin)
  {
    hide Merged, Finish, JsLength, Heals, EndAlike, PyGlues, JsGlues, Glued;
    var k := FirstDifference(j, cuts, min, jsMin, 1);
    SameUpTo(j, cuts, min, jsMin, k);
    if k < |j| {
      if JsGlues(jsMin, Last(Merged(j[..k], jsMin, JsLength))) {
        PyBegins(j, cuts, min, jsMin, k);
        NotHealed(j, cuts, min, jsMin, k);
      } else {
        JsBegins(j, cuts, min, jsMin, k);
      }
    } else {
      assert j[..|j|] == j;
      FinishDecides(Merged(j, jsMin, JsLength), min, jsMin);
    }
  }

  lemma NotHealed(j: seq<string>, cuts: set<nat>, min: int, jsMin: int, k: nat)
    requires 1 <= k < |j| && JsGlues(jsMin, Last(Merged(j[..k], jsMin, JsLength)))
    ensures !Heals(j, cuts, min, jsMin, k)
  {
  }

  // ---- One chunk ----

  ghost predicate Additive(length: Length) {
    && Monotone(length)
    && (forall a: string, b: string :: length(a + b) == length(a) + length(b))
    && forall a: string :: length(a) >= 0
  }

  lemma LengthsAdditive()
    ensures Additive(PyLength) && Additive(JsLength)
  {
    LengthsMonotone();
    forall a: string, b: string
      ensures JsLength(a + b) == JsLength(a) + JsLength(b)
    {
      JsLengthAppend(a, b);
    }
    forall a: string
      ensures JsLength(a) >= 0
    {
      JsAtLeastPy(a);
    }
  }

  /** No place leaves enough on both sides. */
  predicate OneChunk(s: seq<string>, min: int, length: Length) {
    forall k :: 1 <= k < |s| ==> length(Join(s[..k])) < min || length(Join(s[k..])) < min
  }

  /** How many sentences it takes to reach the minimum, or all of them. */
  function Reaching(s: seq<string>, min: int, length: Length, k: nat): (r: nat)
    requires 1 <= k <= |s|
    ensures k <= r <= |s| && (r < |s| ==> length(Join(s[..r])) >= min)
    ensures forall i :: k <= i < r ==> length(Join(s[..i])) < min
    decreases |s| - k
  {
    if k == |s| || length(Join(s[..k])) >= min then k else Reaching(s, min, length, k + 1)
  }

  lemma ShorterRest(s: seq<string>, k: nat, i: nat, length: Length)
    requires Additive(length) && 1 <= k <= i < |s|
    ensures length(Join(s[i..])) <= length(Join(s[k..]))
  {
    hide Join;
    if k < i {
      assert s[k..] == s[k..i] + s[i..];
      JoinAppend(s[k..i], s[i..]);
      assert length(Join(s[k..])) == length(Join(s[k..i]) + " ") + length(Join(s[i..]));
    }
  }

  /** Sentences end as one chunk exactly when no place leaves enough on both sides. */
  lemma OneChunkExactly(s: seq<string>, min: int, length: Length)
    requires s != [] && Additive(length)
    ensures Result(s, min, length) == [Join(s)] <==> OneChunk(s, min, length)
  {
    hide Merged, Join, Finish;
    var k := Reaching(s, min, length, 1);
    FinishSingle(Join(s), min, length);
    if k == |s| {
      MergedPrefixesShort(s, min, length);
    } else {
      var u, t := s[..k], s[k..];
      assert s == u + t;
      assert forall i :: 1 <= i < k ==> u[..i] == s[..i];
      MergedPrefixesShort(u, min, length);
      JoinAppend(u, t);
      MergedRestart(u, t, min, length);
      var X: seq<string> := [];
      assert X + Merged([Join(u)] + t, min, length) == Merged(s, min, length);
      if length(Join(t)) >= min {
        BoundaryStays(X, Join(u), t, min, length);
        assert |Join(s)| > |Join(u)|;
      } else {
        RestPutBack(X, Join(u), t, min, length);
        forall i | 1 <= i < |s|
          ensures length(Join(s[..i])) < min || length(Join(s[i..])) < min
        {
          if i >= k {
            ShorterRest(s, k, i, length);
          }
        }
      }
    }
  }

  lemma FinishSingle(w: string, min: int, length: Length)
    ensures Finish([w], min, length) == [w]
  {
  }
}
