// Gauss-Jordan inversion with partial pivoting (browser/js/voice-play.js, _invertMatrix), over exact reals.
module MatrixInverse {
  import opened Wrappers

  type Vector = seq<real>
  type Matrix = seq<seq<real>>

  const THRESHOLD: real := 0.000000000000001

  predicate Sized(a: Matrix, rows: nat, columns: nat) {
    |a| == rows && forall i :: 0 <= i < rows ==> |a[i]| == columns
  }

  function Abs(x: real): real { if x < 0.0 then -x else x }

  // ---- Linear algebra ----

  function Dot(u: Vector, v: Vector): real
    requires |u| == |v|
    decreases |u|
  {
    if u == [] then 0.0 else u[0] * v[0] + Dot(u[1..], v[1..])
  }

  function Scale(u: Vector, c: real): (v: Vector)
    ensures |v| == |u| && forall i :: 0 <= i < |u| ==> v[i] == c * u[i]
  {
    seq(|u|, i requires 0 <= i < |u| => c * u[i])
  }

  function Plus(u: Vector, v: Vector): (s: Vector)
    requires |u| == |v|
    ensures |s| == |u| && forall i :: 0 <= i < |u| ==> s[i] == u[i] + v[i]
  {
    seq(|u|, i requires 0 <= i < |u| => u[i] + v[i])
  }

  function Unit(n: nat, k: nat): (u: Vector)
    ensures |u| == n && forall i :: 0 <= i < n ==> u[i] == if i == k then 1.0 else 0.0
  {
    seq(n, i => if i == k then 1.0 else 0.0)
  }

  function Identity(n: nat): (a: Matrix)
    ensures Sized(a, n, n) && forall i :: 0 <= i < n ==> a[i] == Unit(n, i)
  {
    seq(n, i requires 0 <= i < n => Unit(n, i))
  }

  function Col(a: Matrix, rows: nat, columns: nat, j: nat): (c: Vector)
    requires Sized(a, rows, columns) && j < columns
    ensures |c| == rows && forall i :: 0 <= i < rows ==> c[i] == a[i][j]
  {
    seq(rows, i requires 0 <= i < rows => a[i][j])
  }

  predicate Square(m: Matrix) { Sized(m, |m|, |m|) }

  /** The product a b is the identity. */
  ghost predicate ProductIsIdentity(a: Matrix, b: Matrix) {
    && Square(a) && Square(b) && |a| == |b|
    && forall i, j :: 0 <= i < |a| && 0 <= j < |a| ==> Dot(a[i], Col(b, |b|, |b|, j)) == Unit(|a|, i)[j]
  }

  lemma ScaleTail(u: Vector, c: real)
    requires u != []
    ensures Scale(u, c)[1..] == Scale(u[1..], c)
  {
    var s, t := Scale(u, c)[1..], Scale(u[1..], c);
    assert forall i :: 0 <= i < |t| ==> s[i] == c * u[i + 1] == t[i];
  }

  lemma ScaleTerm(c: real, u: real, v: real, rest: real)
    ensures c * u * v + c * rest == c * (u * v + rest)
  {
    assert c * u * v == c * (u * v);
  }

  lemma {:induction false} DotScale(u: Vector, c: real, v: Vector)
    requires |u| == |v|
    ensures Dot(Scale(u, c), v) == c * Dot(u, v)
    decreases |u|
  {
    hide Scale;
    if u != [] {
      ScaleTail(u, c);
      DotScale(u[1..], c, v[1..]);
      ScaleTerm(c, u[0], v[0], Dot(u[1..], v[1..]));
    }
  }

  lemma {:induction false} DotCommutes(u: Vector, v: Vector)
    requires |u| == |v|
    ensures Dot(u, v) == Dot(v, u)
    decreases |u|
  {
    if u != [] {
      DotCommutes(u[1..], v[1..]);
    }
  }

  lemma {:induction false} DotPlus(u: Vector, s: Vector, v: Vector)
    requires |u| == |s| == |v|
    ensures Dot(Plus(u, s), v) == Dot(u, v) + Dot(s, v)
    decreases |u|
  {
    if u != [] {
      assert Plus(u, s)[1..] == Plus(u[1..], s[1..]);
      DotPlus(u[1..], s[1..], v[1..]);
    }
  }

  /** Changing one coordinate adds the change times the other coordinate. */
  lemma {:induction false} DotUpdate(u: Vector, k: nat, x: real, v: Vector)
    requires |u| == |v| && k < |u|
    ensures Dot(u[k := x], v) == Dot(u, v) + (x - u[k]) * v[k]
    decreases |u|
  {
    var w := u[k := x];
    if k == 0 {
      assert w[1..] == u[1..];
    } else {
      assert w[1..] == u[1..][k - 1 := x];
      DotUpdate(u[1..], k - 1, x, v[1..]);
    }
  }

  lemma {:induction false} DotZero(n: nat, v: Vector)
    requires |v| == n
    ensures Dot(Unit(n, n), v) == 0.0
    decreases n
  {
    if n > 0 {
      assert Unit(n, n)[1..] == Unit(n - 1, n - 1);
      DotZero(n - 1, v[1..]);
    }
  }

  lemma DotUnit(n: nat, k: nat, v: Vector)
    requires |v| == n && k < n
    ensures Dot(Unit(n, k), v) == v[k]
    ensures Dot(v, Unit(n, k)) == v[k]
  {
    DotZero(n, v);
    DotUpdate(Unit(n, n), k, 1.0, v);
    assert Unit(n, k) == Unit(n, n)[k := 1.0];
    DotCommutes(v, Unit(n, k));
  }

  function Swapped<T>(s: seq<T>, i: nat, j: nat): (t: seq<T>)
    requires i < |s| && j < |s|
    ensures |t| == |s|
  {
    s[i := s[j]][j := s[i]]
  }

  lemma SwapTerms(ui: real, uj: real, vi: real, vj: real)
    ensures (uj - ui) * vj + (ui - uj) * vi + (vj - vi) * ui + (vi - vj) * uj == 0.0
  {
  }

  /** Swapping the same two coordinates of both vectors changes nothing. */
  lemma DotSwap(u: Vector, v: Vector, i: nat, j: nat)
    requires |u| == |v| && i < |u| && j < |u|
    ensures Dot(Swapped(u, i, j), Swapped(v, i, j)) == Dot(u, v)
  {
    hide Dot;
    if i == j {
      assert Swapped(u, i, j) == u && Swapped(v, i, j) == v;
    } else {
      var u1, v1, w := u[i := u[j]], v[i := v[j]], Swapped(v, i, j);
      DotUpdate(u, i, u[j], w);
      DotUpdate(u1, j, u[i], w);
      DotCommutes(u, w);
      DotUpdate(v, i, v[j], u);
      DotUpdate(v1, j, v[i], u);
      DotCommutes(u, v);
      SwapTerms(u[i], u[j], v[i], v[j]);
    }
  }

  // ---- The elimination as a function of the augmented matrix ----

  function Divide(u: Vector, p: real): (v: Vector)
    requires p != 0.0
    ensures |v| == |u| && forall i :: 0 <= i < |u| ==> v[i] == u[i] / p
  {
    seq(|u|, i requires 0 <= i < |u| => u[i] / p)
  }

  function SubtractMultiple(u: Vector, f: real, v: Vector): (w: Vector)
    requires |u| == |v|
    ensures |w| == |u| && forall i :: 0 <= i < |u| ==> w[i] == u[i] - f * v[i]
  {
    seq(|u|, i requires 0 <= i < |u| => u[i] - f * v[i])
  }

  /** The input with the identity to its right. */
  function Augment(m: Matrix): (a: Matrix)
    requires Square(m)
    ensures Sized(a, |m|, 2 * |m|)
  {
    seq(|m|, i requires 0 <= i < |m| => m[i] + Unit(|m|, i))
  }

  /** The partial pivot: the first row from col to last whose entry in column col is largest in magnitude. */
  function PivotRow(a: Matrix, n: nat, col: nat, last: nat): (p: nat)
    requires Sized(a, n, 2 * n) && col <= last < n
    ensures col <= p <= last
    ensures forall r :: col <= r <= last ==> Abs(a[r][col]) <= Abs(a[p][col])
    ensures forall r :: col <= r < p ==> Abs(a[r][col]) < Abs(a[p][col])
    decreases last
  {
    if last == col then col
    else
      var best := PivotRow(a, n, col, last - 1);
      if Abs(a[last][col]) > Abs(a[best][col]) then last else best
  }

  /** Column col is cleared with the pivot already in place. */
  function Eliminated(b: Matrix, n: nat, col: nat): (a: Matrix)
    requires Sized(b, n, 2 * n) && col < n && b[col][col] != 0.0
    ensures Sized(a, n, 2 * n)
  {
    var row := Divide(b[col], b[col][col]);
    seq(n, r requires 0 <= r < n => if r == col then row else SubtractMultiple(b[r], b[r][col], row))
  }

  function Pivot(a: Matrix, n: nat, col: nat): real
    requires Sized(a, n, 2 * n) && col < n
  {
    a[PivotRow(a, n, col, n - 1)][col]
  }

  function Step(a: Matrix, n: nat, col: nat): (b: Matrix)
    requires Sized(a, n, 2 * n) && col < n && Pivot(a, n, col) != 0.0
    ensures Sized(b, n, 2 * n)
  {
    Eliminated(Swapped(a, col, PivotRow(a, n, col, n - 1)), n, col)
  }

  function Reduce(a: Matrix, n: nat, col: nat): (r: Option<Matrix>)
    requires Sized(a, n, 2 * n) && col <= n
    ensures r.Some? ==> Sized(r.value, n, 2 * n)
    decreases n - col
  {
    if col == n then Some(a)
    else if Abs(Pivot(a, n, col)) < THRESHOLD then None
    else Reduce(Step(a, n, col), n, col + 1)
  }

  function RightHalf(a: Matrix, n: nat): (b: Matrix)
    requires Sized(a, n, 2 * n)
    ensures Sized(b, n, n)
  {
    seq(n, i requires 0 <= i < n => a[i][n..])
  }

  function Invert(m: Matrix): (r: Option<Matrix>)
    requires Square(m)
    ensures r.Some? ==> Sized(r.value, |m|, |m|)
  {
    match Reduce(Augment(m), |m|, 0)
    case None => None
    case Some(a) => Some(RightHalf(a, |m|))
  }

  // ---- Left half = right half times input ----

  ghost predicate RowConsistent(row: Vector, m: Matrix)
    requires Square(m)
  {
    |row| == 2 * |m| && forall j :: 0 <= j < |m| ==> row[j] == Dot(row[|m|..], Col(m, |m|, |m|, j))
  }

  ghost predicate Consistent(a: Matrix, m: Matrix)
    requires Square(m)
  {
    |a| == |m| && forall i :: 0 <= i < |a| ==> RowConsistent(a[i], m)
  }

  lemma StartConsistent(m: Matrix)
    requires Square(m)
    ensures Consistent(Augment(m), m)
  {
    var n := |m|;
    forall i | 0 <= i < n
      ensures RowConsistent(Augment(m)[i], m)
    {
      var row := Augment(m)[i];
      assert row[n..] == Unit(n, i);
      forall j | 0 <= j < n
        ensures row[j] == Dot(row[n..], Col(m, n, n, j))
      {
        DotUnit(n, i, Col(m, n, n, j));
      }
    }
  }

  lemma QuotientIsProduct(x: real, p: real, q: real)
    requires p != 0.0 && q == 1.0 / p
    ensures x / p == q * x
  {
    var y := x / p;
    assert y * p == x && q * p == 1.0;
    assert q * (y * p) == (q * p) * y;
  }

  lemma DivideIsScale(u: Vector, p: real)
    requires p != 0.0
    ensures Divide(u, p) == Scale(u, 1.0 / p)
  {
    var s, t := Divide(u, p), Scale(u, 1.0 / p);
    forall i | 0 <= i < |u|
      ensures s[i] == t[i]
    {
      QuotientIsProduct(u[i], p, 1.0 / p);
    }
  }

  lemma RowDivide(row: Vector, m: Matrix, p: real)
    requires Square(m) && RowConsistent(row, m) && p != 0.0
    ensures RowConsistent(Divide(row, p), m)
  {
    hide Dot;
    var n, q := |m|, 1.0 / p;
    DivideIsScale(row, p);
    DivideIsScale(row[n..], p);
    var out := Divide(row, p);
    assert out[n..] == Divide(row[n..], p);
    forall j | 0 <= j < n
      ensures out[j] == Dot(out[n..], Col(m, n, n, j))
    {
      DotScale(row[n..], q, Col(m, n, n, j));
    }
  }

  lemma {:induction false} DotSubtract(u: Vector, f: real, s: Vector, v: Vector)
    requires |u| == |s| == |v|
    ensures Dot(SubtractMultiple(u, f, s), v) == Dot(u, v) - f * Dot(s, v)
    decreases |u|
  {
    if u != [] {
      var w := SubtractMultiple(u, f, s);
      SubtractTail(u, f, s);
      DotSubtract(u[1..], f, s[1..], v[1..]);
      TermSubtract(u[0], f, s[0], v[0], Dot(s[1..], v[1..]));
    }
  }

  lemma SubtractTail(u: Vector, f: real, s: Vector)
    requires |u| == |s| && u != []
    ensures SubtractMultiple(u, f, s)[1..] == SubtractMultiple(u[1..], f, s[1..])
  {
    SubtractFrom(u, f, s, 1);
  }

  lemma SubtractFrom(u: Vector, f: real, s: Vector, k: nat)
    requires |u| == |s| && k <= |u|
    ensures SubtractMultiple(u, f, s)[k..] == SubtractMultiple(u[k..], f, s[k..])
  {
    var w, t := SubtractMultiple(u, f, s)[k..], SubtractMultiple(u[k..], f, s[k..]);
    forall i | 0 <= i < |t|
      ensures w[i] == t[i]
    {
      assert w[i] == u[i + k] - f * s[i + k];
    }
  }

  lemma TermSubtract(u: real, f: real, s: real, v: real, rest: real)
    ensures (u - f * s) * v - f * rest == u * v - f * (s * v + rest)
  {
  }

  lemma RowSubtract(row: Vector, f: real, other: Vector, m: Matrix)
    requires Square(m) && RowConsistent(row, m) && RowConsistent(other, m)
    ensures RowConsistent(SubtractMultiple(row, f, other), m)
  {
    hide Dot;
    var n := |m|;
    var out := SubtractMultiple(row, f, other);
    SubtractFrom(row, f, other, n);
    forall j | 0 <= j < n
      ensures out[j] == Dot(out[n..], Col(m, n, n, j))
    {
      DotSubtract(row[n..], f, other[n..], Col(m, n, n, j));
    }
  }

  lemma StepConsistent(a: Matrix, m: Matrix, col: nat)
    requires Square(m) && Sized(a, |m|, 2 * |m|) && Consistent(a, m) && col < |m| && Pivot(a, |m|, col) != 0.0
    ensures Consistent(Step(a, |m|, col), m)
  {
    hide RowConsistent;
    var n := |m|;
    var b := Swapped(a, col, PivotRow(a, n, col, n - 1));
    var row := Divide(b[col], b[col][col]);
    RowDivide(b[col], m, b[col][col]);
    forall r | 0 <= r < n && r != col
      ensures RowConsistent(SubtractMultiple(b[r], b[r][col], row), m)
    {
      RowSubtract(b[r], b[r][col], row, m);
    }
  }

  // ---- The columns done so far are those of the identity ----

  predicate Cleared(a: Matrix, n: nat, col: nat)
    requires Sized(a, n, 2 * n) && col <= n
  {
    forall r, c :: 0 <= r < n && 0 <= c < col ==> a[r][c] == Unit(n, c)[r]
  }

  /** Clearing column col in row r: zero in the new column, unchanged where the pivot row already had a zero. */
  lemma ClearedEntry(x: real, f: real, top: real, p: real)
    requires p != 0.0
    ensures top == 0.0 ==> x - f * (top / p) == x && top / p == 0.0
    ensures p / p == 1.0 && f - f * (p / p) == 0.0
  {
    if top == 0.0 {
      assert top / p == 0.0;
    }
    assert p / p == 1.0;
  }

  lemma StepCleared(a: Matrix, n: nat, col: nat)
    requires Sized(a, n, 2 * n) && col < n && Cleared(a, n, col) && Pivot(a, n, col) != 0.0
    ensures Cleared(Step(a, n, col), n, col + 1)
  {
    var b := Swapped(a, col, PivotRow(a, n, col, n - 1));
    var p := b[col][col];
    var out := Step(a, n, col);
    forall r, c | 0 <= r < n && 0 <= c < col + 1
      ensures out[r][c] == Unit(n, c)[r]
    {
      ClearedEntry(b[r][c], b[r][col], b[col][c], p);
    }
  }

  // ---- Every step can be undone: some matrix times the current one gives the augmented input ----

  ghost predicate Undoes(l: Matrix, a: Matrix, m: Matrix)
    requires Square(m)
  {
    && Sized(l, |m|, |m|) && Sized(a, |m|, 2 * |m|)
    && forall i, j :: 0 <= i < |m| && 0 <= j < 2 * |m| ==> Dot(l[i], Col(a, |m|, 2 * |m|, j)) == Augment(m)[i][j]
  }

  lemma StartUndone(m: Matrix)
    requires Square(m)
    ensures Undoes(Identity(|m|), Augment(m), m)
  {
    var n, a := |m|, Augment(m);
    forall i, j | 0 <= i < n && 0 <= j < 2 * n
      ensures Dot(Identity(n)[i], Col(a, n, 2 * n, j)) == a[i][j]
    {
      DotUnit(n, i, Col(a, n, 2 * n, j));
    }
  }

  /** Undoing one elimination in one column: c is the column before it, d the column after, f the cleared column before
      it. */
  lemma UndoColumn(l: Vector, c: Vector, d: Vector, f: Vector, k: nat)
    requires |l| == |c| == |d| == |f| && k < |l|
    requires c[k] == f[k] * d[k] && forall r :: 0 <= r < |l| && r != k ==> d[r] == c[r] - f[r] * d[k]
    ensures Dot(l[k := Dot(l, f)], d) == Dot(l, c)
  {
    hide Dot;
    var x := Dot(l, f);
    DotUpdate(l, k, x, d);
    var e := d[k := 0.0];
    DotCommutes(l, d);
    DotUpdate(d, k, 0.0, l);
    DotCommutes(l, e);
    DotScale(f, d[k], l);
    DotCommutes(l, f);
    DotPlus(e, Scale(f, d[k]), l);
    assert c == Plus(e, Scale(f, d[k]));
    DotCommutes(l, c);
    assert (x - l[k]) * d[k] == x * d[k] - l[k] * d[k];
    assert (0.0 - d[k]) * l[k] == -(l[k] * d[k]);
  }

  function UndoRow(l: Vector, k: nat, p: nat, x: real): (u: Vector)
    requires k < |l| && p < |l|
    ensures |u| == |l|
  {
    Swapped(l, k, p)[k := x]
  }

  function Undo(l: Matrix, m: Matrix, k: nat, p: nat): (u: Matrix)
    requires Square(m) && Sized(l, |m|, |m|) && k < |m| && p < |m|
    ensures Sized(u, |m|, |m|)
  {
    seq(|m|, i requires 0 <= i < |m| => UndoRow(l[i], k, p, m[i][k]))
  }

  lemma ColumnSwapped(a: Matrix, n: nat, k: nat, p: nat, j: nat)
    requires Sized(a, n, 2 * n) && k < n && p < n && j < 2 * n
    ensures Col(Swapped(a, k, p), n, 2 * n, j) == Swapped(Col(a, n, 2 * n, j), k, p)
  {
  }

  /** What an elimination does to column j, given column k. */
  lemma EliminatedColumn(b: Matrix, n: nat, k: nat, j: nat)
    requires Sized(b, n, 2 * n) && k < n && j < 2 * n && b[k][k] != 0.0
    ensures var c, d, f := Col(b, n, 2 * n, j), Col(Eliminated(b, n, k), n, 2 * n, j), Col(b, n, 2 * n, k);
            c[k] == f[k] * d[k] && forall r :: 0 <= r < n && r != k ==> d[r] == c[r] - f[r] * d[k]
  {
    PivotProduct(b[k][j], b[k][k]);
    assert Eliminated(b, n, k)[k] == Divide(b[k], b[k][k]);
  }

  lemma UndoFact(l: Matrix, a: Matrix, m: Matrix, i: nat, j: nat)
    requires Square(m) && Undoes(l, a, m) && i < |m| && j < 2 * |m|
    ensures Sized(l, |m|, |m|) && Sized(a, |m|, 2 * |m|)
    ensures Dot(l[i], Col(a, |m|, 2 * |m|, j)) == Augment(m)[i][j]
  {
  }

  lemma UndoEntry(l: Matrix, a: Matrix, m: Matrix, k: nat, i: nat, j: nat)
    requires Square(m) && Undoes(l, a, m) && k < |m| && Pivot(a, |m|, k) != 0.0 && i < |m| && j < 2 * |m|
    ensures var p := PivotRow(a, |m|, k, |m| - 1);
            Dot(UndoRow(l[i], k, p, m[i][k]), Col(Step(a, |m|, k), |m|, 2 * |m|, j)) == Augment(m)[i][j]
  {
    hide Dot, Eliminated, Col, Swapped, Augment, PivotRow, Pivot, Undoes, Sized;
    UndoFact(l, a, m, i, j);
    UndoFact(l, a, m, i, k);
    var n, p := |m|, PivotRow(a, |m|, k, |m| - 1);
    InputColumn(m, i, k);
    PivotInPlace(a, n, k);
    StillSized(a, n, k, p);
    Widths(l, m, a, i);
    DotSwap(l[i], Col(a, n, 2 * n, j), k, p);
    DotSwap(l[i], Col(a, n, 2 * n, k), k, p);
    ColumnSwapped(a, n, k, p, j);
    ColumnSwapped(a, n, k, p, k);
    var b := Swapped(a, k, p);
    EliminatedColumn(b, n, k, j);
    UndoColumn(Swapped(l[i], k, p), Col(b, n, 2 * n, j), Col(Eliminated(b, n, k), n, 2 * n, j), Col(b, n, 2 * n, k), k);
  }

  lemma Widths(l: Matrix, m: Matrix, a: Matrix, i: nat)
    requires Square(m) && Sized(l, |m|, |m|) && i < |m| && Sized(a, |m|, 2 * |m|)
    ensures |l[i]| == |m| == |m[i]| && |a| == |m|
  {
  }

  lemma StillSized(a: Matrix, n: nat, k: nat, p: nat)
    requires Sized(a, n, 2 * n) && k < n && p < n
    ensures Sized(Swapped(a, k, p), n, 2 * n)
  {
  }

  lemma InputColumn(m: Matrix, i: nat, k: nat)
    requires Square(m) && i < |m| && k < |m|
    ensures Augment(m)[i][k] == m[i][k]
  {
  }

  lemma PivotInPlace(a: Matrix, n: nat, k: nat)
    requires Sized(a, n, 2 * n) && k < n
    ensures Swapped(a, k, PivotRow(a, n, k, n - 1))[k][k] == Pivot(a, n, k)
  {
  }

  lemma PivotProduct(x: real, p: real)
    requires p != 0.0
    ensures x == p * (x / p)
  {
  }

  lemma StepUndone(l: Matrix, a: Matrix, m: Matrix, k: nat)
    requires Square(m) && Undoes(l, a, m) && k < |m| && Pivot(a, |m|, k) != 0.0
    ensures Undoes(Undo(l, m, k, PivotRow(a, |m|, k, |m| - 1)), Step(a, |m|, k), m)
  {
    hide Dot, Step, UndoRow, Col, Augment, PivotRow;
    forall i, j | 0 <= i < |m| && 0 <= j < 2 * |m|
      ensures Dot(Undo(l, m, k, PivotRow(a, |m|, k, |m| - 1))[i], Col(Step(a, |m|, k), |m|, 2 * |m|, j))
          == Augment(m)[i][j]
    {
      UndoEntry(l, a, m, k, i, j);
      assert Undo(l, m, k, PivotRow(a, |m|, k, |m| - 1))[i] == UndoRow(l[i], k, PivotRow(a, |m|, k, |m| - 1), m[i][k]);
    }
  }

  // ---- The result is the inverse ----

  lemma LeftInverse(a: Matrix, m: Matrix)
    requires Square(m) && Sized(a, |m|, 2 * |m|) && Consistent(a, m) && Cleared(a, |m|, |m|)
    ensures ProductIsIdentity(RightHalf(a, |m|), m)
  {
    hide Dot;
    var n, inv := |m|, RightHalf(a, |m|);
    forall i, j | 0 <= i < n && 0 <= j < n
      ensures Dot(inv[i], Col(m, n, n, j)) == Unit(n, i)[j]
    {
      assert RowConsistent(a[i], m);
      assert a[i][j] == Unit(n, j)[i];
    }
  }

  /** Once columns are cleared, the undoing matrix holds the same columns of the input. */
  lemma UndoIsInput(l: Matrix, a: Matrix, m: Matrix, col: nat, i: nat, c: nat)
    requires Square(m) && Undoes(l, a, m) && col <= |m| && Cleared(a, |m|, col) && i < |m| && c < col
    ensures l[i][c] == m[i][c]
  {
    hide Dot;
    var n := |m|;
    assert Col(a, n, 2 * n, c) == Unit(n, c);
    DotUnit(n, c, l[i]);
    assert Augment(m)[i][c] == m[i][c];
  }

  lemma RightInverse(l: Matrix, a: Matrix, m: Matrix)
    requires Square(m) && Undoes(l, a, m) && Cleared(a, |m|, |m|)
    ensures ProductIsIdentity(m, RightHalf(a, |m|))
  {
    hide Dot;
    var n, inv := |m|, RightHalf(a, |m|);
    forall i, j | 0 <= i < n && 0 <= j < n
      ensures Dot(m[i], Col(inv, n, n, j)) == Unit(n, i)[j]
    {
      forall c | 0 <= c < n
        ensures l[i][c] == m[i][c]
      {
        UndoIsInput(l, a, m, n, i, c);
      }
      assert l[i] == m[i];
      assert Col(inv, n, n, j) == Col(a, n, 2 * n, n + j);
      assert Augment(m)[i][n + j] == Unit(n, i)[j];
    }
  }

  lemma {:induction false} ReduceInverts(l: Matrix, a: Matrix, m: Matrix, col: nat)
    requires Square(m) && Undoes(l, a, m) && Consistent(a, m) && col <= |m|
    requires Sized(l, |m|, |m|) && Sized(a, |m|, 2 * |m|) && Cleared(a, |m|, col)
    requires Reduce(a, |m|, col).Some?
    ensures var inv := RightHalf(Reduce(a, |m|, col).value, |m|);
            ProductIsIdentity(inv, m) && ProductIsIdentity(m, inv)
    decreases |m| - col
  {
    hide Undoes, Consistent, Cleared, ProductIsIdentity, Step, RightHalf;
    if col == |m| {
      LeftInverse(a, m);
      RightInverse(l, a, m);
    } else {
      StepUndone(l, a, m, col);
      StepConsistent(a, m, col);
      StepCleared(a, |m|, col);
      ReduceInverts(Undo(l, m, col, PivotRow(a, |m|, col, |m| - 1)), Step(a, |m|, col), m, col + 1);
    }
  }

  /** Whatever is returned is the two-sided inverse of the input. */
  lemma InvertIsInverse(m: Matrix)
    requires Square(m) && Invert(m).Some?
    ensures ProductIsIdentity(Invert(m).value, m)
    ensures ProductIsIdentity(m, Invert(m).value)
  {
    hide Reduce, ProductIsIdentity;
    StartUndone(m);
    StartConsistent(m);
    ReduceInverts(Identity(|m|), Augment(m), m, 0);
  }

  // ---- When nothing is returned ----

  /** Column k of m is a combination of the columns before it. */
  ghost predicate DependentColumn(m: Matrix, k: nat, t: Vector)
    requires Square(m)
  {
    k < |m| && |t| == k && forall i :: 0 <= i < |m| ==> m[i][k] == Dot(m[i][..k], t)
  }

  ghost predicate Singular(m: Matrix)
    requires Square(m)
  {
    exists k: nat, t: Vector :: DependentColumn(m, k, t)
  }

  /** Some column's pivot candidates are all below the threshold without all being zero. */
  predicate Borderline(a: Matrix, n: nat, col: nat)
    requires Sized(a, n, 2 * n) && col <= n
    decreases n - col
  {
    if col == n then false
    else if Abs(Pivot(a, n, col)) < THRESHOLD then Pivot(a, n, col) != 0.0
    else Borderline(Step(a, n, col), n, col + 1)
  }

  lemma {:induction false} DotTail(u: Vector, v: Vector, k: nat)
    requires |u| == |v| && k <= |u| && forall r :: k <= r < |v| ==> v[r] == 0.0
    ensures Dot(u, v) == Dot(u[..k], v[..k])
    decreases |u|
  {
    if u == [] {
    } else if k == 0 {
      DotTail(u[1..], v[1..], 0);
      assert u[1..][..0] == u[..0] && v[1..][..0] == v[..0];
    } else {
      DotTail(u[1..], v[1..], k - 1);
      assert u[1..][..k - 1] == u[..k][1..] && v[1..][..k - 1] == v[..k][1..];
    }
  }

  /** A column without a pivot depends on the columns already cleared. */
  lemma ZeroPivotDependent(l: Matrix, a: Matrix, m: Matrix, col: nat)
    requires Square(m) && Undoes(l, a, m) && col < |m| && Cleared(a, |m|, col) && Pivot(a, |m|, col) == 0.0
    ensures DependentColumn(m, col, Col(a, |m|, 2 * |m|, col)[..col])
  {
    hide Dot;
    var n, c := |m|, Col(a, |m|, 2 * |m|, col);
    forall i | 0 <= i < n
      ensures m[i][col] == Dot(m[i][..col], c[..col])
    {
      DotTail(l[i], c, col);
      forall k | 0 <= k < col
        ensures l[i][k] == m[i][k]
      {
        UndoIsInput(l, a, m, col, i, k);
      }
      assert l[i][..col] == m[i][..col];
      assert Augment(m)[i][col] == m[i][col];
    }
  }

  lemma {:induction false} NothingIsSingular(l: Matrix, a: Matrix, m: Matrix, col: nat)
    requires Square(m) && Undoes(l, a, m) && col <= |m|
    requires Sized(l, |m|, |m|) && Sized(a, |m|, 2 * |m|) && Cleared(a, |m|, col)
    requires Reduce(a, |m|, col).None? && !Borderline(a, |m|, col)
    ensures Singular(m)
    decreases |m| - col
  {
    hide Undoes, Cleared, Step, DependentColumn;
    if Abs(Pivot(a, |m|, col)) < THRESHOLD {
      ZeroPivotDependent(l, a, m, col);
    } else {
      StepUndone(l, a, m, col);
      StepCleared(a, |m|, col);
      NothingIsSingular(Undo(l, m, col, PivotRow(a, |m|, col, |m| - 1)), Step(a, |m|, col), m, col + 1);
    }
  }

  /** e annihilates every column before k, so it annihilates each of their combinations. */
  lemma {:induction false} Annihilates(e: Vector, m: Matrix, k: nat, t: Vector, w: Vector)
    requires Square(m) && |e| == |m| == |w| && k <= |m| && |t| == k
    requires forall c :: 0 <= c < k ==> Dot(e, Col(m, |m|, |m|, c)) == 0.0
    requires forall i :: 0 <= i < |m| ==> w[i] == Dot(m[i][..k], t)
    ensures Dot(e, w) == 0.0
    decreases k
  {
    hide Dot;
    var n := |m|;
    if k == 0 {
      forall i | 0 <= i < n
        ensures w[i] == 0.0
      {
        EmptyDot(m[i][..0], t);
      }
      DotTail(e, w, 0);
      EmptyDot(e[..0], w[..0]);
    } else {
      var j, x := k - 1, t[k - 1];
      var v := seq(n, i requires 0 <= i < n => Dot(m[i][..j], t[..j]));
      Annihilates(e, m, j, t[..j], v);
      forall i | 0 <= i < n
        ensures w[i] == v[i] + x * m[i][j]
      {
        DotLast(m[i][..k], t);
        assert m[i][..k][..j] == m[i][..j];
      }
      var c := Col(m, n, n, j);
      var s := Plus(v, Scale(c, x));
      assert forall i :: 0 <= i < n ==> w[i] == v[i] + x * m[i][j] == s[i];
      assert w == s;
      DotPlus(v, Scale(c, x), e);
      DotScale(c, x, e);
      DotCommutes(e, w);
      DotCommutes(e, v);
      DotCommutes(e, c);
    }
  }

  lemma EmptyDot(u: Vector, v: Vector)
    requires |u| == |v| == 0
    ensures Dot(u, v) == 0.0
  {
  }

  lemma {:induction false} DotLast(u: Vector, v: Vector)
    requires |u| == |v| && u != []
    ensures var k := |u| - 1; Dot(u, v) == Dot(u[..k], v[..k]) + v[k] * u[k]
    decreases |u|
  {
    if |u| > 1 {
      DotLast(u[1..], v[1..]);
      assert u[1..][..|u| - 2] == u[..|u| - 1][1..] && v[1..][..|u| - 2] == v[..|u| - 1][1..];
    } else {
      EmptyDot(u[1..], v[1..]);
    }
  }

  /** A singular matrix has no left inverse. */
  lemma SingularHasNoInverse(m: Matrix, b: Matrix)
    requires Square(m) && Singular(m)
    ensures !ProductIsIdentity(b, m)
  {
    hide Dot;
    var k: nat, t: Vector :| DependentColumn(m, k, t);
    if ProductIsIdentity(b, m) {
      var n, e := |m|, b[k];
      assert Dot(e, Col(m, n, n, k)) == Unit(n, k)[k];
      assert forall c :: 0 <= c < k ==> Dot(e, Col(m, n, n, c)) == Unit(n, k)[c];
      Annihilates(e, m, k, t, Col(m, n, n, k));
    }
  }

  lemma {:induction false} BorderlineRefused(a: Matrix, n: nat, col: nat)
    requires Sized(a, n, 2 * n) && col <= n && Borderline(a, n, col)
    ensures Reduce(a, n, col).None?
    decreases n - col
  {
    hide Step, Pivot;
    if !(Abs(Pivot(a, n, col)) < THRESHOLD) {
      BorderlineRefused(Step(a, n, col), n, col + 1);
    }
  }

  lemma InvertFails(m: Matrix)
    requires Square(m)
    ensures Invert(m).None? <==> Reduce(Augment(m), |m|, 0).None?
  {
  }

  /** Nothing is returned exactly for the singular matrices and those with a borderline pivot. */
  lemma NullExactly(m: Matrix)
    requires Square(m)
    ensures Invert(m).None? <==> Singular(m) || Borderline(Augment(m), |m|, 0)
  {
    hide Reduce, Invert, Singular, Borderline;
    InvertFails(m);
    if Borderline(Augment(m), |m|, 0) {
      BorderlineRefused(Augment(m), |m|, 0);
    } else if Singular(m) {
      SingularGivesNull(m);
    } else if Invert(m).None? {
      StartUndone(m);
      NothingIsSingular(Identity(|m|), Augment(m), m, 0);
    }
  }

  /** No singular matrix gets an answer, borderline or not. */
  lemma SingularGivesNull(m: Matrix)
    requires Square(m) && Singular(m)
    ensures Invert(m).None?
  {
    hide Invert, ProductIsIdentity, Singular;
    if Invert(m).Some? {
      InvertIsInverse(m);
      SingularHasNoInverse(m, Invert(m).value);
    }
  }

  /** An invertible matrix that is refused: its only entry is below the threshold. */
  lemma TinyPivotRefused()
    ensures var m := [[0.0000000000000001]];
            Invert(m).None? && ProductIsIdentity([[10000000000000000.0]], m)
  {
    var m := [[0.0000000000000001]];
    assert Augment(m)[0][0] == m[0][0];
    assert Pivot(Augment(m), 1, 0) == m[0][0];
    var b := [[10000000000000000.0]];
    assert Col(m, 1, 1, 0) == [m[0][0]];
    assert b[0][1..] == [] && Col(m, 1, 1, 0)[1..] == [];
  }

  // ---- The code ----

  /** n distinct rows of 2n entries. */
  ghost predicate Laid(aug: array<array<real>>, n: nat)
    reads aug
  {
    && aug.Length == n
    && (forall i :: 0 <= i < n ==> aug[i].Length == 2 * n)
    && (forall i, j :: 0 <= i < j < n ==> aug[i] != aug[j])
  }

  ghost function Value(aug: array<array<real>>): (a: Matrix)
    reads aug, aug[..]
    ensures |a| == aug.Length && forall i :: 0 <= i < aug.Length ==> a[i] == aug[i][..]
  {
    seq(aug.Length, i requires 0 <= i < aug.Length reads aug, aug[..] => aug[i][..])
  }

  method DivideRow(row: array<real>, pivot: real)
    requires pivot != 0.0
    modifies row
    ensures row[..] == Divide(old(row[..]), pivot)
  {
    var j := 0;
    while j < row.Length
      invariant 0 <= j <= row.Length
      invariant forall k :: 0 <= k < j ==> row[k] == old(row[k]) / pivot
      invariant forall k :: j <= k < row.Length ==> row[k] == old(row[k])
    {
      row[j] := row[j] / pivot;
      j := j + 1;
    }
  }

  method SubtractRow(row: array<real>, factor: real, top: array<real>)
    requires row != top && row.Length == top.Length
    modifies row
    ensures row[..] == SubtractMultiple(old(row[..]), factor, top[..])
  {
    var j := 0;
    while j < row.Length
      invariant 0 <= j <= row.Length
      invariant forall k :: 0 <= k < j ==> row[k] == old(row[k]) - factor * top[k]
      invariant forall k :: j <= k < row.Length ==> row[k] == old(row[k])
    {
      row[j] := row[j] - factor * top[j];
      j := j + 1;
    }
    ghost var w := SubtractMultiple(old(row[..]), factor, top[..]);
    assert forall k :: 0 <= k < row.Length ==> w[k] == old(row[k]) - factor * top[k] == row[k];
  }

  /** The partial pivot search. */
  method FindPivot(aug: array<array<real>>, n: nat, col: nat) returns (maxRow: nat, maxVal: real)
    requires Laid(aug, n) && col < n
    ensures maxRow == PivotRow(Value(aug), n, col, n - 1) && aug[maxRow][col] == Pivot(Value(aug), n, col)
    ensures maxVal == Abs(Pivot(Value(aug), n, col))
  {
    maxRow, maxVal := col, Abs(aug[col][col]);
    var r := col + 1;
    while r < n
      invariant col < r <= n
      invariant maxRow == PivotRow(Value(aug), n, col, r - 1) && maxVal == Abs(aug[maxRow][col])
    {
      if Abs(aug[r][col]) > maxVal {
        maxVal := Abs(aug[r][col]);
        maxRow := r;
      }
      r := r + 1;
    }
  }

  /** Divides the pivot row and subtracts its multiples from all the others. */
  method Eliminate(aug: array<array<real>>, n: nat, col: nat)
    requires Laid(aug, n) && col < n && aug[col][col] != 0.0
    modifies aug[..]
    ensures Laid(aug, n) && Value(aug) == Eliminated(old(Value(aug)), n, col)
  {
    ghost var b := Value(aug);
    var pivot := aug[col][col];
    DivideRow(aug[col], pivot);
    ghost var top := Divide(b[col], pivot);
    var r := 0;
    while r < n
      invariant 0 <= r <= n
      invariant aug[col][..] == top
      invariant forall i :: 0 <= i < r && i != col ==> aug[i][..] == SubtractMultiple(b[i], b[i][col], top)
      invariant forall i :: r <= i < n && i != col ==> aug[i][..] == b[i]
    {
      if r != col {
        SubtractRow(aug[r], aug[r][col], aug[col]);
      }
      r := r + 1;
    }
    assert Value(aug) == Eliminated(b, n, col);
  }

  /** The augmented matrix, one fresh array a row. */
  method BuildAugmented(m: Matrix) returns (aug: array<array<real>>)
    requires Square(m)
    ensures fresh(aug) && fresh(aug[..]) && Laid(aug, |m|) && Value(aug) == Augment(m)
  {
    var n := |m|;
    var blank := new real[0];
    aug := new array<real>[n](_ => blank);
    var i := 0;
    while i < n
      invariant 0 <= i <= n
      invariant forall k :: 0 <= k < n ==> fresh(aug[k])
      invariant forall k :: 0 <= k < i ==> aug[k].Length == 2 * n && aug[k][..] == Augment(m)[k]
      invariant forall k, l :: 0 <= k < l < i ==> aug[k] != aug[l]
    {
      var row := BuildRow(m, i);
      aug[i] := row;
      i := i + 1;
    }
  }

  method BuildRow(m: Matrix, i: nat) returns (row: array<real>)
    requires Square(m) && i < |m|
    ensures fresh(row) && row[..] == Augment(m)[i]
  {
    var n := |m|;
    row := new real[2 * n](_ => 0.0);
    var j := 0;
    while j < n
      invariant 0 <= j <= n
      invariant forall k :: 0 <= k < j ==> row[k] == m[i][k]
      invariant forall k :: j <= k < 2 * n ==> row[k] == 0.0
    {
      row[j] := m[i][j];
      j := j + 1;
    }
    row[n + i] := 1.0;
  }

  /** Swaps two rows by reference, unless the pivot is in place already. */
  method PlacePivot(aug: array<array<real>>, n: nat, col: nat, maxRow: nat)
    requires Laid(aug, n) && col < n && maxRow < n
    modifies aug
    ensures Laid(aug, n) && Value(aug) == Swapped(old(Value(aug)), col, maxRow)
    ensures SameRows(aug, old(aug[..]))
  {
    if maxRow != col {
      aug[col], aug[maxRow] := aug[maxRow], aug[col];
    }
  }

  ghost predicate SameRows(aug: array<array<real>>, rows: seq<array<real>>)
    reads aug
  {
    forall k :: 0 <= k < aug.Length ==> aug[k] in rows
  }

  /** Brings the pivot row up and clears the column with it. */
  method ClearColumn(aug: array<array<real>>, n: nat, col: nat, maxRow: nat)
    requires Laid(aug, n) && col < n && maxRow < n && aug[maxRow][col] != 0.0
    modifies aug, aug[..]
    ensures Laid(aug, n) && SameRows(aug, old(aug[..]))
    ensures Value(aug) == Eliminated(Swapped(old(Value(aug)), col, maxRow), n, col)
  {
    hide Eliminated, Value;
    PlacePivot(aug, n, col, maxRow);
    Eliminate(aug, n, col);
  }

  lemma OwnRows(aug: array<array<real>>)
    ensures SameRows(aug, aug[..])
  {
  }

  /** One round of the elimination; false when every candidate is below the threshold. */
  method ReduceColumn(aug: array<array<real>>, n: nat, col: nat) returns (found: bool)
    requires Laid(aug, n) && col < n
    modifies aug, aug[..]
    ensures Laid(aug, n) && SameRows(aug, old(aug[..]))
    ensures found <==> !(Abs(Pivot(old(Value(aug)), n, col)) < THRESHOLD)
    ensures found ==> Value(aug) == Step(old(Value(aug)), n, col)
  {
    hide Swapped, Eliminated, PivotRow, Value, Laid, SameRows;
    OwnRows(aug);
    var maxRow, maxVal := FindPivot(aug, n, col);
    found := !(maxVal < THRESHOLD);
    if found {
      ClearColumn(aug, n, col, maxRow);
    }
  }

  /** The elimination, column by column; stops early at a column without a pivot. */
  method ReduceInPlace(aug: array<array<real>>, n: nat) returns (complete: bool)
    requires Laid(aug, n)
    modifies aug, aug[..]
    ensures Laid(aug, n)
    ensures Reduce(old(Value(aug)), n, 0) == if complete then Some(Value(aug)) else None
  {
    hide Step, Pivot;
    ghost var rows := aug[..];
    ghost var a := Value(aug);
    var col := 0;
    while col < n
      invariant 0 <= col <= n && Laid(aug, n) && SameRows(aug, rows)
      invariant a == Value(aug) && Reduce(a, n, col) == Reduce(old(Value(aug)), n, 0)
    {
      var found := ReduceColumn(aug, n, col);
      if !found {
        return false;
      }
      a := Value(aug);
      col := col + 1;
    }
    return true;
  }

  /** The columns right of the cleared ones, row by row. */
  method ReadInverse(aug: array<array<real>>, n: nat) returns (inv: Matrix)
    requires Laid(aug, n)
    ensures inv == RightHalf(Value(aug), n)
  {
    inv := [];
    var i := 0;
    while i < n
      invariant 0 <= i <= n && inv == RightHalf(Value(aug), n)[..i]
    {
      var row := [];
      var j := 0;
      while j < n
        invariant 0 <= j <= n && row == aug[i][n..n + j]
      {
        row := row + [aug[i][n + j]];
        j := j + 1;
      }
      assert row == RightHalf(Value(aug), n)[i];
      inv := inv + [row];
      i := i + 1;
    }
  }

  /** Inverts by elimination on the augmented matrix; None is the null result. */
  method InvertMatrix(m: Matrix) returns (inv: Option<Matrix>)
    requires Square(m)
    ensures inv == Invert(m)
    ensures inv.Some? ==> ProductIsIdentity(inv.value, m) && ProductIsIdentity(m, inv.value)
    ensures inv.None? <==> Singular(m) || Borderline(Augment(m), |m|, 0)
  {
    hide Singular, ProductIsIdentity, Borderline, Reduce, Laid;
    var aug := BuildAugmented(m);
    var complete := ReduceInPlace(aug, |m|);
    if !complete {
      inv := None;
    } else {
      var right := ReadInverse(aug, |m|);
      inv := Some(right);
      InvertIsInverse(m);
    }
    NullExactly(m);
  }
}
