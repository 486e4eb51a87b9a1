// inv: Gauss-Jordan elimination on a working copy C of the matrix and on
// an identity matrix I that receives the same row operations. A zero pivot
// is replaced by swapping in the first row below with a non-zero entry in
// that column; when there is none the function returns undefined.
//
// The correctness argument keeps a ghost matrix F that undoes the row
// operations done so far (each row operation on C and I is matched by the
// inverse column operation on F), so that F * C == A and F * I == Id stay
// true; at the end C == Id, hence F == A and A * I == Id. The product
// I * A == C is kept as well, which gives I * A == Id.

module MatlabInverse {
  import opened JsValues
  import opened MatlabMatrix

  // ----- sums, dot products and products of n-by-n matrices -----

  function Sum(p: seq<real>): real
  {
    if p == [] then 0.0 else Sum(p[..|p| - 1]) + p[|p| - 1]
  }

  function Products(u: seq<real>, v: seq<real>): (r: seq<real>)
    requires |u| == |v|
    ensures |r| == |u| && forall k :: 0 <= k < |u| ==> r[k] == u[k] * v[k]
  {
    seq(|u|, k requires 0 <= k < |u| => u[k] * v[k])
  }

  function Dot(u: seq<real>, v: seq<real>): real
    requires |u| == |v|
  {
    Sum(Products(u, v))
  }

  function Column(m: Matrix, n: nat, c: nat): (r: seq<real>)
    requires IsMatrix(m, n, n) && c < n
    ensures |r| == n && forall k :: 0 <= k < n ==> r[k] == m[k][c]
  {
    seq(n, k requires 0 <= k < n => m[k][c])
  }

  function Mul(x: Matrix, y: Matrix, n: nat): (r: Matrix)
    requires IsMatrix(x, n, n) && IsMatrix(y, n, n)
    ensures IsMatrix(r, n, n)
  {
    seq(n, i requires 0 <= i < n => seq(n, j requires 0 <= j < n => Dot(x[i], Column(y, n, j))))
  }

  lemma MulAt(x: Matrix, y: Matrix, n: nat, i: nat, j: nat)
    requires IsMatrix(x, n, n) && IsMatrix(y, n, n) && i < n && j < n
    ensures Mul(x, y, n)[i][j] == Dot(x[i], Column(y, n, j))
  {
  }

  lemma MatrixExtensionality(x: Matrix, y: Matrix, n: nat)
    requires IsMatrix(x, n, n) && IsMatrix(y, n, n)
    requires forall i, j :: 0 <= i < n && 0 <= j < n ==> x[i][j] == y[i][j]
    ensures x == y
  {
    forall i | 0 <= i < n ensures x[i] == y[i] {
    }
  }

  /** Changing the terms at positions a and b changes the sum by the two differences. */
  lemma {:induction false} SumChange(p: seq<real>, q: seq<real>, a: nat, b: nat)
    requires |p| == |q| && a != b
    requires forall k :: 0 <= k < |p| && k != a && k != b ==> p[k] == q[k]
    ensures Sum(q) - Sum(p) ==
      (if a < |p| then q[a] - p[a] else 0.0) + (if b < |p| then q[b] - p[b] else 0.0)
  {
    if p != [] {
      var n := |p| - 1;
      SumChange(p[..n], q[..n], a, b);
    }
  }

  /** A sum whose terms are all zero except the one at c is that term. */
  lemma {:induction false} SumOneTerm(p: seq<real>, c: nat)
    requires c < |p|
    requires forall k :: 0 <= k < |p| && k != c ==> p[k] == 0.0
    ensures Sum(p) == p[c]
  {
    var n := |p| - 1;
    if n == c {
      SumZero(p[..n]);
    } else {
      SumOneTerm(p[..n], c);
    }
  }

  lemma {:induction false} SumZero(p: seq<real>)
    requires forall k :: 0 <= k < |p| ==> p[k] == 0.0
    ensures Sum(p) == 0.0
  {
    if p != [] {
      SumZero(p[..|p| - 1]);
    }
  }

  lemma DivCancel(a: real, b: real, e: real)
    requires e != 0.0
    ensures (a * e) * (b / e) == a * b
  {
  }

  lemma ScaleTerm(a: real, a': real, b: real, e: real, s: real)
    requires e != 0.0 && a' == a / e && s == 1.0 / e
    ensures a' * b == (a * b) * s
  {
  }

  lemma DivIsScale(a: real, e: real)
    requires e != 0.0
    ensures a * (1.0 / e) == a / e
  {
  }

  /** Scaling every term by s scales the sum by s. */
  lemma {:induction false} SumScale(p: seq<real>, q: seq<real>, s: real)
    requires |p| == |q|
    requires forall k :: 0 <= k < |p| ==> q[k] == p[k] * s
    ensures Sum(q) == Sum(p) * s
  {
    if p != [] {
      var n := |p| - 1;
      SumScale(p[..n], q[..n], s);
    }
  }

  /** Termwise p - e * q sums to Sum(p) - e * Sum(q). */
  lemma {:induction false} SumCombine(p: seq<real>, q: seq<real>, r: seq<real>, e: real)
    requires |p| == |q| == |r|
    requires forall k :: 0 <= k < |p| ==> r[k] == p[k] - e * q[k]
    ensures Sum(r) == Sum(p) - e * Sum(q)
  {
    if p != [] {
      var n := |p| - 1;
      var p', q', r' := p[..n], q[..n], r[..n];
      forall k | 0 <= k < n
        ensures r'[k] == p'[k] - e * q'[k]
      {
        assert r'[k] == r[k] && p'[k] == p[k] && q'[k] == q[k];
      }
      SumCombine(p', q', r', e);
      assert Sum(r) == Sum(r') + r[n] && Sum(p) == Sum(p') + p[n] && Sum(q) == Sum(q') + q[n];
      CombineStep(Sum(r'), Sum(p'), Sum(q'), r[n], p[n], q[n], e);
    }
  }

  lemma CombineStep(sr: real, sp: real, sq: real, rn: real, pn: real, qn: real, e: real)
    requires sr == sp - e * sq && rn == pn - e * qn
    ensures sr + rn == (sp + pn) - e * (sq + qn)
  {
  }

  lemma MulIdentityLeft(a: Matrix, n: nat)
    requires IsMatrix(a, n, n)
    ensures Mul(Identity(n), a, n) == a
  {
    var id := Identity(n);
    forall i, j | 0 <= i < n && 0 <= j < n ensures Mul(id, a, n)[i][j] == a[i][j] {
      var p := Products(id[i], Column(a, n, j));
      SumOneTerm(p, i);
    }
    MatrixExtensionality(Mul(id, a, n), a, n);
  }

  lemma MulIdentityRight(a: Matrix, n: nat)
    requires IsMatrix(a, n, n)
    ensures Mul(a, Identity(n), n) == a
  {
    var id := Identity(n);
    forall i, j | 0 <= i < n && 0 <= j < n ensures Mul(a, id, n)[i][j] == a[i][j] {
      var p := Products(a[i], Column(id, n, j));
      SumOneTerm(p, j);
    }
    MatrixExtensionality(Mul(a, id, n), a, n);
  }

  // ----- matrix times vector -----

  function MulVec(x: Matrix, v: seq<real>, n: nat): (r: seq<real>)
    requires IsMatrix(x, n, n) && |v| == n
    ensures |r| == n
  {
    seq(n, i requires 0 <= i < n => Dot(x[i], v))
  }

  function Zeros(n: nat): (r: seq<real>)
    ensures |r| == n
  {
    seq(n, _ => 0.0)
  }

  lemma MulVecZero(x: Matrix, n: nat)
    requires IsMatrix(x, n, n)
    ensures MulVec(x, Zeros(n), n) == Zeros(n)
  {
    forall i | 0 <= i < n ensures MulVec(x, Zeros(n), n)[i] == 0.0 {
      SumZero(Products(x[i], Zeros(n)));
    }
  }

  lemma MulVecIdentity(v: seq<real>, n: nat)
    requires |v| == n
    ensures MulVec(Identity(n), v, n) == v
  {
    forall i | 0 <= i < n ensures MulVec(Identity(n), v, n)[i] == v[i] {
      SumOneTerm(Products(Identity(n)[i], v), i);
    }
  }

  /** A non-zero vector that the matrix sends to zero. */
  ghost predicate IsKernelVector(a: Matrix, n: nat, v: seq<real>)
  {
    SendsToZero(a, v, n) && v != Zeros(n)
  }

  /** A is singular: some non-zero vector is sent to zero, so A has no inverse. */
  ghost predicate Singular(a: Matrix, n: nat)
  {
    exists v :: IsKernelVector(a, n, v)
  }

  /** Only the zero vector is sent to zero. */
  ghost predicate OnlyZeroKernel(a: Matrix, n: nat)
  {
    forall v :: SendsToZero(a, v, n) ==> v == Zeros(n)
  }

  ghost predicate SendsToZero(x: Matrix, v: seq<real>, n: nat)
  {
    IsMatrix(x, n, n) && |v| == n && MulVec(x, v, n) == Zeros(n)
  }

  // ----- the three row operations and the column operations that undo them -----

  /** Rows i and k exchanged. */
  function SwapRows(m: Matrix, n: nat, i: nat, k: nat): (r: Matrix)
    requires IsMatrix(m, n, n) && i < n && k < n
    ensures IsMatrix(r, n, n)
  {
    m[i := m[k]][k := m[i]]
  }

  /** Row i divided by e. */
  function ScaleRow(m: Matrix, n: nat, i: nat, e: real): (r: Matrix)
    requires IsMatrix(m, n, n) && i < n && e != 0.0
    ensures IsMatrix(r, n, n)
  {
    m[i := seq(n, j requires 0 <= j < n => m[i][j] / e)]
  }

  /** Row k minus e times row i. */
  function SubtractRow(m: Matrix, n: nat, k: nat, i: nat, e: real): (r: Matrix)
    requires IsMatrix(m, n, n) && i < n && k < n
    ensures IsMatrix(r, n, n)
  {
    m[k := seq(n, j requires 0 <= j < n => m[k][j] - e * m[i][j])]
  }

  ghost function SwapColumns(f: Matrix, n: nat, i: nat, k: nat): (r: Matrix)
    requires IsMatrix(f, n, n) && i < n && k < n
    ensures IsMatrix(r, n, n)
  {
    seq(n, t requires 0 <= t < n => f[t][i := f[t][k]][k := f[t][i]])
  }

  ghost function ScaleColumn(f: Matrix, n: nat, i: nat, e: real): (r: Matrix)
    requires IsMatrix(f, n, n) && i < n
    ensures IsMatrix(r, n, n)
  {
    seq(n, t requires 0 <= t < n => f[t][i := f[t][i] * e])
  }

  /** Column i plus e times column k. */
  ghost function AddColumn(f: Matrix, n: nat, i: nat, k: nat, e: real): (r: Matrix)
    requires IsMatrix(f, n, n) && i < n && k < n
    ensures IsMatrix(r, n, n)
  {
    seq(n, t requires 0 <= t < n => f[t][i := f[t][i] + e * f[t][k]])
  }

  /** Exchanging columns i, k of f and rows i, k of x leaves f * x unchanged. */
  lemma MulSwap(f: Matrix, x: Matrix, n: nat, i: nat, k: nat)
    requires IsMatrix(f, n, n) && IsMatrix(x, n, n) && i < n && k < n && i != k
    ensures Mul(SwapColumns(f, n, i, k), SwapRows(x, n, i, k), n) == Mul(f, x, n)
  {
    var f', x' := SwapColumns(f, n, i, k), SwapRows(x, n, i, k);
    forall r, c | 0 <= r < n && 0 <= c < n ensures Mul(f', x', n)[r][c] == Mul(f, x, n)[r][c] {
      SwapEntry(f, x, n, i, k, r, c);
    }
    MatrixExtensionality(Mul(f', x', n), Mul(f, x, n), n);
  }

  lemma SwapEntry(f: Matrix, x: Matrix, n: nat, i: nat, k: nat, r: nat, c: nat)
    requires IsMatrix(f, n, n) && IsMatrix(x, n, n) && i < n && k < n && i != k && r < n && c < n
    ensures Dot(SwapColumns(f, n, i, k)[r], Column(SwapRows(x, n, i, k), n, c)) == Dot(f[r], Column(x, n, c))
  {
    var p := Products(f[r], Column(x, n, c));
    var q := Products(SwapColumns(f, n, i, k)[r], Column(SwapRows(x, n, i, k), n, c));
    assert q[i] == p[k] && q[k] == p[i];
    SumChange(p, q, i, k);
  }

  /** Multiplying column i of f by e and dividing row i of x by e leaves f * x unchanged. */
  lemma MulScale(f: Matrix, x: Matrix, n: nat, i: nat, e: real)
    requires IsMatrix(f, n, n) && IsMatrix(x, n, n) && i < n && e != 0.0
    ensures Mul(ScaleColumn(f, n, i, e), ScaleRow(x, n, i, e), n) == Mul(f, x, n)
  {
    var f', x' := ScaleColumn(f, n, i, e), ScaleRow(x, n, i, e);
    forall r, c | 0 <= r < n && 0 <= c < n ensures Mul(f', x', n)[r][c] == Mul(f, x, n)[r][c] {
      var p := Products(f[r], Column(x, n, c));
      var q := Products(f'[r], Column(x', n, c));
      forall t | 0 <= t < n ensures q[t] == p[t] {
        if t == i {
          DivCancel(f[r][i], x[i][c], e);
        }
      }
      assert q == p;
    }
    MatrixExtensionality(Mul(f', x', n), Mul(f, x, n), n);
  }

  /** Adding e times column k to column i of f and subtracting e times row i from row k of x leaves f * x unchanged. */
  lemma MulSubtract(f: Matrix, x: Matrix, n: nat, k: nat, i: nat, e: real)
    requires IsMatrix(f, n, n) && IsMatrix(x, n, n) && i < n && k < n && i != k
    ensures Mul(AddColumn(f, n, i, k, e), SubtractRow(x, n, k, i, e), n) == Mul(f, x, n)
  {
    var f', x' := AddColumn(f, n, i, k, e), SubtractRow(x, n, k, i, e);
    forall r, c | 0 <= r < n && 0 <= c < n ensures Mul(f', x', n)[r][c] == Mul(f, x, n)[r][c] {
      var p := Products(f[r], Column(x, n, c));
      var q := Products(f'[r], Column(x', n, c));
      assert q[i] - p[i] == e * f[r][k] * x[i][c];
      assert q[k] - p[k] == -(e * f[r][k] * x[i][c]);
      SumChange(p, q, i, k);
    }
    MatrixExtensionality(Mul(f', x', n), Mul(f, x, n), n);
  }

  /**
   * I * A == C, stated entry by entry and triggered only by the dot
   * products themselves, so that it does not unfold together with F * C == A.
   */
  ghost predicate LeftProduct(m: Matrix, a: Matrix, c: Matrix, n: nat)
  {
    IsMatrix(m, n, n) && IsMatrix(a, n, n) && IsMatrix(c, n, n)
    && forall r, j {:trigger Dot(m[r], Column(a, n, j))} :: 0 <= r < n && 0 <= j < n ==>
      Dot(m[r], Column(a, n, j)) == c[r][j]
  }

  lemma LeftProductIsMul(m: Matrix, a: Matrix, c: Matrix, n: nat)
    requires LeftProduct(m, a, c, n)
    ensures Mul(m, a, n) == c
  {
    forall r, j | 0 <= r < n && 0 <= j < n ensures Mul(m, a, n)[r][j] == c[r][j] {
      MulAt(m, a, n, r, j);
    }
    MatrixExtensionality(Mul(m, a, n), c, n);
  }

  /** A row operation on I is the same row operation on I * A. */
  lemma LeftSwap(m: Matrix, a: Matrix, c: Matrix, n: nat, i: nat, k: nat)
    requires LeftProduct(m, a, c, n) && i < n && k < n
    ensures LeftProduct(SwapRows(m, n, i, k), a, SwapRows(c, n, i, k), n)
  {
    var m', c' := SwapRows(m, n, i, k), SwapRows(c, n, i, k);
    forall r, j | 0 <= r < n && 0 <= j < n ensures Dot(m'[r], Column(a, n, j)) == c'[r][j] {
      var s := if r == k then i else if r == i then k else r;
      assert m'[r] == m[s] && c'[r] == c[s];
      assert Dot(m[s], Column(a, n, j)) == c[s][j];
    }
  }

  lemma LeftScale(m: Matrix, a: Matrix, c: Matrix, n: nat, i: nat, e: real)
    requires LeftProduct(m, a, c, n) && i < n && e != 0.0
    ensures LeftProduct(ScaleRow(m, n, i, e), a, ScaleRow(c, n, i, e), n)
  {
    var m', c' := ScaleRow(m, n, i, e), ScaleRow(c, n, i, e);
    forall r, j | 0 <= r < n && 0 <= j < n ensures Dot(m'[r], Column(a, n, j)) == c'[r][j] {
      if r == i {
        assert Dot(m[i], Column(a, n, j)) == c[i][j];
        DotScale(m[i], m'[i], Column(a, n, j), e);
      } else {
        assert Dot(m[r], Column(a, n, j)) == c[r][j];
      }
    }
  }

  lemma LeftSubtract(m: Matrix, a: Matrix, c: Matrix, n: nat, k: nat, i: nat, e: real)
    requires LeftProduct(m, a, c, n) && i < n && k < n && i != k
    ensures LeftProduct(SubtractRow(m, n, k, i, e), a, SubtractRow(c, n, k, i, e), n)
  {
    var m', c' := SubtractRow(m, n, k, i, e), SubtractRow(c, n, k, i, e);
    forall r, j | 0 <= r < n && 0 <= j < n ensures Dot(m'[r], Column(a, n, j)) == c'[r][j] {
      if r == k {
        assert Dot(m[k], Column(a, n, j)) == c[k][j];
        assert Dot(m[i], Column(a, n, j)) == c[i][j];
        DotCombine(m[k], m[i], m'[k], Column(a, n, j), e);
      } else {
        assert Dot(m[r], Column(a, n, j)) == c[r][j];
      }
    }
  }

  /** Dividing the first vector by e divides the dot product by e. */
  lemma DotScale(u: seq<real>, u': seq<real>, v: seq<real>, e: real)
    requires |u| == |u'| == |v| && e != 0.0
    requires forall t :: 0 <= t < |u| ==> u'[t] == u[t] / e
    ensures Dot(u', v) == Dot(u, v) / e
  {
    var p, q := Products(u, v), Products(u', v);
    var s := 1.0 / e;
    forall t | 0 <= t < |u| ensures q[t] == p[t] * s {
      ScaleTerm(u[t], u'[t], v[t], e, s);
    }
    SumScale(p, q, s);
    DivIsScale(Sum(p), e);
  }

  // ----- the elimination invariant -----

  /**
   * F undoes the row operations: F * C == A and F * I == Id; I * A == C;
   * and C sends the same vectors to zero as A.
   */
  ghost predicate Tracks(a: Matrix, c: Matrix, i: Matrix, f: Matrix, n: nat)
  {
    IsMatrix(a, n, n) && IsMatrix(c, n, n) && IsMatrix(i, n, n) && IsMatrix(f, n, n)
    && Mul(f, c, n) == a && Mul(f, i, n) == Identity(n) && LeftProduct(i, a, c, n)
    && SameKernel(a, c, n)
  }

  ghost predicate SameKernel(a: Matrix, c: Matrix, n: nat)
  {
    forall v {:trigger SendsToZero(c, v, n)} {:trigger SendsToZero(a, v, n)} :: |v| == n ==> (SendsToZero(c, v, n) <==> SendsToZero(a, v, n))
  }


  /** Every entry of w is zero, stated entry by entry. */
  lemma ZerosAt(w: seq<real>, n: nat)
    requires |w| == n
    ensures w == Zeros(n) <==> forall r :: 0 <= r < n ==> w[r] == 0.0
  {
  }

  /** Exchanging two rows permutes the entries of C * v, so the same vectors go to zero. */
  lemma KernelAfterSwap(c: Matrix, n: nat, i: nat, k: nat, v: seq<real>)
    requires IsMatrix(c, n, n) && i < n && k < n && |v| == n
    ensures MulVec(SwapRows(c, n, i, k), v, n) == Zeros(n) <==> MulVec(c, v, n) == Zeros(n)
  {
    var w, w' := MulVec(c, v, n), MulVec(SwapRows(c, n, i, k), v, n);
    assert w'[i] == w[k] && w'[k] == w[i];
    assert forall r :: 0 <= r < n && r != i && r != k ==> w'[r] == w[r];
    ZerosAt(w, n);
    ZerosAt(w', n);
  }

  /** Dividing a row by e != 0 divides that entry of C * v by e. */
  lemma KernelAfterScale(c: Matrix, n: nat, i: nat, e: real, v: seq<real>)
    requires IsMatrix(c, n, n) && i < n && e != 0.0 && |v| == n
    ensures MulVec(ScaleRow(c, n, i, e), v, n) == Zeros(n) <==> MulVec(c, v, n) == Zeros(n)
  {
    var w, w' := MulVec(c, v, n), MulVec(ScaleRow(c, n, i, e), v, n);
    DotScale(c[i], ScaleRow(c, n, i, e)[i], v, e);
    DivZero(w[i], w'[i], e);
    assert forall r :: 0 <= r < n && r != i ==> w'[r] == w[r];
    ZerosAt(w, n);
    ZerosAt(w', n);
  }

  lemma DivZero(x: real, y: real, e: real)
    requires e != 0.0 && y == x / e
    ensures y == 0.0 <==> x == 0.0
  {
  }

  /** Subtracting e times row i from row k makes entry k of C * v w[k] - e * w[i]. */
  lemma KernelAfterSubtract(c: Matrix, n: nat, k: nat, i: nat, e: real, v: seq<real>)
    requires IsMatrix(c, n, n) && i < n && k < n && i != k && |v| == n
    ensures MulVec(SubtractRow(c, n, k, i, e), v, n) == Zeros(n) <==> MulVec(c, v, n) == Zeros(n)
  {
    var w, w' := MulVec(c, v, n), MulVec(SubtractRow(c, n, k, i, e), v, n);
    DotCombine(c[k], c[i], SubtractRow(c, n, k, i, e)[k], v, e);
    SubtractZero(w[k], w[i], w'[k], e);
    assert forall r :: 0 <= r < n && r != k ==> w'[r] == w[r];
    ZerosAt(w, n);
    ZerosAt(w', n);
  }

  lemma SubtractZero(x: real, y: real, z: real, e: real)
    requires z == x - e * y
    ensures (z == 0.0 && y == 0.0) <==> (x == 0.0 && y == 0.0)
  {
  }

  /** Termwise p - e * q dotted with v gives Dot(p, v) - e * Dot(q, v). */
  lemma DotCombine(p: seq<real>, q: seq<real>, r: seq<real>, v: seq<real>, e: real)
    requires |p| == |q| == |r| == |v|
    requires forall t :: 0 <= t < |p| ==> r[t] == p[t] - e * q[t]
    ensures Dot(r, v) == Dot(p, v) - e * Dot(q, v)
  {
    ProductsCombine(p, q, r, v, e);
    SumCombine(Products(p, v), Products(q, v), Products(r, v), e);
  }

  lemma ProductsCombine(p: seq<real>, q: seq<real>, r: seq<real>, v: seq<real>, e: real)
    requires |p| == |q| == |r| == |v|
    requires forall t :: 0 <= t < |p| ==> r[t] == p[t] - e * q[t]
    ensures forall t :: 0 <= t < |p| ==> Products(r, v)[t] == Products(p, v)[t] - e * Products(q, v)[t]
  {
    var pv, qv, rv := Products(p, v), Products(q, v), Products(r, v);
    forall t | 0 <= t < |p| ensures rv[t] == pv[t] - e * qv[t] {
      CombineTerm(p[t], q[t], r[t], v[t], e, pv[t], qv[t], rv[t]);
    }
  }

  lemma CombineTerm(a: real, b: real, c: real, x: real, e: real, ax: real, bx: real, cx: real)
    requires c == a - e * b && ax == a * x && bx == b * x && cx == c * x
    ensures cx == ax - e * bx
  {
  }

  /** The first k columns of C are columns of the identity. */
  ghost predicate UnitColumns(c: Matrix, n: nat, k: nat)
  {
    IsMatrix(c, n, n) && k <= n && forall r, t :: 0 <= r < n && 0 <= t < k ==> c[r][t] == if r == t then 1.0 else 0.0
  }

  lemma TracksStart(a: Matrix, n: nat)
    requires IsMatrix(a, n, n)
    ensures Tracks(a, a, Identity(n), Identity(n), n)
  {
    MulIdentityLeft(a, n);
    MulIdentityLeft(Identity(n), n);
    forall r, j | 0 <= r < n && 0 <= j < n ensures Dot(Identity(n)[r], Column(a, n, j)) == a[r][j] {
      MulAt(Identity(n), a, n, r, j);
    }
  }

  lemma TracksSwap(a: Matrix, c: Matrix, m: Matrix, f: Matrix, n: nat, i: nat, k: nat)
    requires Tracks(a, c, m, f, n) && i < n && k < n && i != k
    ensures Tracks(a, SwapRows(c, n, i, k), SwapRows(m, n, i, k), SwapColumns(f, n, i, k), n)
  {
    MulSwap(f, c, n, i, k);
    MulSwap(f, m, n, i, k);
    LeftSwap(m, a, c, n, i, k);
    SameKernelSwap(a, c, n, i, k);
  }

  lemma TracksScale(a: Matrix, c: Matrix, m: Matrix, f: Matrix, n: nat, i: nat, e: real)
    requires Tracks(a, c, m, f, n) && i < n && e != 0.0
    ensures Tracks(a, ScaleRow(c, n, i, e), ScaleRow(m, n, i, e), ScaleColumn(f, n, i, e), n)
  {
    MulScale(f, c, n, i, e);
    MulScale(f, m, n, i, e);
    LeftScale(m, a, c, n, i, e);
    SameKernelScale(a, c, n, i, e);
  }

  lemma TracksSubtract(a: Matrix, c: Matrix, m: Matrix, f: Matrix, n: nat, k: nat, i: nat, e: real)
    requires Tracks(a, c, m, f, n) && i < n && k < n && i != k
    ensures Tracks(a, SubtractRow(c, n, k, i, e), SubtractRow(m, n, k, i, e), AddColumn(f, n, i, k, e), n)
  {
    MulSubtract(f, c, n, k, i, e);
    MulSubtract(f, m, n, k, i, e);
    LeftSubtract(m, a, c, n, k, i, e);
    SameKernelSubtract(a, c, n, k, i, e);
  }

  lemma SameKernelSwap(a: Matrix, c: Matrix, n: nat, i: nat, k: nat)
    requires IsMatrix(a, n, n) && IsMatrix(c, n, n) && i < n && k < n && SameKernel(a, c, n)
    ensures SameKernel(a, SwapRows(c, n, i, k), n)
  {
    forall v | |v| == n ensures SendsToZero(SwapRows(c, n, i, k), v, n) <==> SendsToZero(c, v, n) {
      KernelAfterSwap(c, n, i, k, v);
    }
  }

  lemma SameKernelScale(a: Matrix, c: Matrix, n: nat, i: nat, e: real)
    requires IsMatrix(a, n, n) && IsMatrix(c, n, n) && i < n && e != 0.0 && SameKernel(a, c, n)
    ensures SameKernel(a, ScaleRow(c, n, i, e), n)
  {
    forall v | |v| == n ensures SendsToZero(ScaleRow(c, n, i, e), v, n) <==> SendsToZero(c, v, n) {
      KernelAfterScale(c, n, i, e, v);
    }
  }

  lemma SameKernelSubtract(a: Matrix, c: Matrix, n: nat, k: nat, i: nat, e: real)
    requires IsMatrix(a, n, n) && IsMatrix(c, n, n) && i < n && k < n && i != k && SameKernel(a, c, n)
    ensures SameKernel(a, SubtractRow(c, n, k, i, e), n)
  {
    forall v | |v| == n ensures SendsToZero(SubtractRow(c, n, k, i, e), v, n) <==> SendsToZero(c, v, n) {
      KernelAfterSubtract(c, n, k, i, e, v);
    }
  }

  /** Once C is the identity, I is a two-sided inverse of A, and only 0 goes to 0. */
  lemma TracksEnd(a: Matrix, c: Matrix, m: Matrix, f: Matrix, n: nat)
    requires Tracks(a, c, m, f, n) && UnitColumns(c, n, n)
    ensures Mul(a, m, n) == Identity(n) && Mul(m, a, n) == Identity(n)
    ensures OnlyZeroKernel(a, n)
  {
    MatrixExtensionality(c, Identity(n), n);
    MulIdentityRight(f, n);
    LeftProductIsMul(m, a, c, n);
    forall v | SendsToZero(a, v, n) ensures v == Zeros(n) {
      MulVecIdentity(v, n);
    }
  }

  /** Exchanging row i with a row below it keeps the first i columns unit. */
  lemma UnitAfterSwap(c: Matrix, n: nat, i: nat, k: nat)
    requires IsMatrix(c, n, n) && i < k < n && UnitColumns(c, n, i)
    ensures UnitColumns(SwapRows(c, n, i, k), n, i)
    ensures SwapRows(c, n, i, k)[i][i] == c[k][i]
  {
  }

  /** Dividing row i by its pivot keeps the first i columns unit and puts 1 on the diagonal. */
  lemma UnitAfterScale(c: Matrix, n: nat, i: nat)
    requires IsMatrix(c, n, n) && i < n && UnitColumns(c, n, i) && c[i][i] != 0.0
    ensures UnitColumns(ScaleRow(c, n, i, c[i][i]), n, i)
    ensures ScaleRow(c, n, i, c[i][i])[i][i] == 1.0
  {
    var d := ScaleRow(c, n, i, c[i][i]);
    forall t | 0 <= t < i ensures d[i][t] == 0.0 {
      assert d[i][t] == c[i][t] / c[i][i];
    }
  }

  /** Clearing entry (k, i) against a unit pivot row keeps the first i columns unit and changes only row k. */
  lemma UnitAfterSubtract(c: Matrix, n: nat, i: nat, k: nat)
    requires IsMatrix(c, n, n) && i < n && k < n && k != i
    requires UnitColumns(c, n, i) && c[i][i] == 1.0
    ensures UnitColumns(SubtractRow(c, n, k, i, c[k][i]), n, i)
    ensures SubtractRow(c, n, k, i, c[k][i])[k][i] == 0.0
    ensures forall r :: 0 <= r < n && r != k ==> SubtractRow(c, n, k, i, c[k][i])[r] == c[r]
  {
    var d := SubtractRow(c, n, k, i, c[k][i]);
    forall t | 0 <= t < i ensures d[k][t] == c[k][t] {
      assert d[k][t] == c[k][t] - c[k][i] * c[i][t];
    }
  }

  /**
   * When column i of C is zero from row i down, column i is a combination
   * of the unit columns before it, so A is singular.
   */
  lemma StuckIsSingular(a: Matrix, c: Matrix, m: Matrix, f: Matrix, n: nat, i: nat)
    requires Tracks(a, c, m, f, n) && i < n && UnitColumns(c, n, i)
    requires forall r :: i <= r < n ==> c[r][i] == 0.0
    ensures Singular(a, n)
  {
    var v := StuckKernel(c, n, i);
    StuckKernelOfC(c, n, i);
    assert SendsToZero(c, v, n);
    assert v[i] != Zeros(n)[i];
    assert IsKernelVector(a, n, v);
  }

  /** Column i minus the unit columns before it, weighted by column i's entries. */
  function StuckKernel(c: Matrix, n: nat, i: nat): (v: seq<real>)
    requires IsMatrix(c, n, n) && i < n
    ensures |v| == n && forall t :: 0 <= t < n ==> v[t] == if t < i then c[t][i] else if t == i then -1.0 else 0.0
  {
    seq(n, t requires 0 <= t < n => if t < i then c[t][i] else if t == i then -1.0 else 0.0)
  }

  lemma StuckKernelOfC(c: Matrix, n: nat, i: nat)
    requires IsMatrix(c, n, n) && i < n && UnitColumns(c, n, i)
    requires forall r :: i <= r < n ==> c[r][i] == 0.0
    ensures MulVec(c, StuckKernel(c, n, i), n) == Zeros(n)
  {
    forall r | 0 <= r < n ensures MulVec(c, StuckKernel(c, n, i), n)[r] == 0.0 {
      StuckRow(c, n, i, r);
    }
  }

  lemma StuckRow(c: Matrix, n: nat, i: nat, r: nat)
    requires IsMatrix(c, n, n) && i < n && r < n && UnitColumns(c, n, i)
    requires forall r :: i <= r < n ==> c[r][i] == 0.0
    ensures Dot(c[r], StuckKernel(c, n, i)) == 0.0
  {
    var v := StuckKernel(c, n, i);
    var p := Products(c[r], v);
    if r < i {
      forall t | 0 <= t < n && t != r && t != i ensures p[t] == Zeros(n)[t] {
      }
      SumChange(Zeros(n), p, r, i);
      SumZero(Zeros(n));
    } else {
      forall t | 0 <= t < n ensures p[t] == 0.0 {
      }
      SumZero(p);
    }
  }

  // ----- inv as functions: C and I after each stage -----

  /** The working copy C of the matrix and the matrix I that becomes its inverse. */
  datatype Work = Work(c: Matrix, m: Matrix)

  predicate WorkOk(w: Work, n: nat)
  {
    IsMatrix(w.c, n, n) && IsMatrix(w.m, n, n)
  }

  /** The first row r >= k with C[r][i] != 0, or n when there is none. */
  function PivotSearch(c: Matrix, n: nat, i: nat, k: nat): (r: nat)
    requires IsMatrix(c, n, n) && i < n && k <= n
    ensures k <= r <= n
    ensures forall t :: k <= t < r ==> c[t][i] == 0.0
    ensures r < n ==> c[r][i] != 0.0
    decreases n - k
  {
    if k == n || c[k][i] != 0.0 then k else PivotSearch(c, n, i, k + 1)
  }

  /** A zero pivot C[i][i] is replaced by swapping in the first row below it with a non-zero entry in column i, if there is one. */
  function Pivoted(w: Work, n: nat, i: nat): (r: Work)
    requires WorkOk(w, n) && i < n
    ensures WorkOk(r, n)
  {
    if w.c[i][i] != 0.0 then w
    else
      var k := PivotSearch(w.c, n, i, i + 1);
      if k < n then Work(SwapRows(w.c, n, i, k), SwapRows(w.m, n, i, k)) else w
  }

  /** Row i of C and of I divided by the pivot C[i][i]. */
  function Normalized(w: Work, n: nat, i: nat): (r: Work)
    requires WorkOk(w, n) && i < n && w.c[i][i] != 0.0
    ensures WorkOk(r, n)
  {
    Work(ScaleRow(w.c, n, i, w.c[i][i]), ScaleRow(w.m, n, i, w.c[i][i]))
  }

  /** Rows 0 .. k-1 other than i, in order, each minus its entry in column i times row i. */
  function Cleared(w: Work, n: nat, i: nat, k: nat): (r: Work)
    requires WorkOk(w, n) && i < n && k <= n
    ensures WorkOk(r, n)
    decreases k
  {
    if k == 0 then w
    else
      var q := Cleared(w, n, i, k - 1);
      if k - 1 == i then q else ClearRow(q, n, i, k - 1)
  }

  /** Row k of C and of I minus C[k][i] times row i. */
  function ClearRow(w: Work, n: nat, i: nat, k: nat): (r: Work)
    requires WorkOk(w, n) && i < n && k < n
    ensures WorkOk(r, n)
  {
    Work(SubtractRow(w.c, n, k, i, w.c[k][i]), SubtractRow(w.m, n, k, i, w.c[k][i]))
  }

  /** One pass of the outer loop, for column i; None when there is no usable pivot. */
  function Eliminated(w: Work, n: nat, i: nat): (r: Option<Work>)
    requires WorkOk(w, n) && i < n
    ensures r.Some? ==> WorkOk(r.value, n)
  {
    var p := Pivoted(w, n, i);
    if p.c[i][i] == 0.0 then None else Some(Cleared(Normalized(p, n, i), n, i, n))
  }

  /** The passes for columns i .. n-1; the result is I, or None when a pass gives up. */
  function GaussJordan(w: Work, n: nat, i: nat): Option<Matrix>
    requires WorkOk(w, n) && i <= n
    decreases n - i
  {
    if i == n then Some(w.m)
    else match Eliminated(w, n, i)
      case None => None
      case Some(q) => GaussJordan(q, n, i + 1)
  }

  predicate Rectangular(a: Matrix)
  {
    forall i :: 0 <= i < |a| ==> |a[i]| == |a[0]|
  }

  /** `inv(matrix)`: a TypeError for the empty matrix, undefined when it is not square, else the elimination. */
  function InvSpec(a: Matrix): Outcome<Option<Matrix>>
    requires Rectangular(a)
  {
    if |a| == 0 then Err(TypeError)
    else if |a[0]| != |a| then Ok(None)
    else Ok(GaussJordan(Work(a, Identity(|a|)), |a|, 0))
  }

  // ----- what the stages keep -----

  /** Some F undoes the row operations done so far. */
  ghost predicate Reachable(a: Matrix, w: Work, n: nat)
  {
    exists f :: Tracks(a, w.c, w.m, f, n)
  }

  lemma PivotedKeeps(a: Matrix, w: Work, n: nat, i: nat)
    requires WorkOk(w, n) && i < n && Reachable(a, w, n) && UnitColumns(w.c, n, i)
    ensures Reachable(a, Pivoted(w, n, i), n) && UnitColumns(Pivoted(w, n, i).c, n, i)
    ensures Pivoted(w, n, i).c[i][i] == 0.0 ==> forall r :: i <= r < n ==> Pivoted(w, n, i).c[r][i] == 0.0
  {
    if w.c[i][i] == 0.0 {
      var k := PivotSearch(w.c, n, i, i + 1);
      if k < n {
        var f :| Tracks(a, w.c, w.m, f, n);
        TracksSwap(a, w.c, w.m, f, n, i, k);
        UnitAfterSwap(w.c, n, i, k);
        assert Tracks(a, Pivoted(w, n, i).c, Pivoted(w, n, i).m, SwapColumns(f, n, i, k), n);
      }
    }
  }

  lemma NormalizedKeeps(a: Matrix, w: Work, n: nat, i: nat)
    requires WorkOk(w, n) && i < n && w.c[i][i] != 0.0 && Reachable(a, w, n) && UnitColumns(w.c, n, i)
    ensures Reachable(a, Normalized(w, n, i), n) && UnitColumns(Normalized(w, n, i).c, n, i)
    ensures Normalized(w, n, i).c[i][i] == 1.0
  {
    var e := w.c[i][i];
    var f :| Tracks(a, w.c, w.m, f, n);
    TracksScale(a, w.c, w.m, f, n, i, e);
    UnitAfterScale(w.c, n, i);
    assert Tracks(a, Normalized(w, n, i).c, Normalized(w, n, i).m, ScaleColumn(f, n, i, e), n);
  }

  lemma {:induction false} ClearedKeeps(a: Matrix, w: Work, n: nat, i: nat, k: nat)
    requires WorkOk(w, n) && i < n && k <= n && Reachable(a, w, n)
    requires UnitColumns(w.c, n, i) && w.c[i][i] == 1.0
    ensures Reachable(a, Cleared(w, n, i, k), n) && UnitColumns(Cleared(w, n, i, k).c, n, i)
    ensures Cleared(w, n, i, k).c[i][i] == 1.0
    ensures forall r :: 0 <= r < k && r != i ==> Cleared(w, n, i, k).c[r][i] == 0.0
    decreases k
  {
    if k > 0 {
      ClearedKeeps(a, w, n, i, k - 1);
      if k - 1 != i {
        ClearRowKeeps(a, Cleared(w, n, i, k - 1), n, i, k - 1);
      }
    }
  }

  lemma ClearRowKeeps(a: Matrix, w: Work, n: nat, i: nat, k: nat)
    requires WorkOk(w, n) && i < n && k < n && k != i && Reachable(a, w, n)
    requires UnitColumns(w.c, n, i) && w.c[i][i] == 1.0
    ensures Reachable(a, ClearRow(w, n, i, k), n) && UnitColumns(ClearRow(w, n, i, k).c, n, i)
    ensures ClearRow(w, n, i, k).c[k][i] == 0.0
    ensures forall r :: 0 <= r < n && r != k ==> ClearRow(w, n, i, k).c[r] == w.c[r]
  {
    var e := w.c[k][i];
    var f :| Tracks(a, w.c, w.m, f, n);
    TracksSubtract(a, w.c, w.m, f, n, k, i, e);
    UnitAfterSubtract(w.c, n, i, k);
    assert Tracks(a, ClearRow(w, n, i, k).c, ClearRow(w, n, i, k).m, AddColumn(f, n, i, k, e), n);
  }

  lemma EliminatedKeeps(a: Matrix, w: Work, n: nat, i: nat)
    requires WorkOk(w, n) && i < n && Reachable(a, w, n) && UnitColumns(w.c, n, i)
    ensures Eliminated(w, n, i).Some? ==>
      Reachable(a, Eliminated(w, n, i).value, n) && UnitColumns(Eliminated(w, n, i).value.c, n, i + 1)
    ensures Eliminated(w, n, i).None? ==> Singular(a, n)
  {
    PivotedKeeps(a, w, n, i);
    var p := Pivoted(w, n, i);
    if p.c[i][i] == 0.0 {
      var f :| Tracks(a, p.c, p.m, f, n);
      StuckIsSingular(a, p.c, p.m, f, n, i);
    } else {
      NormalizedKeeps(a, p, n, i);
      ClearedKeeps(a, Normalized(p, n, i), n, i, n);
    }
  }

  /** r is a two-sided inverse of a. */
  ghost predicate IsInverse(a: Matrix, r: Matrix, n: nat)
  {
    IsMatrix(a, n, n) && IsMatrix(r, n, n) && Mul(a, r, n) == Identity(n) && Mul(r, a, n) == Identity(n)
  }

  lemma GaussJordanEnd(a: Matrix, w: Work, n: nat)
    requires WorkOk(w, n) && Reachable(a, w, n) && UnitColumns(w.c, n, n)
    ensures IsInverse(a, w.m, n) && OnlyZeroKernel(a, n)
  {
    var f :| Tracks(a, w.c, w.m, f, n);
    TracksEnd(a, w.c, w.m, f, n);
  }

  /** When every pass finds a pivot, the result is a two-sided inverse. */
  lemma {:induction false} GaussJordanInverse(a: Matrix, w: Work, n: nat, i: nat)
    requires WorkOk(w, n) && i <= n && Reachable(a, w, n) && UnitColumns(w.c, n, i)
    ensures GaussJordan(w, n, i).Some? ==> IsInverse(a, GaussJordan(w, n, i).value, n) && OnlyZeroKernel(a, n)
    decreases n - i
  {
    if i == n {
      GaussJordanEnd(a, w, n);
    } else if Eliminated(w, n, i).Some? {
      EliminatedKeeps(a, w, n, i);
      var q := Eliminated(w, n, i).value;
      assert GaussJordan(w, n, i) == GaussJordan(q, n, i + 1);
      GaussJordanInverse(a, q, n, i + 1);
    }
  }

  /** When a pass finds no pivot, the matrix is singular. */
  lemma {:induction false} GaussJordanSingular(a: Matrix, w: Work, n: nat, i: nat)
    requires WorkOk(w, n) && i <= n && Reachable(a, w, n) && UnitColumns(w.c, n, i)
    ensures GaussJordan(w, n, i).None? ==> Singular(a, n)
    decreases n - i
  {
    if i < n {
      EliminatedKeeps(a, w, n, i);
      if Eliminated(w, n, i).Some? {
        var q := Eliminated(w, n, i).value;
        assert GaussJordan(w, n, i) == GaussJordan(q, n, i + 1);
        GaussJordanSingular(a, q, n, i + 1);
      }
    }
  }

  /**
   * inv throws exactly for the empty matrix and is undefined for a
   * non-square one; for a square matrix it returns a two-sided inverse, or
   * undefined exactly when the matrix is singular.
   */
  lemma InvSpecCorrect(a: Matrix)
    requires Rectangular(a)
    ensures InvSpec(a).Err? <==> |a| == 0
    ensures InvSpec(a).Err? ==> InvSpec(a).error == TypeError
    ensures |a| > 0 && |a[0]| != |a| ==> InvSpec(a) == Ok(None)
    ensures InvSpec(a).Ok? && InvSpec(a).value.Some? ==>
      var r := InvSpec(a).value.value;
      IsSquare(a) && IsMatrix(r, |a|, |a|)
      && Mul(a, r, |a|) == Identity(|a|) && Mul(r, a, |a|) == Identity(|a|)
    ensures |a| > 0 && IsSquare(a) ==> (InvSpec(a) == Ok(None) <==> Singular(a, |a|))
  {
    if |a| > 0 && |a[0]| == |a| {
      var n := |a|;
      TracksStart(a, n);
      GaussJordanInverse(a, Work(a, Identity(n)), n, 0);
      GaussJordanSingular(a, Work(a, Identity(n)), n, 0);
    }
  }

  // ----- the loops of inv -----

  /** The pivot search: the first row below i with a non-zero entry in column i, or n. */
  method FindPivot(c: Matrix, n: nat, i: nat) returns (k: nat)
    requires IsMatrix(c, n, n) && i < n
    ensures k == PivotSearch(c, n, i, i + 1)
  {
    k := i + 1;
    while k < n && c[k][i] == 0.0
      invariant i < k <= n
      invariant PivotSearch(c, n, i, k) == PivotSearch(c, n, i, i + 1)
    {
      k := k + 1;
    }
  }

  /** Exchanges rows i and k of C and of I entry by entry. */
  method SwapRowsOf(c: Matrix, m: Matrix, n: nat, i: nat, k: nat) returns (c': Matrix, m': Matrix)
    requires IsMatrix(c, n, n) && IsMatrix(m, n, n) && i < n && k < n && i != k
    ensures c' == SwapRows(c, n, i, k) && m' == SwapRows(m, n, i, k)
  {
    c', m' := c, m;
    var j := 0;
    while j < n
      invariant 0 <= j <= n
      invariant IsMatrix(c', n, n) && IsMatrix(m', n, n)
      invariant forall r :: 0 <= r < n && r != i && r != k ==> c'[r] == c[r] && m'[r] == m[r]
      invariant forall t :: 0 <= t < n ==> c'[i][t] == (if t < j then c[k][t] else c[i][t])
      invariant forall t :: 0 <= t < n ==> c'[k][t] == (if t < j then c[i][t] else c[k][t])
      invariant forall t :: 0 <= t < n ==> m'[i][t] == (if t < j then m[k][t] else m[i][t])
      invariant forall t :: 0 <= t < n ==> m'[k][t] == (if t < j then m[i][t] else m[k][t])
    {
      var e := c'[i][j];
      c' := c'[i := c'[i][j := c'[k][j]]];
      c' := c'[k := c'[k][j := e]];
      e := m'[i][j];
      m' := m'[i := m'[i][j := m'[k][j]]];
      m' := m'[k := m'[k][j := e]];
      j := j + 1;
    }
    MatrixExtensionality(c', SwapRows(c, n, i, k), n);
    MatrixExtensionality(m', SwapRows(m, n, i, k), n);
  }

  /** Divides row i of C and of I by the pivot e. */
  method ScaleRowOf(c: Matrix, m: Matrix, n: nat, i: nat, e: real) returns (c': Matrix, m': Matrix)
    requires IsMatrix(c, n, n) && IsMatrix(m, n, n) && i < n && e != 0.0
    ensures c' == ScaleRow(c, n, i, e) && m' == ScaleRow(m, n, i, e)
  {
    c', m' := c, m;
    var j := 0;
    while j < n
      invariant 0 <= j <= n
      invariant IsMatrix(c', n, n) && IsMatrix(m', n, n)
      invariant forall r :: 0 <= r < n && r != i ==> c'[r] == c[r] && m'[r] == m[r]
      invariant forall t :: 0 <= t < n ==> c'[i][t] == (if t < j then c[i][t] / e else c[i][t])
      invariant forall t :: 0 <= t < n ==> m'[i][t] == (if t < j then m[i][t] / e else m[i][t])
    {
      c' := c'[i := c'[i][j := c'[i][j] / e]];
      m' := m'[i := m'[i][j := m'[i][j] / e]];
      j := j + 1;
    }
    MatrixExtensionality(c', ScaleRow(c, n, i, e), n);
    MatrixExtensionality(m', ScaleRow(m, n, i, e), n);
  }

  /** Subtracts e times row i from row k, in C and in I. */
  method SubtractRowOf(c: Matrix, m: Matrix, n: nat, k: nat, i: nat, e: real) returns (c': Matrix, m': Matrix)
    requires IsMatrix(c, n, n) && IsMatrix(m, n, n) && i < n && k < n && i != k
    ensures c' == SubtractRow(c, n, k, i, e) && m' == SubtractRow(m, n, k, i, e)
  {
    c', m' := c, m;
    var j := 0;
    while j < n
      invariant 0 <= j <= n
      invariant IsMatrix(c', n, n) && IsMatrix(m', n, n)
      invariant forall r :: 0 <= r < n && r != k ==> c'[r] == c[r] && m'[r] == m[r]
      invariant forall t :: 0 <= t < n ==> c'[k][t] == (if t < j then c[k][t] - e * c[i][t] else c[k][t])
      invariant forall t :: 0 <= t < n ==> m'[k][t] == (if t < j then m[k][t] - e * m[i][t] else m[k][t])
    {
      c' := c'[k := c'[k][j := c'[k][j] - e * c'[i][j]]];
      m' := m'[k := m'[k][j := m'[k][j] - e * m'[i][j]]];
      j := j + 1;
    }
    MatrixExtensionality(c', SubtractRow(c, n, k, i, e), n);
    MatrixExtensionality(m', SubtractRow(m, n, k, i, e), n);
  }

  /** Clears column i in every row but i. */
  method EliminateColumn(c: Matrix, m: Matrix, n: nat, i: nat) returns (c': Matrix, m': Matrix)
    requires WorkOk(Work(c, m), n) && i < n
    ensures Work(c', m') == Cleared(Work(c, m), n, i, n)
  {
    c', m' := c, m;
    var k := 0;
    while k < n
      invariant 0 <= k <= n
      invariant Work(c', m') == Cleared(Work(c, m), n, i, k)
    {
      if k != i {
        var e := c'[k][i];
        c', m' := SubtractRowOf(c', m', n, k, i, e);
      }
      k := k + 1;
    }
  }

  /**
   * One pass of the outer loop of inv: find a non-zero pivot for column i
   * (swapping rows if C[i][i] is 0), divide its row by it, and clear the
   * rest of the column. Reports false when there is no usable pivot.
   */
  method ProcessColumn(c: Matrix, m: Matrix, n: nat, i: nat) returns (found: bool, c': Matrix, m': Matrix)
    requires WorkOk(Work(c, m), n) && i < n
    ensures found <==> Eliminated(Work(c, m), n, i).Some?
    ensures found ==> Eliminated(Work(c, m), n, i) == Some(Work(c', m'))
  {
    c', m' := c, m;
    var e := c'[i][i];
    if e == 0.0 {
      var k := FindPivot(c', n, i);
      if k < n {
        c', m' := SwapRowsOf(c', m', n, i, k);
      }
      e := c'[i][i];
      if e == 0.0 {
        return false, c', m';
      }
    }
    assert Work(c', m') == Pivoted(Work(c, m), n, i);
    c', m' := ScaleRowOf(c', m', n, i, e);
    c', m' := EliminateColumn(c', m', n, i);
    found := true;
  }

  /**
   * `inv(matrix)`: throws when the matrix is empty (row 0 is read), returns
   * undefined (`None`) for a non-square matrix or a column with no usable
   * pivot, and otherwise the inverse, on both sides.
   */
  method Inv(a: Matrix) returns (r: Outcome<Option<Matrix>>)
    requires Rectangular(a)
    ensures r == InvSpec(a)
  {
    if |a| == 0 {
      return Err(TypeError);
    }
    if |a| != |a[0]| {
      return Ok(None);
    }
    var n := |a|;
    var c, m := a, Identity(n);
    var i := 0;
    while i < n
      invariant 0 <= i <= n && WorkOk(Work(c, m), n)
      invariant GaussJordan(Work(c, m), n, i) == GaussJordan(Work(a, Identity(n)), n, 0)
    {
      var found;
      found, c, m := ProcessColumn(c, m, n, i);
      if !found {
        return Ok(None);
      }
      i := i + 1;
    }
    return Ok(Some(m));
  }
}
