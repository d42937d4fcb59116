/** Finite sums, matrices and quadratic forms over the reals. */
module Matrices {

  type Vec = nat -> real
  type Mat = (nat, nat) -> real

  // ---------------------------------------------------------------- sums

  function Sum(n: nat, f: Vec): real {
    if n == 0 then 0.0 else Sum(n - 1, f) + f(n - 1)
  }

  lemma {:induction false} SumSame(n: nat, f: Vec, g: Vec)
    requires forall i: nat | i < n :: f(i) == g(i)
    ensures Sum(n, f) == Sum(n, g)
  {
    if n > 0 { SumSame(n - 1, f, g); }
  }

  lemma {:induction false} SumAdd(n: nat, f: Vec, g: Vec)
    ensures Sum(n, (i: nat) => f(i) + g(i)) == Sum(n, f) + Sum(n, g)
  {
    if n > 0 { SumAdd(n - 1, f, g); }
  }

  lemma {:induction false} SumScale(n: nat, c: real, f: Vec)
    ensures Sum(n, (i: nat) => c * f(i)) == c * Sum(n, f)
  {
    if n > 0 {
      SumScale(n - 1, c, f);
      assert c * (Sum(n - 1, f) + f(n - 1)) == c * Sum(n - 1, f) + c * f(n - 1);
    }
  }

  lemma {:induction false} SumZero(n: nat, f: Vec)
    requires forall i: nat | i < n :: f(i) == 0.0
    ensures Sum(n, f) == 0.0
  {
    if n > 0 { SumZero(n - 1, f); }
  }

  lemma {:induction false} SumNonNegative(n: nat, f: Vec)
    requires forall i: nat | i < n :: f(i) >= 0.0
    ensures Sum(n, f) >= 0.0
  {
    if n > 0 { SumNonNegative(n - 1, f); }
  }

  ghost function Inner(m: nat, f: Mat): Vec { (i: nat) => Sum(m, (j: nat) => f(i, j)) }
  ghost function Outer(n: nat, f: Mat): Vec { (j: nat) => Sum(n, (i: nat) => f(i, j)) }

  /** A double sum may be taken in either order. */
  lemma {:induction false} SumSwap(n: nat, m: nat, f: Mat)
    ensures Sum(n, Inner(m, f)) == Sum(m, Outer(n, f))
  {
    if n == 0 {
      SumZero(m, Outer(0, f));
    } else {
      SumSwap(n - 1, m, f);
      var last: Vec := (j: nat) => f(n - 1, j);
      SumAdd(m, Outer(n - 1, f), last);
      SumSame(m, Outer(n, f), (j: nat) => Outer(n - 1, f)(j) + last(j));
    }
  }

  // ---------------------------------------------------------------- products

  function Dot(n: nat, u: Vec, v: Vec): real { Sum(n, (i: nat) => u(i) * v(i)) }
  function Row(M: Mat, i: nat): Vec { (k: nat) => M(i, k) }
  function Col(M: Mat, k: nat): Vec { (i: nat) => M(i, k) }

  /** The matrix times a column, a row times the matrix. */
  function MulVec(M: Mat, m: nat, v: Vec): Vec { (i: nat) => Dot(m, Row(M, i), v) }
  function VecMul(u: Vec, n: nat, M: Mat): Vec { (k: nat) => Dot(n, u, Col(M, k)) }

  function Mul(A: Mat, m: nat, B: Mat): Mat { (i: nat, k: nat) => Dot(m, Row(A, i), Col(B, k)) }
  function Transpose(A: Mat): Mat { (i: nat, j: nat) => A(j, i) }
  function Add(A: Mat, B: Mat): Mat { (i: nat, j: nat) => A(i, j) + B(i, j) }

  lemma DotNext(n: nat, u: Vec, v: Vec, term: real)
    requires term == u(n) * v(n)
    ensures Dot(n + 1, u, v) == Dot(n, u, v) + term
  {
  }

  lemma DotSame(n: nat, u: Vec, v: Vec, u': Vec, v': Vec)
    requires forall i: nat | i < n :: u(i) == u'(i) && v(i) == v'(i)
    ensures Dot(n, u, v) == Dot(n, u', v')
  {
    SumSame(n, (i: nat) => u(i) * v(i), (i: nat) => u'(i) * v'(i));
  }

  lemma DotCommutes(n: nat, u: Vec, v: Vec)
    ensures Dot(n, u, v) == Dot(n, v, u)
  {
    SumSame(n, (i: nat) => u(i) * v(i), (i: nat) => v(i) * u(i));
  }

  lemma DotAdd(n: nat, u: Vec, v: Vec, w: Vec)
    ensures Dot(n, u, Plus(v, w)) == Dot(n, u, v) + Dot(n, u, w)
  {
    var f: Vec := (i: nat) => u(i) * v(i);
    var g: Vec := (i: nat) => u(i) * w(i);
    var h: Vec := (i: nat) => u(i) * Plus(v, w)(i);
    SumAdd(n, f, g);
    forall i: nat ensures h(i) == f(i) + g(i) {
      assert u(i) * (v(i) + w(i)) == u(i) * v(i) + u(i) * w(i);
    }
    SumSame(n, h, (i: nat) => f(i) + g(i));
  }

  function Plus(v: Vec, w: Vec): Vec { (i: nat) => v(i) + w(i) }

  /** The terms of u M v. */
  function Terms(u: Vec, M: Mat, v: Vec): Mat { (i: nat, k: nat) => u(i) * M(i, k) * v(k) }

  lemma RowOfTerms(m: nat, u: Vec, M: Mat, v: Vec, i: nat)
    ensures u(i) * MulVec(M, m, v)(i) == Inner(m, Terms(u, M, v))(i)
  {
    var g: Vec := (k: nat) => Row(M, i)(k) * v(k);
    var h: Vec := (k: nat) => u(i) * g(k);
    SumScale(m, u(i), g);
    forall k: nat ensures h(k) == Terms(u, M, v)(i, k) {
      assert u(i) * (M(i, k) * v(k)) == u(i) * M(i, k) * v(k);
    }
    SumSame(m, h, (k: nat) => Terms(u, M, v)(i, k));
  }

  lemma ColOfTerms(n: nat, u: Vec, M: Mat, v: Vec, k: nat)
    ensures VecMul(u, n, M)(k) * v(k) == Outer(n, Terms(u, M, v))(k)
  {
    var g: Vec := (i: nat) => u(i) * Col(M, k)(i);
    var h: Vec := (i: nat) => v(k) * g(i);
    SumScale(n, v(k), g);
    forall i: nat ensures h(i) == Terms(u, M, v)(i, k) {
      assert v(k) * (u(i) * M(i, k)) == u(i) * M(i, k) * v(k);
    }
    SumSame(n, h, (i: nat) => Terms(u, M, v)(i, k));
  }

  lemma ByRows(n: nat, m: nat, u: Vec, M: Mat, v: Vec)
    ensures Dot(n, u, MulVec(M, m, v)) == Sum(n, Inner(m, Terms(u, M, v)))
  {
    var f: Vec := (i: nat) => u(i) * MulVec(M, m, v)(i);
    forall i: nat ensures f(i) == Inner(m, Terms(u, M, v))(i) { RowOfTerms(m, u, M, v, i); }
    SumSame(n, f, Inner(m, Terms(u, M, v)));
  }

  lemma ByColumns(n: nat, m: nat, u: Vec, M: Mat, v: Vec)
    ensures Dot(m, VecMul(u, n, M), v) == Sum(m, Outer(n, Terms(u, M, v)))
  {
    var f: Vec := (k: nat) => VecMul(u, n, M)(k) * v(k);
    forall k: nat ensures f(k) == Outer(n, Terms(u, M, v))(k) { ColOfTerms(n, u, M, v, k); }
    SumSame(m, f, Outer(n, Terms(u, M, v)));
  }

  /** u (M v) == (u M) v */
  lemma DotAssociates(n: nat, m: nat, u: Vec, M: Mat, v: Vec)
    ensures Dot(n, u, MulVec(M, m, v)) == Dot(m, VecMul(u, n, M), v)
  {
    ByRows(n, m, u, M, v);
    SumSwap(n, m, Terms(u, M, v));
    ByColumns(n, m, u, M, v);
  }

  // ---------------------------------------------------------------- covariances

  function Quad(A: Mat, n: nat, x: Vec): real { Dot(n, x, MulVec(A, n, x)) }

  ghost predicate Symmetric(A: Mat, n: nat) {
    forall i: nat, j: nat | i < n && j < n :: A(i, j) == A(j, i)
  }

  /** Positive semidefinite */
  ghost predicate Psd(A: Mat, n: nat) {
    forall x: Vec :: Quad(A, n, x) >= 0.0
  }

  /** A covariance matrix */
  ghost predicate Covariance(A: Mat, n: nat) {
    Symmetric(A, n) && Psd(A, n)
  }

  ghost predicate Same(A: Mat, B: Mat, n: nat, m: nat) {
    forall i: nat, j: nat | i < n && j < m :: A(i, j) == B(i, j)
  }

  lemma QuadSame(A: Mat, B: Mat, n: nat, x: Vec)
    requires Same(A, B, n, n)
    ensures Quad(A, n, x) == Quad(B, n, x)
  {
    forall i: nat | i < n ensures MulVec(A, n, x)(i) == MulVec(B, n, x)(i) {
      DotSame(n, Row(A, i), x, Row(B, i), x);
    }
    DotSame(n, x, MulVec(A, n, x), x, MulVec(B, n, x));
  }

  lemma CovarianceSame(A: Mat, B: Mat, n: nat)
    requires Same(A, B, n, n) && Covariance(A, n)
    ensures Covariance(B, n)
  {
    forall x: Vec ensures Quad(B, n, x) >= 0.0 {
      QuadSame(A, B, n, x);
      assert Quad(A, n, x) >= 0.0;
    }
  }

  lemma QuadAdd(A: Mat, B: Mat, n: nat, x: Vec)
    ensures Quad(Add(A, B), n, x) == Quad(A, n, x) + Quad(B, n, x)
  {
    var a, b := MulVec(A, n, x), MulVec(B, n, x);
    forall i: nat ensures MulVec(Add(A, B), n, x)(i) == a(i) + b(i) {
      DotCommutes(n, Row(Add(A, B), i), x);
      DotCommutes(n, Row(A, i), x);
      DotCommutes(n, Row(B, i), x);
      DotAdd(n, x, Row(A, i), Row(B, i));
      DotSame(n, x, Row(Add(A, B), i), x, Plus(Row(A, i), Row(B, i)));
    }
    DotAdd(n, x, a, b);
    DotSame(n, x, MulVec(Add(A, B), n, x), x, Plus(a, b));
  }

  /** F P F^T, for F with `n` rows and `m` columns */
  function Congruence(F: Mat, P: Mat, m: nat): Mat { Mul(Mul(F, m, P), m, Transpose(F)) }

  /** An entry of it: the bilinear form of P at two rows of F. */
  lemma CongruenceAt(F: Mat, P: Mat, m: nat, i: nat, l: nat)
    ensures Congruence(F, P, m)(i, l) == Dot(m, VecMul(Row(F, i), m, P), Row(F, l))
  {
    DotSame(m, Row(Mul(F, m, P), i), Col(Transpose(F), l), VecMul(Row(F, i), m, P), Row(F, l));
  }

  lemma CongruenceSymmetric(F: Mat, P: Mat, n: nat, m: nat)
    requires Symmetric(P, m)
    ensures Symmetric(Congruence(F, P, m), n)
  {
    forall i: nat, l: nat | i < n && l < n ensures Congruence(F, P, m)(i, l) == Congruence(F, P, m)(l, i) {
      var u, v := Row(F, i), Row(F, l);
      CongruenceAt(F, P, m, i, l);
      CongruenceAt(F, P, m, l, i);
      DotAssociates(m, m, u, P, v);
      forall j: nat | j < m ensures MulVec(P, m, v)(j) == VecMul(v, m, P)(j) {
        DotCommutes(m, Row(P, j), v);
        DotSame(m, v, Row(P, j), v, Col(P, j));
      }
      DotSame(m, u, MulVec(P, m, v), u, VecMul(v, m, P));
      DotCommutes(m, u, VecMul(v, m, P));
    }
  }

  /** The quadratic form of F P F^T at x is that of P at F^T x. */
  lemma QuadCongruence(F: Mat, P: Mat, n: nat, m: nat, x: Vec)
    ensures Quad(Congruence(F, P, m), n, x) == Quad(P, m, VecMul(x, n, F))
  {
    var G, y, N := Mul(F, m, P), VecMul(x, n, F), Congruence(F, P, m);
    forall i: nat ensures MulVec(N, n, x)(i) == MulVec(G, m, y)(i) {
      RowTimes(F, G, n, m, x, i);
    }
    DotSame(n, x, MulVec(N, n, x), x, MulVec(G, m, y));
    DotAssociates(n, m, x, G, y);
    forall k: nat ensures VecMul(x, n, G)(k) == VecMul(y, m, P)(k) {
      ColTimes(F, P, n, m, x, k);
    }
    DotSame(m, VecMul(x, n, G), y, VecMul(y, m, P), y);
    DotAssociates(m, m, y, P, y);
  }

  /** (G F^T) x == G (F^T x) */
  lemma RowTimes(F: Mat, G: Mat, n: nat, m: nat, x: Vec, i: nat)
    ensures MulVec(Mul(G, m, Transpose(F)), n, x)(i) == MulVec(G, m, VecMul(x, n, F))(i)
  {
    var T := Transpose(F);
    DotSame(n, Row(Mul(G, m, T), i), x, VecMul(Row(G, i), m, T), x);
    DotAssociates(m, n, Row(G, i), T, x);
    forall k: nat ensures MulVec(T, n, x)(k) == VecMul(x, n, F)(k) {
      DotCommutes(n, Row(T, k), x);
      DotSame(n, x, Row(T, k), x, Col(F, k));
    }
    DotSame(m, Row(G, i), MulVec(T, n, x), Row(G, i), VecMul(x, n, F));
  }

  /** x (F P) == (x F) P */
  lemma ColTimes(F: Mat, P: Mat, n: nat, m: nat, x: Vec, k: nat)
    ensures VecMul(x, n, Mul(F, m, P))(k) == VecMul(VecMul(x, n, F), m, P)(k)
  {
    DotSame(n, x, Col(Mul(F, m, P), k), x, MulVec(F, m, Col(P, k)));
    DotAssociates(n, m, x, F, Col(P, k));
  }

  /** F P F^T + Q is a covariance whenever P and Q are, in any dimension. */
  lemma PredictionKeepsCovariance(F: Mat, P: Mat, Q: Mat, n: nat, m: nat)
    requires Covariance(P, m) && Covariance(Q, n)
    ensures Covariance(Add(Congruence(F, P, m), Q), n)
  {
    var N := Congruence(F, P, m);
    CongruenceSymmetric(F, P, n, m);
    forall x: Vec ensures Quad(Add(N, Q), n, x) >= 0.0 {
      QuadAdd(N, Q, n, x);
      QuadCongruence(F, P, n, m, x);
      assert Quad(P, m, VecMul(x, n, F)) >= 0.0 && Quad(Q, n, x) >= 0.0;
    }
  }

  // ---------------------------------------------------------------- diagonal matrices

  function Diagonal(d: Vec): Mat { (i: nat, j: nat) => if i == j then d(i) else 0.0 }

  /** A sum with one term that is not zero. */
  lemma {:induction false} SumOne(n: nat, f: Vec, k: nat)
    requires k < n && forall i: nat | i < n && i != k :: f(i) == 0.0
    ensures Sum(n, f) == f(k)
  {
    if k == n - 1 { SumZero(n - 1, f); } else { SumOne(n - 1, f, k); }
  }

  lemma DiagonalTimes(d: Vec, n: nat, x: Vec, i: nat)
    requires i < n
    ensures MulVec(Diagonal(d), n, x)(i) == d(i) * x(i)
  {
    var f: Vec := (k: nat) => Row(Diagonal(d), i)(k) * x(k);
    forall k: nat | k < n && k != i ensures f(k) == 0.0 { assert Row(Diagonal(d), i)(k) == 0.0; }
    SumOne(n, f, i);
  }

  lemma QuadDiagonal(d: Vec, n: nat, x: Vec)
    ensures Quad(Diagonal(d), n, x) == Sum(n, (i: nat) => d(i) * (x(i) * x(i)))
  {
    forall i: nat | i < n ensures x(i) * MulVec(Diagonal(d), n, x)(i) == d(i) * (x(i) * x(i)) {
      DiagonalTimes(d, n, x, i);
    }
    SumSame(n, (i: nat) => x(i) * MulVec(Diagonal(d), n, x)(i), (i: nat) => d(i) * (x(i) * x(i)));
  }

  /** A diagonal matrix is a covariance exactly when no entry is negative. */
  lemma DiagonalCovarianceIff(d: Vec, n: nat)
    ensures Covariance(Diagonal(d), n) <==> forall i: nat | i < n :: d(i) >= 0.0
  {
    if forall i: nat | i < n :: d(i) >= 0.0 {
      forall x: Vec ensures Quad(Diagonal(d), n, x) >= 0.0 {
        QuadDiagonal(d, n, x);
        forall i: nat | i < n ensures d(i) * (x(i) * x(i)) >= 0.0 { SquareScaled(d(i), x(i)); }
        SumNonNegative(n, (i: nat) => d(i) * (x(i) * x(i)));
      }
    } else {
      var k: nat :| k < n && d(k) < 0.0;
      var x: Vec := (i: nat) => if i == k then 1.0 else 0.0;
      var f: Vec := (i: nat) => d(i) * (x(i) * x(i));
      QuadDiagonal(d, n, x);
      SumOne(n, f, k);
      SumSame(n, f, (i: nat) => d(i) * (x(i) * x(i)));
      assert Quad(Diagonal(d), n, x) < 0.0;
    }
  }

  lemma SquareScaled(c: real, x: real)
    requires c >= 0.0
    ensures c * (x * x) >= 0.0
  {
    assert x * x >= 0.0;
  }
}
