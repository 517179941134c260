/**
 * Dense real vectors and matrices: the arithmetic the matrix filter performs
 * with TACS vector operations (copy, scale, axpy, component-wise product)
 * and with its sparse matrix-vector product, here over a dense row list.
 */
module Vectors {
  import opened Counting

  type Vector = seq<real>

  /** Component-wise sum (axpy with a = 1). */
  function Add(x: Vector, y: Vector): (r: Vector)
    requires |x| == |y|
    ensures |r| == |x|
    ensures forall i :: 0 <= i < |x| ==> r[i] == x[i] + y[i]
  {
    seq(|x|, i requires 0 <= i < |x| => x[i] + y[i])
  }

  /** Every component multiplied by a. */
  function Scale(a: real, x: Vector): (r: Vector)
    ensures |r| == |x|
    ensures forall i :: 0 <= i < |x| ==> r[i] == a * x[i]
  {
    seq(|x|, i requires 0 <= i < |x| => a * x[i])
  }

  /** The component-wise (Kronecker) product c ∘ x. */
  function Hadamard(c: Vector, x: Vector): (r: Vector)
    requires |c| == |x|
    ensures |r| == |x|
    ensures forall i :: 0 <= i < |x| ==> r[i] == c[i] * x[i]
  {
    seq(|x|, i requires 0 <= i < |x| => c[i] * x[i])
  }

  /** The vector of n ones. */
  function Ones(n: nat): (r: Vector)
    ensures |r| == n
    ensures forall i :: 0 <= i < n ==> r[i] == 1.0
  {
    seq(n, i => 1.0)
  }

  /** The vector of n zeros. */
  function Zeros(n: nat): (r: Vector)
    ensures |r| == n
    ensures forall i :: 0 <= i < n ==> r[i] == 0.0
  {
    seq(n, i => 0.0)
  }

  lemma {:induction false} SumRAdd(x: Vector, y: Vector)
    requires |x| == |y|
    ensures SumR(Add(x, y)) == SumR(x) + SumR(y)
    decreases |x|
  {
    if x != [] {
      var n := |x| - 1;
      assert Add(x, y)[..n] == Add(x[..n], y[..n]);
      SumRAdd(x[..n], y[..n]);
    }
  }

  lemma {:induction false} SumRScale(c: real, x: Vector)
    ensures SumR(Scale(c, x)) == c * SumR(x)
    decreases |x|
  {
    if x != [] {
      var n := |x| - 1;
      forall i | 0 <= i < n
        ensures Scale(c, x)[..n][i] == Scale(c, x[..n])[i]
      {
      }
      assert Scale(c, x)[..n] == Scale(c, x[..n]);
      SumRScale(c, x[..n]);
    }
  }

  /** The inner product of two vectors of equal length. */
  function Dot(x: Vector, y: Vector): real
    requires |x| == |y|
  {
    SumR(Hadamard(x, y))
  }

  /** n rows of n entries each. */
  predicate Square(m: seq<seq<real>>, n: nat)
  {
    |m| == n && forall i :: 0 <= i < n ==> |m[i]| == n
  }

  /** A square matrix equal to its transpose, as a mass matrix is. */
  predicate Symmetric(m: seq<seq<real>>)
    requires Square(m, |m|)
  {
    forall i, j :: 0 <= i < |m| && 0 <= j < |m| ==> m[i][j] == m[j][i]
  }

  /** Scaling by one changes nothing (axpy with a = 1 is a plain sum). */
  lemma ScaleOne(x: Vector)
    ensures Scale(1.0, x) == x
  {
  }

  /** The product of the matrix m (a list of rows) with the vector x. */
  function MatVec(m: seq<seq<real>>, x: Vector): (r: Vector)
    requires forall i :: 0 <= i < |m| ==> |m[i]| == |x|
    ensures |r| == |m|
    ensures forall i :: 0 <= i < |m| ==> r[i] == Dot(m[i], x)
  {
    seq(|m|, i requires 0 <= i < |m| => Dot(m[i], x))
  }

  /** Column j of m. */
  function Column(m: seq<seq<real>>, j: nat): (r: Vector)
    requires forall i :: 0 <= i < |m| ==> j < |m[i]|
    ensures |r| == |m|
    ensures forall i :: 0 <= i < |m| ==> r[i] == m[i][j]
  {
    seq(|m|, i requires 0 <= i < |m| => m[i][j])
  }

  /** The product of the transpose of m (rows of n entries) with w. */
  function MatTVec(m: seq<seq<real>>, n: nat, w: Vector): (r: Vector)
    requires forall i :: 0 <= i < |m| ==> |m[i]| == n
    requires |w| == |m|
    ensures |r| == n
    ensures forall j :: 0 <= j < n ==> r[j] == Dot(Column(m, j), w)
  {
    seq(n, j requires 0 <= j < n => Dot(Column(m, j), w))
  }

  lemma DotSymmetric(x: Vector, y: Vector)
    requires |x| == |y|
    ensures Dot(x, y) == Dot(y, x)
  {
    assert Hadamard(x, y) == Hadamard(y, x);
  }

  lemma DotAdd(u: Vector, a: Vector, b: Vector)
    requires |u| == |a| == |b|
    ensures Dot(u, Add(a, b)) == Dot(u, a) + Dot(u, b)
  {
    forall i | 0 <= i < |u|
      ensures Hadamard(u, Add(a, b))[i] == Add(Hadamard(u, a), Hadamard(u, b))[i]
    {
      assert u[i] * (a[i] + b[i]) == u[i] * a[i] + u[i] * b[i];
    }
    assert Hadamard(u, Add(a, b)) == Add(Hadamard(u, a), Hadamard(u, b));
    SumRAdd(Hadamard(u, a), Hadamard(u, b));
  }

  lemma DotScale(u: Vector, c: real, a: Vector)
    requires |u| == |a|
    ensures Dot(u, Scale(c, a)) == c * Dot(u, a)
  {
    forall i | 0 <= i < |a|
      ensures Hadamard(u, Scale(c, a))[i] == Scale(c, Hadamard(u, a))[i]
    {
      assert u[i] * (c * a[i]) == c * (u[i] * a[i]);
    }
    assert Hadamard(u, Scale(c, a)) == Scale(c, Hadamard(u, a));
    SumRScale(c, Hadamard(u, a));
  }

  /** A diagonal factor moves from one side of the inner product to the other. */
  lemma DotDiagonal(p: Vector, a: Vector, b: Vector)
    requires |p| == |a| == |b|
    ensures Dot(Hadamard(p, a), b) == Dot(a, Hadamard(p, b))
  {
    forall i | 0 <= i < |a|
      ensures Hadamard(Hadamard(p, a), b)[i] == Hadamard(a, Hadamard(p, b))[i]
    {
      assert (p[i] * a[i]) * b[i] == a[i] * (p[i] * b[i]);
    }
    assert Hadamard(Hadamard(p, a), b) == Hadamard(a, Hadamard(p, b));
  }

  /** A scalar factor moves from one side of the inner product to the other. */
  lemma DotScaleMoves(c: real, x: Vector, y: Vector)
    requires |x| == |y|
    ensures Dot(Scale(c, x), y) == Dot(x, Scale(c, y))
  {
    forall i | 0 <= i < |x|
      ensures Hadamard(Scale(c, x), y)[i] == Hadamard(x, Scale(c, y))[i]
    {
      assert (c * x[i]) * y[i] == x[i] * (c * y[i]);
    }
    assert Hadamard(Scale(c, x), y) == Hadamard(x, Scale(c, y));
  }

  /** Scaling and a diagonal factor commute. */
  lemma HadamardScale(p: Vector, c: real, x: Vector)
    requires |p| == |x|
    ensures Hadamard(p, Scale(c, x)) == Scale(c, Hadamard(p, x))
  {
    forall i | 0 <= i < |x|
      ensures Hadamard(p, Scale(c, x))[i] == Scale(c, Hadamard(p, x))[i]
    {
      assert p[i] * (c * x[i]) == c * (p[i] * x[i]);
    }
  }

  /** Appending one component adds its product to the inner product. */
  lemma DotSnoc(x: Vector, y: Vector, a: real, b: real)
    requires |x| == |y|
    ensures Dot(x + [a], y + [b]) == Dot(x, y) + a * b
  {
    var h := Hadamard(x + [a], y + [b]);
    forall i | 0 <= i < |x|
      ensures h[..|x|][i] == Hadamard(x, y)[i]
    {
      assert (x + [a])[i] == x[i] && (y + [b])[i] == y[i];
    }
    assert h[..|x|] == Hadamard(x, y);
    assert h[|x|] == a * b;
  }

  lemma MatVecAdd(m: seq<seq<real>>, a: Vector, b: Vector)
    requires |a| == |b|
    requires forall i :: 0 <= i < |m| ==> |m[i]| == |a|
    ensures MatVec(m, Add(a, b)) == Add(MatVec(m, a), MatVec(m, b))
  {
    forall i | 0 <= i < |m|
      ensures MatVec(m, Add(a, b))[i] == Add(MatVec(m, a), MatVec(m, b))[i]
    {
      DotAdd(m[i], a, b);
    }
  }

  lemma MatVecScale(m: seq<seq<real>>, c: real, a: Vector)
    requires forall i :: 0 <= i < |m| ==> |m[i]| == |a|
    ensures MatVec(m, Scale(c, a)) == Scale(c, MatVec(m, a))
  {
    forall i | 0 <= i < |m|
      ensures MatVec(m, Scale(c, a))[i] == Scale(c, MatVec(m, a))[i]
    {
      DotScale(m[i], c, a);
    }
  }

  /** Dropping the last row of m drops the last entry of m u. */
  lemma MatVecSnoc(m: seq<seq<real>>, u: Vector)
    requires m != []
    requires forall i :: 0 <= i < |m| ==> |m[i]| == |u|
    ensures MatVec(m, u) == MatVec(m[..|m| - 1], u) + [Dot(m[|m| - 1], u)]
  {
  }

  /** Dropping the last row of m and entry of w drops one term of m^T w. */
  lemma MatTVecSnoc(m: seq<seq<real>>, n: nat, w: Vector)
    requires m != []
    requires forall i :: 0 <= i < |m| ==> |m[i]| == n
    requires |w| == |m|
    ensures MatTVec(m, n, w)
            == Add(MatTVec(m[..|m| - 1], n, w[..|m| - 1]), Scale(w[|m| - 1], m[|m| - 1]))
  {
    var k := |m| - 1;
    forall j | 0 <= j < n
      ensures MatTVec(m, n, w)[j] == Add(MatTVec(m[..k], n, w[..k]), Scale(w[k], m[k]))[j]
    {
      MatTVecSnocEntry(m, n, w, j);
    }
  }

  /** Entry j of the same: the last row adds w[k] m[k][j]. */
  lemma MatTVecSnocEntry(m: seq<seq<real>>, n: nat, w: Vector, j: nat)
    requires m != [] && j < n
    requires forall i :: 0 <= i < |m| ==> |m[i]| == n
    requires |w| == |m|
    ensures MatTVec(m, n, w)[j] == MatTVec(m[..|m| - 1], n, w[..|m| - 1])[j] + w[|m| - 1] * m[|m| - 1][j]
  {
    var k := |m| - 1;
    var c := Column(m[..k], j);
    assert Column(m, j) == c + [m[k][j]];
    assert w == w[..k] + [w[k]];
    DotSnoc(c, w[..k], m[k][j], w[k]);
  }


  /** The inner product with the zero vector vanishes. */
  lemma DotZeros(u: Vector)
    ensures Dot(u, Zeros(|u|)) == 0.0
  {
    assert Hadamard(u, Zeros(|u|)) == Scale(0.0, u);
    SumRScale(0.0, u);
  }

  /** Exchange of the two sums: (m u) . w == u . (m^T w). */
  lemma {:induction false} MatVecTranspose(m: seq<seq<real>>, u: Vector, w: Vector)
    requires forall i :: 0 <= i < |m| ==> |m[i]| == |u|
    requires |w| == |m|
    ensures Dot(MatVec(m, u), w) == Dot(u, MatTVec(m, |u|, w))
    decreases |m|
  {
    var n := |u|;
    if m == [] {
      assert MatTVec(m, n, w) == Zeros(n);
      DotZeros(u);
    } else {
      var k := |m| - 1;
      var m', w', r := m[..k], w[..k], m[k];
      MatVecTranspose(m', u, w');
      MatVecSnoc(m, u);
      assert w == w' + [w[k]];
      DotSnoc(MatVec(m', u), w', Dot(r, u), w[k]);
      MatTVecSnoc(m, n, w);
      DotAdd(u, MatTVec(m', n, w'), Scale(w[k], r));
      DotScale(u, w[k], r);
      DotSymmetric(r, u);
    }
  }

  /** Column j of a symmetric matrix is its row j. */
  lemma SymmetricColumn(m: seq<seq<real>>, j: nat)
    requires Square(m, |m|) && Symmetric(m) && j < |m|
    ensures Column(m, j) == m[j]
  {
    forall i | 0 <= i < |m|
      ensures Column(m, j)[i] == m[j][i]
    {
    }
  }

  /** A symmetric matrix is its own adjoint: (m u) . w == u . (m w). */
  lemma SymmetricAdjoint(m: seq<seq<real>>, u: Vector, w: Vector)
    requires Square(m, |u|) && Symmetric(m) && |w| == |u|
    ensures Dot(MatVec(m, u), w) == Dot(u, MatVec(m, w))
  {
    MatVecTranspose(m, u, w);
    forall j | 0 <= j < |u|
      ensures MatTVec(m, |u|, w)[j] == MatVec(m, w)[j]
    {
      SymmetricColumn(m, j);
    }
    assert MatTVec(m, |u|, w) == MatVec(m, w);
  }
}
