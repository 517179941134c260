/**
 * What the matrix filter computes, as functions on vectors. The filter
 * holds the mass matrix M of the filter mesh, the inverse row sums Dinv,
 * the normalisation Tinv, the scalar s and the number of Horner terms N.
 * applyFilter sets t1 = (1/s) Dinv o x and out_0 = t1, runs N passes of
 * out_{n+1} = out_n + A out_n + t1 = (I + A) out_n + t1 with
 * A = (1/s) Dinv M, and returns Tinv o out_N. applyTranspose sets
 * t1 = Tinv o x and out_0 = t1, runs N passes of
 * out_{n+1} = out_n + (1/s) M (Dinv o out_n) + t1, and returns
 * (1/s) Dinv o out_N.
 */
module FilterSpec {
  import opened Counting
  import opened Vectors
  import opened Strides

  /** The parts of the Horner step: the mass matrix M, Dinv and s. */
  datatype Operator = Operator(m: seq<seq<real>>, dinv: Vector, s: real)

  /** The filter's data: the Horner operator, Tinv and N. */
  datatype FilterData = FilterData(op: Operator, tinv: Vector, n: int)

  /**
   * The operator fits vectors of the given size, and s is the clamped
   * scalar initialize_matrix keeps (so 1/s is defined).
   */
  predicate OpSized(a: Operator, size: nat)
  {
    Square(a.m, size) && |a.dinv| == size && a.s > 1.0
  }

  /** Every part of the filter fits vectors of the given size. */
  predicate Sized(f: FilterData, size: nat)
  {
    OpSized(f.op, size) && |f.tinv| == size
  }

  /** The loop `for (n = 0; n < N; n++)` runs max(N, 0) times. */
  function Iterations(n: int): (r: nat)
    ensures n >= 0 ==> r == n
    ensures n < 0 ==> r == 0
  {
    if n < 0 then 0 else n
  }

  /** The scalar kept by initialize_matrix: s <= 1 would not damp the series. */
  function ClampS(s: real): (r: real)
    ensures r > 1.0
    ensures s > 1.0 ==> r == s
    ensures s <= 1.0 ==> r == 2.0
  {
    if s <= 1.0 then 2.0 else s
  }

  /** The guarded component-wise inverse: zero where the entry is zero. */
  function Reciprocal(d: Vector): (r: Vector)
    ensures |r| == |d|
    ensures forall i :: 0 <= i < |d| && d[i] != 0.0 ==> r[i] * d[i] == 1.0
    ensures forall i :: 0 <= i < |d| && d[i] == 0.0 ==> r[i] == 0.0
  {
    seq(|d|, i requires 0 <= i < |d| => if d[i] != 0.0 then 1.0 / d[i] else 0.0)
  }

  /** (1/s) Dinv o (M u): the operator A of applyFilter. */
  function Smooth(a: Operator, u: Vector): (r: Vector)
    requires OpSized(a, |u|)
    ensures |r| == |u|
  {
    Scale(1.0 / a.s, Hadamard(a.dinv, MatVec(a.m, u)))
  }

  /** (1/s) M (Dinv o v): the operator of applyTranspose, the adjoint of Smooth. */
  function SmoothT(a: Operator, v: Vector): (r: Vector)
    requires OpSized(a, |v|)
    ensures |r| == |v|
  {
    Scale(1.0 / a.s, MatVec(a.m, Hadamard(a.dinv, v)))
  }

  /** out after `steps` passes of the applyFilter loop, starting from t1. */
  function FilterHorner(a: Operator, t1: Vector, steps: nat): (r: Vector)
    requires OpSized(a, |t1|)
    ensures |r| == |t1|
  {
    if steps == 0 then t1
    else
      var out := FilterHorner(a, t1, steps - 1);
      Add(Add(out, Smooth(a, out)), t1)
  }

  /** out after `steps` passes of the applyTranspose loop, starting from t1. */
  function TransposeHorner(a: Operator, t1: Vector, steps: nat): (r: Vector)
    requires OpSized(a, |t1|)
    ensures |r| == |t1|
  {
    if steps == 0 then t1
    else
      var out := TransposeHorner(a, t1, steps - 1);
      Add(Add(out, SmoothT(a, out)), t1)
  }

  /** One more pass of the applyFilter loop: out + A out + t1. */
  lemma FilterHornerNext(a: Operator, t1: Vector, steps: nat)
    requires OpSized(a, |t1|)
    ensures FilterHorner(a, t1, steps + 1)
            == Add(Add(FilterHorner(a, t1, steps), Smooth(a, FilterHorner(a, t1, steps))), t1)
  {
  }

  /** One more pass of the applyTranspose loop: out + A^T out + t1. */
  lemma TransposeHornerNext(a: Operator, t1: Vector, steps: nat)
    requires OpSized(a, |t1|)
    ensures TransposeHorner(a, t1, steps + 1)
            == Add(Add(TransposeHorner(a, t1, steps), SmoothT(a, TransposeHorner(a, t1, steps))), t1)
  {
  }

  /** t1 = (1/s) Dinv o x, the start of applyFilter. */
  function FilterStart(f: FilterData, x: Vector): (r: Vector)
    requires Sized(f, |x|)
    ensures |r| == |x|
  {
    Scale(1.0 / f.op.s, Hadamard(f.op.dinv, x))
  }

  /** The result of applyFilter(x). */
  function Filtered(f: FilterData, x: Vector): (r: Vector)
    requires Sized(f, |x|)
    ensures |r| == |x|
  {
    Hadamard(f.tinv, FilterHorner(f.op, FilterStart(f, x), Iterations(f.n)))
  }

  /** The result of applyTranspose(x). */
  function Transposed(f: FilterData, x: Vector): (r: Vector)
    requires Sized(f, |x|)
    ensures |r| == |x|
  {
    Scale(1.0 / f.op.s, Hadamard(f.op.dinv, TransposeHorner(f.op, Hadamard(f.tinv, x), Iterations(f.n))))
  }

  /** With no Horner terms applyFilter is Tinv o (1/s) Dinv o x. */
  lemma FilterWithoutTerms(f: FilterData, x: Vector)
    requires Sized(f, |x|) && f.n <= 0
    ensures forall i :: 0 <= i < |x| ==> Filtered(f, x)[i] == f.tinv[i] * ((1.0 / f.op.s) * (f.op.dinv[i] * x[i]))
  {
  }

  /** With no Horner terms applyTranspose is (1/s) Dinv o Tinv o x. */
  lemma TransposeWithoutTerms(f: FilterData, x: Vector)
    requires Sized(f, |x|) && f.n <= 0
    ensures forall i :: 0 <= i < |x| ==> Transposed(f, x)[i] == (1.0 / f.op.s) * (f.op.dinv[i] * (f.tinv[i] * x[i]))
  {
  }

  /**
   * The normalisation built by initialize_matrix: with Tinv the reciprocal
   * of the unnormalised filter applied to the vector of ones, the filter
   * maps ones to one at every node where that vector is non-zero, and to
   * zero at the others.
   */
  lemma FilterNormalised(f: FilterData, size: nat)
    requires Sized(f, size)
    requires f.tinv == Reciprocal(Filtered(f.(tinv := Ones(size)), Ones(size)))
    ensures forall i :: 0 <= i < size ==>
              Filtered(f, Ones(size))[i]
              == if Filtered(f.(tinv := Ones(size)), Ones(size))[i] != 0.0 then 1.0 else 0.0
  {
    var g := f.(tinv := Ones(size));
    var h := FilterHorner(f.op, FilterStart(f, Ones(size)), Iterations(f.n));
    assert Filtered(g, Ones(size)) == Hadamard(Ones(size), h);
    forall i | 0 <= i < size
      ensures Filtered(g, Ones(size))[i] == h[i]
    {
    }
  }

  /** Smooth and SmoothT are adjoint when M is symmetric. */
  lemma SmoothAdjoint(a: Operator, u: Vector, v: Vector)
    requires OpSized(a, |u|) && |v| == |u| && Symmetric(a.m)
    ensures Dot(Smooth(a, u), v) == Dot(u, SmoothT(a, v))
  {
    var c := 1.0 / a.s;
    var mu := MatVec(a.m, u);
    var dcv := Hadamard(a.dinv, Scale(c, v));
    DotScaleMoves(c, Hadamard(a.dinv, mu), v);
    DotDiagonal(a.dinv, mu, Scale(c, v));
    SymmetricAdjoint(a.m, u, dcv);
    HadamardScale(a.dinv, c, v);
    MatVecScale(a.m, c, Hadamard(a.dinv, v));
  }

  /** A diagonal scaling distributes over a sum. */
  lemma HadamardAdd(p: Vector, x: Vector, y: Vector)
    requires |p| == |x| == |y|
    ensures Hadamard(p, Add(x, y)) == Add(Hadamard(p, x), Hadamard(p, y))
  {
    forall i | 0 <= i < |x|
      ensures Hadamard(p, Add(x, y))[i] == Add(Hadamard(p, x), Hadamard(p, y))[i]
    {
      assert p[i] * (x[i] + y[i]) == p[i] * x[i] + p[i] * y[i];
    }
  }

  /** A scalar factor distributes over a sum. */
  lemma ScaleAdd(c: real, x: Vector, y: Vector)
    requires |x| == |y|
    ensures Scale(c, Add(x, y)) == Add(Scale(c, x), Scale(c, y))
  {
    forall i | 0 <= i < |x|
      ensures Scale(c, Add(x, y))[i] == Add(Scale(c, x), Scale(c, y))[i]
    {
      assert c * (x[i] + y[i]) == c * x[i] + c * y[i];
    }
  }

  /** SmoothT is additive. */
  lemma SmoothTAdd(a: Operator, x: Vector, y: Vector)
    requires OpSized(a, |x|) && |y| == |x|
    ensures SmoothT(a, Add(x, y)) == Add(SmoothT(a, x), SmoothT(a, y))
  {
    HadamardAdd(a.dinv, x, y);
    MatVecAdd(a.m, Hadamard(a.dinv, x), Hadamard(a.dinv, y));
    ScaleAdd(1.0 / a.s, MatVec(a.m, Hadamard(a.dinv, x)), MatVec(a.m, Hadamard(a.dinv, y)));
  }

  /** The transpose polynomial commutes with the operator it is built from. */
  lemma {:induction false} TransposeHornerCommutes(a: Operator, t: Vector, steps: nat)
    requires OpSized(a, |t|)
    ensures TransposeHorner(a, SmoothT(a, t), steps) == SmoothT(a, TransposeHorner(a, t, steps))
    decreases steps
  {
    if steps > 0 {
      var n: nat := steps - 1;
      var st := SmoothT(a, t);
      var g := TransposeHorner(a, t, n);
      TransposeHornerCommutes(a, t, n);
      TransposeHornerNext(a, st, n);
      TransposeHornerNext(a, t, n);
      SmoothTAdd(a, Add(g, SmoothT(a, g)), t);
      SmoothTAdd(a, g, SmoothT(a, g));
    }
  }

  /** The inner product with a three-term sum, on the left. */
  lemma DotSum3Left(x: Vector, y: Vector, z: Vector, v: Vector)
    requires |x| == |y| == |z| == |v|
    ensures Dot(Add(Add(x, y), z), v) == Dot(x, v) + Dot(y, v) + Dot(z, v)
  {
    DotSymmetric(Add(Add(x, y), z), v);
    DotAdd(v, Add(x, y), z);
    DotAdd(v, x, y);
    DotSymmetric(v, x);
    DotSymmetric(v, y);
    DotSymmetric(v, z);
  }

  /**
   * One Horner level keeps the two recurrences adjoint: if out . v == t . g
   * and out . (A^T v) == t . (A^T g), then the next levels agree too.
   */
  lemma HornerStepAdjoint(a: Operator, out: Vector, t: Vector, v: Vector, g: Vector)
    requires OpSized(a, |t|) && |out| == |t| && |v| == |t| && |g| == |t| && Symmetric(a.m)
    requires Dot(out, v) == Dot(t, g)
    requires Dot(out, SmoothT(a, v)) == Dot(t, SmoothT(a, g))
    ensures Dot(Add(Add(out, Smooth(a, out)), t), v) == Dot(t, Add(Add(g, SmoothT(a, g)), v))
  {
    DotSum3Left(out, Smooth(a, out), t, v);
    SmoothAdjoint(a, out, v);
    DotAdd(t, Add(g, SmoothT(a, g)), v);
    DotAdd(t, g, SmoothT(a, g));
  }

  /** Each Horner level of applyTranspose is the adjoint of that of applyFilter. */
  lemma {:induction false} HornerAdjoint(a: Operator, t: Vector, v: Vector, steps: nat)
    requires OpSized(a, |t|) && |v| == |t| && Symmetric(a.m)
    ensures Dot(FilterHorner(a, t, steps), v) == Dot(t, TransposeHorner(a, v, steps))
    decreases steps
  {
    if steps > 0 {
      var n: nat := steps - 1;
      HornerAdjoint(a, t, v, n);
      HornerAdjoint(a, t, SmoothT(a, v), n);
      TransposeHornerCommutes(a, v, n);
      HornerStepAdjoint(a, FilterHorner(a, t, n), t, v, TransposeHorner(a, v, n));
      FilterHornerNext(a, t, n);
      TransposeHornerNext(a, v, n);
    }
  }

  /**
   * applyTranspose is the transpose of applyFilter: for a symmetric mass
   * matrix, (F x) . y == x . (F^T y) for all x and y.
   */
  lemma TransposeIsAdjoint(f: FilterData, x: Vector, y: Vector)
    requires Sized(f, |x|) && |y| == |x| && Symmetric(f.op.m)
    ensures Dot(Filtered(f, x), y) == Dot(x, Transposed(f, y))
  {
    var a := f.op;
    var c := 1.0 / a.s;
    var steps := Iterations(f.n);
    var t1 := FilterStart(f, x);
    var g := TransposeHorner(a, Hadamard(f.tinv, y), steps);
    DotDiagonal(f.tinv, FilterHorner(a, t1, steps), y);
    HornerAdjoint(a, t1, Hadamard(f.tinv, y), steps);
    DotScaleMoves(c, Hadamard(a.dinv, x), g);
    DotDiagonal(a.dinv, x, Scale(c, g));
    HadamardScale(a.dinv, c, g);
  }

  /** Component k of an interleaved vector: y1[i] = x[k + i vpn]. */
  function Strided(x: Vector, k: nat, vpn: nat, size: nat): (r: Vector)
    requires k < vpn && |x| == size * vpn
    ensures |r| == size
    ensures forall i :: 0 <= i < size ==> Slot(k, i, vpn) < |x| && r[i] == x[Slot(k, i, vpn)]
  {
    SlotsBound(vpn, size);
    seq(size, i requires 0 <= i < size => x[Slot(k, i, vpn)])
  }

  /** With one value per node the only component is the vector itself. */
  lemma StridedSingle(x: Vector)
    ensures Strided(x, 0, 1, |x|) == x
  {
    var r := Strided(x, 0, 1, |x|);
    forall i | 0 <= i < |x|
      ensures r[i] == x[i]
    {
      SlotUnit(i);
    }
  }

  /** The interleaved vector whose component k is comps[k]. */
  function Interleave(comps: seq<Vector>, vpn: nat, size: nat): (r: Vector)
    requires |comps| == vpn
    requires forall k :: 0 <= k < vpn ==> |comps[k]| == size
    ensures |r| == size * vpn
    ensures forall k, i :: 0 <= k < vpn && 0 <= i < size ==>
              Slot(k, i, vpn) < |r| && r[Slot(k, i, vpn)] == comps[k][i]
  {
    var r := seq(size * vpn, j requires 0 <= j < size * vpn =>
                   SlotCover(j, vpn, size); comps[j % vpn][j / vpn]);
    forall k, i | 0 <= k < vpn && 0 <= i < size
      ensures Slot(k, i, vpn) < |r| && r[Slot(k, i, vpn)] == comps[k][i]
    {
      SlotBound(k, i, vpn, size);
      SlotDecode(k, i, vpn);
    }
    r
  }

  /** With one value per node the interleaved vector is the only component. */
  lemma InterleaveSingle(c: Vector)
    ensures Interleave([c], 1, |c|) == c
  {
    var r := Interleave([c], 1, |c|);
    forall i | 0 <= i < |c|
      ensures r[i] == c[i]
    {
      SlotUnit(i);
      assert r[Slot(0, i, 1)] == [c][0][i];
    }
  }

  /** A vector that holds comps[k][i] at every slot is their interleaving. */
  lemma InterleaveFromSlots(x: Vector, comps: seq<Vector>, vpn: nat, size: nat)
    requires |x| == size * vpn && |comps| == vpn
    requires forall k :: 0 <= k < vpn ==> |comps[k]| == size
    requires forall k, i :: 0 <= k < vpn && 0 <= i < size ==>
               Slot(k, i, vpn) < |x| && x[Slot(k, i, vpn)] == comps[k][i]
    ensures x == Interleave(comps, vpn, size)
  {
    var r := Interleave(comps, vpn, size);
    forall j | 0 <= j < |x|
      ensures x[j] == r[j]
    {
      SlotCover(j, vpn, size);
    }
  }

  /** applyFilter applied to each component of an interleaved vector. */
  function FilteredComponents(f: FilterData, x: Vector, vpn: nat, size: nat): (r: seq<Vector>)
    requires Sized(f, size) && |x| == size * vpn
    ensures |r| == vpn
    ensures forall k :: 0 <= k < vpn ==> r[k] == Filtered(f, Strided(x, k, vpn, size))
  {
    seq(vpn, k requires 0 <= k < vpn => Filtered(f, Strided(x, k, vpn, size)))
  }

  /** applyTranspose applied to each component of an interleaved vector. */
  function TransposedComponents(f: FilterData, x: Vector, vpn: nat, size: nat): (r: seq<Vector>)
    requires Sized(f, size) && |x| == size * vpn
    ensures |r| == vpn
    ensures forall k :: 0 <= k < vpn ==> r[k] == Transposed(f, Strided(x, k, vpn, size))
  {
    seq(vpn, k requires 0 <= k < vpn => Transposed(f, Strided(x, k, vpn, size)))
  }

  /** Two interleaved vectors that agree at every slot are equal. */
  lemma SameAtSlots(x: Vector, y: Vector, vpn: nat, size: nat)
    requires |x| == size * vpn && |y| == size * vpn
    requires forall k, i :: 0 <= k < vpn && 0 <= i < size ==>
               Slot(k, i, vpn) < |x| && x[Slot(k, i, vpn)] == y[Slot(k, i, vpn)]
    ensures x == y
  {
    forall j | 0 <= j < |x|
      ensures x[j] == y[j]
    {
      SlotCover(j, vpn, size);
    }
  }

  /** A vector that gained comps[k][i] at every slot (k, i) is the sum of
      the old vector and the interleaved components. */
  lemma AddedAtSlots(v: Vector, v0: Vector, comps: seq<Vector>, vpn: nat, size: nat)
    requires |v| == size * vpn && |v0| == size * vpn && |comps| == vpn
    requires forall k :: 0 <= k < vpn ==> |comps[k]| == size
    requires forall k, i :: 0 <= k < vpn && 0 <= i < size ==>
               Slot(k, i, vpn) < |v| && v[Slot(k, i, vpn)] == v0[Slot(k, i, vpn)] + comps[k][i]
    ensures v == Add(v0, Interleave(comps, vpn, size))
  {
    var inter := Interleave(comps, vpn, size);
    var sum := Add(v0, inter);
    forall k, i | 0 <= k < vpn && 0 <= i < size
      ensures Slot(k, i, vpn) < |v| && v[Slot(k, i, vpn)] == sum[Slot(k, i, vpn)]
    {
      var j := Slot(k, i, vpn);
      assert inter[j] == comps[k][i];
      assert sum[j] == v0[j] + inter[j];
    }
    SameAtSlots(v, sum, vpn, size);
  }

  /** x with y written into the slots of component k, node after node:
      x[k + i vpn] = y[i], as the copy loop of setDesignVars leaves it. */
  function Placed(x: Vector, y: Vector, k: nat, vpn: nat): (r: Vector)
    ensures |r| == |x|
  {
    if y == [] then x
    else
      var w := Placed(x, y[..|y| - 1], k, vpn);
      var j := Slot(k, |y| - 1, vpn);
      if j < |w| then w[j := y[|y| - 1]] else w
  }

  /** Placing y in component k sets exactly the first |y| slots of that
      component and leaves every other slot as it was. */
  lemma {:induction false} PlacedAt(x: Vector, y: Vector, k: nat, vpn: nat, size: nat)
    requires k < vpn && |x| == size * vpn && |y| <= size
    ensures forall k', i :: 0 <= k' < vpn && 0 <= i < size ==>
              Slot(k', i, vpn) < |x| &&
              Placed(x, y, k, vpn)[Slot(k', i, vpn)] == if k' == k && i < |y| then y[i] else x[Slot(k', i, vpn)]
  {
    SlotsBound(vpn, size);
    if y != [] {
      var n := |y| - 1;
      PlacedAt(x, y[..n], k, vpn, size);
      OtherSlotsDiffer(k, n, vpn, size);
      forall k', i | 0 <= k' < vpn && 0 <= i < size
        ensures Placed(x, y, k, vpn)[Slot(k', i, vpn)] == if k' == k && i < |y| then y[i] else x[Slot(k', i, vpn)]
      {
        if k' == k && i < n {
          assert y[..n][i] == y[i];
        }
      }
    }
  }

  /** The slots of each of the first `count` components of v hold that
      component of comps: the state after `count` passes of the copy loop
      of setDesignVars. */
  predicate PlacedUpTo(v: Vector, comps: seq<Vector>, count: nat, vpn: nat, size: nat)
  {
    |v| == size * vpn && |comps| == vpn && count <= vpn &&
    (forall k :: 0 <= k < vpn ==> |comps[k]| == size) &&
    forall k, i :: 0 <= k < count && 0 <= i < size ==>
      Slot(k, i, vpn) < |v| && v[Slot(k, i, vpn)] == comps[k][i]
  }

  /** Pass k writes comps[k] into component k and so completes one more
      component, keeping the ones already written. */
  lemma PlacedUpToNext(v: Vector, w: Vector, comps: seq<Vector>, k: nat, vpn: nat, size: nat)
    requires PlacedUpTo(v, comps, k, vpn, size) && k < vpn
    requires w == Placed(v, comps[k], k, vpn)
    ensures PlacedUpTo(w, comps, k + 1, vpn, size)
  {
    PlacedAt(v, comps[k], k, vpn, size);
  }

  /** After all vpn passes, v is the interleaving of the components. */
  lemma PlacedUpToAll(v: Vector, comps: seq<Vector>, vpn: nat, size: nat)
    requires PlacedUpTo(v, comps, vpn, vpn, size)
    ensures v == Interleave(comps, vpn, size)
  {
    InterleaveFromSlots(v, comps, vpn, size);
  }

  /** x with y added into the slots of component k, node after node:
      x[k + i vpn] += y[i], the copy-back loop of addValues as intended. */
  function Accumulated(x: Vector, y: Vector, k: nat, vpn: nat): (r: Vector)
    ensures |r| == |x|
  {
    if y == [] then x
    else
      var w := Accumulated(x, y[..|y| - 1], k, vpn);
      var j := Slot(k, |y| - 1, vpn);
      if j < |w| then w[j := w[j] + y[|y| - 1]] else w
  }

  /** Adding y into component k raises the first |y| slots of that component
      by the entries of y and leaves every other slot as it was. */
  lemma {:induction false} AccumulatedAt(x: Vector, y: Vector, k: nat, vpn: nat, size: nat)
    requires k < vpn && |x| == size * vpn && |y| <= size
    ensures forall k', i :: 0 <= k' < vpn && 0 <= i < size ==>
              Slot(k', i, vpn) < |x| &&
              Accumulated(x, y, k, vpn)[Slot(k', i, vpn)]
                == x[Slot(k', i, vpn)] + if k' == k && i < |y| then y[i] else 0.0
  {
    SlotsBound(vpn, size);
    if y != [] {
      var n := |y| - 1;
      AccumulatedAt(x, y[..n], k, vpn, size);
      OtherSlotsDiffer(k, n, vpn, size);
      forall k', i | 0 <= k' < vpn && 0 <= i < size
        ensures Accumulated(x, y, k, vpn)[Slot(k', i, vpn)]
                  == x[Slot(k', i, vpn)] + if k' == k && i < |y| then y[i] else 0.0
      {
        if k' == k && i < n {
          assert y[..n][i] == y[i];
        }
      }
    }
  }

  /** v is v0 plus comps[k] in the slots of each of the first `count`
      components, and v0 in the slots of the others: the state after
      `count` passes of the copy-back loop of addValues as intended. */
  predicate AddedUpTo(v: Vector, v0: Vector, comps: seq<Vector>, count: nat, vpn: nat, size: nat)
  {
    |v| == size * vpn && |v0| == size * vpn && |comps| == vpn &&
    (forall k :: 0 <= k < vpn ==> |comps[k]| == size) &&
    forall k, i :: 0 <= k < vpn && 0 <= i < size ==>
      Slot(k, i, vpn) < |v| &&
      v[Slot(k, i, vpn)] == v0[Slot(k, i, vpn)] + if k < count then comps[k][i] else 0.0
  }

  /** Before the first pass nothing has been added. */
  lemma AddedUpToStart(v0: Vector, comps: seq<Vector>, vpn: nat, size: nat)
    requires |v0| == size * vpn && |comps| == vpn
    requires forall k :: 0 <= k < vpn ==> |comps[k]| == size
    ensures AddedUpTo(v0, v0, comps, 0, vpn, size)
  {
    SlotsBound(vpn, size);
  }

  /** Pass k adds comps[k] into component k and so completes one more
      component. */
  lemma AddedUpToNext(v: Vector, w: Vector, v0: Vector, comps: seq<Vector>, k: nat, vpn: nat, size: nat)
    requires AddedUpTo(v, v0, comps, k, vpn, size) && k < vpn
    requires w == Accumulated(v, comps[k], k, vpn)
    ensures AddedUpTo(w, v0, comps, k + 1, vpn, size)
  {
    AccumulatedAt(v, comps[k], k, vpn, size);
  }

  /** After all vpn passes, v is v0 plus the interleaved components. */
  lemma AddedUpToSum(v: Vector, v0: Vector, comps: seq<Vector>, vpn: nat, size: nat)
    requires AddedUpTo(v, v0, comps, vpn, vpn, size)
    ensures v == Add(v0, Interleave(comps, vpn, size))
  {
    AddedAtSlots(v, v0, comps, vpn, size);
  }

  /**
   * vec after addValues as written, given applyTranspose of each component:
   * with one value per node the sum is the intended one; with several,
   * vec[k] gains the sum of all of component k and no other entry changes.
   */
  function AddedAsWritten(vec: Vector, comps: seq<Vector>, vpn: nat, size: nat): (r: Vector)
    requires |vec| == size * vpn && |comps| == vpn
    requires forall k :: 0 <= k < vpn ==> |comps[k]| == size
    ensures |r| == |vec|
  {
    if vpn == 1 then Add(vec, Interleave(comps, vpn, size))
    else FirstEntriesAdded(vec, comps, vpn)
  }

  /** vec after the first `count` passes of the copy-back loop of addValues
      as written: entry k < count gains the sum of all of comps[k]. */
  function FirstEntriesAdded(vec: Vector, comps: seq<Vector>, count: nat): (r: Vector)
    requires count <= |comps|
    ensures |r| == |vec|
  {
    seq(|vec|, j requires 0 <= j < |vec| => if j < count then vec[j] + SumR(comps[j]) else vec[j])
  }

  /** v is v0 with entry k < count raised by the sum of comps[k]: the state
      after `count` passes of the copy-back loop of addValues as written. */
  predicate FirstAddedUpTo(v: Vector, v0: Vector, comps: seq<Vector>, count: nat)
  {
    |v| == |v0| && count <= |comps| &&
    forall j :: 0 <= j < |v| ==> v[j] == v0[j] + if j < count then SumR(comps[j]) else 0.0
  }

  /** Pass k as written raises entry k alone and so completes one more pass. */
  lemma FirstAddedUpToNext(v: Vector, w: Vector, v0: Vector, comps: seq<Vector>, k: nat)
    requires FirstAddedUpTo(v, v0, comps, k) && k < |comps| && k < |v|
    requires |w| == |v| && w[k] == v[k] + SumR(comps[k])
    requires forall j :: 0 <= j < |w| && j != k ==> w[j] == v[j]
    ensures FirstAddedUpTo(w, v0, comps, k + 1)
  {
  }

  /** After the passes, v is FirstEntriesAdded. */
  lemma FirstAddedUpToAll(v: Vector, v0: Vector, comps: seq<Vector>, count: nat)
    requires FirstAddedUpTo(v, v0, comps, count)
    ensures v == FirstEntriesAdded(v0, comps, count)
  {
  }

  /**
   * With several values per node, addValues as written leaves every slot of
   * the second and later nodes unchanged, where the intended update adds
   * the filtered value of that slot; and it adds the whole component into
   * the first node's slot.
   */
  lemma AsWrittenMissesNodes(vec: Vector, comps: seq<Vector>, vpn: nat, size: nat, k: nat, i: nat)
    requires |vec| == size * vpn && |comps| == vpn
    requires forall k :: 0 <= k < vpn ==> |comps[k]| == size
    requires vpn > 1 && k < vpn && i < size
    ensures Slot(k, i, vpn) < |vec|
    ensures Add(vec, Interleave(comps, vpn, size))[Slot(k, i, vpn)] == vec[Slot(k, i, vpn)] + comps[k][i]
    ensures i > 0 ==> AddedAsWritten(vec, comps, vpn, size)[Slot(k, i, vpn)] == vec[Slot(k, i, vpn)]
    ensures i == 0 ==> AddedAsWritten(vec, comps, vpn, size)[Slot(k, i, vpn)] == vec[k] + SumR(comps[k])
  {
    SlotBound(k, i, vpn, size);
    if i > 0 {
      MulAtLeast(i, vpn);
    }
  }

  /**
   * A filter with two nodes and two values per node (M = I, s = 2, N = 0),
   * which is what initialize_matrix builds from M = I and s = 2: Dinv = 1
   * and Tinv = 2, so applyTranspose is the identity.
   */
  function ExampleFilter(): (f: FilterData)
    ensures Sized(f, 2)
  {
    FilterData(Operator([[1.0, 0.0], [0.0, 1.0]], [1.0, 1.0], 2.0), [2.0, 2.0], 0)
  }

  /** ExampleFilter is the filter initialize_matrix builds from M = I, s = 2, N = 0. */
  lemma ExampleFilterInitialised()
    ensures ExampleFilter().op.dinv == Reciprocal(MatVec(ExampleFilter().op.m, Ones(2)))
    ensures ExampleFilter().tinv == Reciprocal(Filtered(ExampleFilter().(tinv := Ones(2)), Ones(2)))
  {
    var f := ExampleFilter();
    var id := f.op.m;
    assert Hadamard(id[0], Ones(2)) == [1.0, 0.0];
    assert Hadamard(id[1], Ones(2)) == [0.0, 1.0];
    assert SumR([1.0, 0.0]) == 1.0 by { assert [1.0, 0.0][..1] == [1.0]; assert [1.0][..0] == []; }
    assert SumR([0.0, 1.0]) == 1.0 by { assert [0.0, 1.0][..1] == [0.0]; assert [0.0][..0] == []; }
    assert MatVec(id, Ones(2)) == [1.0, 1.0];
    assert Reciprocal([1.0, 1.0]) == [1.0, 1.0];
    var g := f.(tinv := Ones(2));
    assert Filtered(g, Ones(2)) == [0.5, 0.5];
    assert Reciprocal([0.5, 0.5]) == [2.0, 2.0];
  }

  /**
   * The input that shows the addValues discrepancy: xlocal = (1, 1, 1, 1)
   * and vec = 0 on ExampleFilter. Intended, vec becomes (1, 1, 1, 1); as
   * written it becomes (2, 2, 0, 0).
   */
  lemma AddValuesCounterexample()
    ensures TransposedComponents(ExampleFilter(), [1.0, 1.0, 1.0, 1.0], 2, 2) == [[1.0, 1.0], [1.0, 1.0]]
    ensures Add(Zeros(4), Interleave([[1.0, 1.0], [1.0, 1.0]], 2, 2)) == [1.0, 1.0, 1.0, 1.0]
    ensures AddedAsWritten(Zeros(4), [[1.0, 1.0], [1.0, 1.0]], 2, 2) == [2.0, 2.0, 0.0, 0.0]
  {
    ExampleComponents();
    ExampleIntended();
    ExampleAsWritten();
  }

  /** Both components of (1, 1, 1, 1) are (1, 1), and applyTranspose on
      ExampleFilter keeps (1, 1). */
  lemma ExampleComponents()
    ensures TransposedComponents(ExampleFilter(), [1.0, 1.0, 1.0, 1.0], 2, 2) == [[1.0, 1.0], [1.0, 1.0]]
  {
    var f := ExampleFilter();
    var x := [1.0, 1.0, 1.0, 1.0];
    assert Slot(0, 0, 2) == 0 && Slot(1, 0, 2) == 1 && Slot(0, 1, 2) == 2 && Slot(1, 1, 2) == 3;
    assert Strided(x, 0, 2, 2) == [1.0, 1.0];
    assert Strided(x, 1, 2, 2) == [1.0, 1.0];
    assert Transposed(f, [1.0, 1.0]) == [1.0, 1.0];
  }

  /** Interleaving (1, 1) and (1, 1) onto zeros gives (1, 1, 1, 1). */
  lemma ExampleIntended()
    ensures Add(Zeros(4), Interleave([[1.0, 1.0], [1.0, 1.0]], 2, 2)) == [1.0, 1.0, 1.0, 1.0]
  {
    var r := Interleave([[1.0, 1.0], [1.0, 1.0]], 2, 2);
    assert Slot(0, 0, 2) == 0 && Slot(1, 0, 2) == 1 && Slot(0, 1, 2) == 2 && Slot(1, 1, 2) == 3;
    assert r == [1.0, 1.0, 1.0, 1.0];
  }

  /** As written, both sums land in the first two entries. */
  lemma ExampleAsWritten()
    ensures AddedAsWritten(Zeros(4), [[1.0, 1.0], [1.0, 1.0]], 2, 2) == [2.0, 2.0, 0.0, 0.0]
  {
    assert SumR([1.0, 1.0]) == 2.0 by { assert [1.0, 1.0][..1] == [1.0]; assert [1.0][..0] == []; }
  }

}
