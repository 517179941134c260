/**
 * The matrix filter of the topology optimisation code: a class holding the
 * mass matrix M of the filter mesh, the work vectors Dinv, Tinv, t1, t2, t3,
 * y1, y2 and temp, and the filtered design vector x[0] (here x0). Its
 * methods change these vectors in place, one component at a time, as the
 * TACS vector operations they call do.
 */
module MatrixFilter {
  import opened Counting
  import opened Vectors
  import opened Strides
  import opened FilterSpec

  // The TACS vector operations the filter calls, as component-wise updates.

  /** dst->copyValues(src). */
  method CopyValues(dst: array<real>, src: array<real>)
    requires dst.Length == src.Length
    modifies dst
    ensures dst[..] == old(src[..])
  {
    forall i | 0 <= i < dst.Length {
      dst[i] := src[i];
    }
  }

  /** dst takes the values src (setBVecFromLocalValues into a vector). */
  method Assign(dst: array<real>, src: seq<real>)
    requires dst.Length == |src|
    modifies dst
    ensures dst[..] == src
  {
    forall i | 0 <= i < dst.Length {
      dst[i] := src[i];
    }
    assert forall i :: 0 <= i < dst.Length ==> dst[..][i] == src[i];
  }

  /** x->set(v). */
  method SetAll(x: array<real>, v: real)
    modifies x
    ensures forall i :: 0 <= i < x.Length ==> x[i] == v
  {
    forall i | 0 <= i < x.Length {
      x[i] := v;
    }
  }

  /** x->scale(a). */
  method ScaleValues(a: real, x: array<real>)
    modifies x
    ensures x[..] == Scale(a, old(x[..]))
  {
    forall i | 0 <= i < x.Length {
      x[i] := a * x[i];
    }
    assert forall i :: 0 <= i < x.Length ==> x[..][i] == Scale(a, old(x[..]))[i];
  }

  /** y->axpy(a, x): y = y + a x. */
  method Axpy(a: real, x: array<real>, y: array<real>)
    requires x.Length == y.Length && x != y
    modifies y
    ensures y[..] == Add(old(y[..]), Scale(a, x[..]))
  {
    forall i | 0 <= i < y.Length {
      y[i] := y[i] + a * x[i];
    }
    assert forall i :: 0 <= i < y.Length ==> y[..][i] == Add(old(y[..]), Scale(a, x[..]))[i];
  }

  /** M->mult(x, y): y = M x. */
  method Mult(m: seq<seq<real>>, x: array<real>, y: array<real>)
    requires Square(m, x.Length) && y.Length == x.Length && x != y
    modifies y
    ensures y[..] == MatVec(m, x[..])
  {
    var r := MatVec(m, x[..]);
    forall i | 0 <= i < y.Length {
      y[i] := r[i];
    }
    assert x[..] == old(x[..]);
    assert forall i :: 0 <= i < y.Length ==> y[..][i] == r[i];
  }

  /**
   * kronecker(c, x, y): with all three vectors, y[i] = c[i] x[i] for every
   * i below the length of c; with y absent, x[i] = c[i] x[i] in place; with
   * c or x absent, nothing. c and x are only written where they are y.
   */
  method Kronecker(c: array?<real>, x: array?<real>, y: array?<real>)
    requires c != null && x != null ==> c.Length <= x.Length
    requires c != null && x != null && y != null ==> c.Length <= y.Length
    modifies if y == null then {x} else {y}
    ensures c != null && x != null && y != null ==>
              (forall i :: 0 <= i < c.Length ==> y[i] == old(c[i]) * old(x[i]))
              && (forall i :: c.Length <= i < y.Length ==> y[i] == old(y[i]))
              && (x != y ==> x[..] == old(x[..]))
              && (c != y ==> c[..] == old(c[..]))
    ensures c != null && x != null && y == null ==>
              (forall i :: 0 <= i < c.Length ==> x[i] == old(c[i]) * old(x[i]))
              && (forall i :: c.Length <= i < x.Length ==> x[i] == old(x[i]))
              && (c != x ==> c[..] == old(c[..]))
    ensures c == null || x == null ==>
              (x != null ==> x[..] == old(x[..])) && (y != null ==> y[..] == old(y[..]))
    ensures c != null && x != null && y != null && c.Length == y.Length ==>
              y[..] == Hadamard(old(c[..]), old(x[..c.Length]))
    ensures c != null && x != null && y == null && c.Length == x.Length ==>
              x[..] == Hadamard(old(c[..]), old(x[..]))
  {
    if c != null && x != null && y != null {
      ProductLoop(c, x, y);
      if c.Length == y.Length {
        assert forall i :: 0 <= i < y.Length ==> y[..][i] == Hadamard(old(c[..]), old(x[..c.Length]))[i];
      }
    } else if c != null && x != null {
      ProductLoopInPlace(c, x);
      if c.Length == x.Length {
        assert forall i :: 0 <= i < x.Length ==> x[..][i] == Hadamard(old(c[..]), old(x[..]))[i];
      }
    }
  }

  /** The loop of kronecker with three vectors: y[i] = c[i] x[i] below the
      length of c. */
  method ProductLoop(c: array<real>, x: array<real>, y: array<real>)
    requires c.Length <= x.Length && c.Length <= y.Length
    modifies y
    ensures forall i :: 0 <= i < c.Length ==> y[i] == old(c[i]) * old(x[i])
    ensures forall i :: c.Length <= i < y.Length ==> y[i] == old(y[i])
    ensures x != y ==> x[..] == old(x[..])
    ensures c != y ==> c[..] == old(c[..])
  {
    for i := 0 to c.Length
      invariant forall j :: 0 <= j < i ==> y[j] == old(c[j]) * old(x[j])
      invariant forall j :: i <= j < y.Length ==> y[j] == old(y[j])
      invariant x != y ==> x[..] == old(x[..])
      invariant c != y ==> c[..] == old(c[..])
    {
      y[i] := c[i] * x[i];
    }
  }

  /** The loop of kronecker with y absent: x[i] = c[i] x[i] below the
      length of c. */
  method ProductLoopInPlace(c: array<real>, x: array<real>)
    requires c.Length <= x.Length
    modifies x
    ensures forall i :: 0 <= i < c.Length ==> x[i] == old(c[i]) * old(x[i])
    ensures forall i :: c.Length <= i < x.Length ==> x[i] == old(x[i])
    ensures c != x ==> c[..] == old(c[..])
  {
    for i := 0 to c.Length
      invariant forall j :: 0 <= j < i ==> x[j] == old(c[j]) * old(x[j])
      invariant forall j :: i <= j < x.Length ==> x[j] == old(x[j])
      invariant c != x ==> c[..] == old(c[..])
    {
      x[i] := x[i] * c[i];
    }
  }

  /** kronecker(c, x, y) on three vectors of one length: y = c o x. */
  method KroneckerInto(c: array<real>, x: array<real>, y: array<real>)
    requires c.Length == x.Length == y.Length && y != c && y != x
    modifies y
    ensures y[..] == Hadamard(c[..], x[..])
  {
    assert x[..c.Length] == x[..];
    Kronecker(c, x, y);
  }

  /** kronecker(c, x) on two vectors of one length: x = c o x in place. */
  method KroneckerInPlace(c: array<real>, x: array<real>)
    requires c.Length == x.Length && c != x
    modifies x
    ensures x[..] == Hadamard(c[..], old(x[..]))
  {
    Kronecker(c, x, null);
  }

  /** D = 1/D component by component, zero where D is zero (initialize_matrix). */
  method InvertInPlace(d: array<real>)
    modifies d
    ensures d[..] == Reciprocal(old(d[..]))
  {
    for i := 0 to d.Length
      invariant forall j :: 0 <= j < i ==> d[j] == Reciprocal(old(d[..]))[j]
      invariant forall j :: i <= j < d.Length ==> d[j] == old(d[j])
    {
      if d[i] != 0.0 {
        d[i] := 1.0 / d[i];
      } else {
        d[i] := 0.0;
      }
    }
  }

  /** T = 1/ty component by component, zero where ty is zero (initialize_matrix). */
  method InvertInto(t: array<real>, ty: array<real>)
    requires t.Length == ty.Length && t != ty
    modifies t
    ensures t[..] == Reciprocal(ty[..])
  {
    for i := 0 to t.Length
      invariant forall j :: 0 <= j < i ==> t[j] == Reciprocal(ty[..])[j]
    {
      if ty[i] != 0.0 {
        t[i] := 1.0 / ty[i];
      } else {
        t[i] := 0.0;
      }
    }
  }

  /** Copy component k of the interleaved x into y: y[i] = x[k + i vpn]. */
  method GatherComponent(x: array<real>, k: nat, vpn: nat, y: array<real>)
    requires k < vpn && x.Length == y.Length * vpn && x != y
    modifies y
    ensures y[..] == Strided(x[..], k, vpn, y.Length)
  {
    ghost var r := Strided(x[..], k, vpn, y.Length);
    var p := k;
    for i := 0 to y.Length
      invariant p == Slot(k, i, vpn)
      invariant y[..i] == r[..i]
    {
      SlotBound(k, i, vpn, y.Length);
      y[i] := x[p];
      assert y[..i + 1] == y[..i] + [r[i]];
      SlotNext(k, i, vpn);
      p := p + vpn;
    }
    assert y[..] == y[..y.Length];
  }

  /**
   * Write y into component k of the interleaved x: x[k + i vpn] = y[i]
   * (setDesignVars); the other components keep their values.
   */
  method ScatterComponent(y: array<real>, k: nat, vpn: nat, x: array<real>)
    requires k < vpn && x.Length == y.Length * vpn && x != y
    modifies x
    ensures x[..] == Placed(old(x[..]), y[..], k, vpn)
  {
    ghost var before := x[..];
    var p := k;
    for i := 0 to y.Length
      invariant p == Slot(k, i, vpn)
      invariant x[..] == Placed(before, y[..i], k, vpn)
    {
      SlotBound(k, i, vpn, y.Length);
      x[p] := y[i];
      assert y[..i + 1][..i] == y[..i];
      SlotNext(k, i, vpn);
      p := p + vpn;
    }
    assert y[..] == y[..y.Length];
  }

  /**
   * Add y into component k of the interleaved x: x[k + i vpn] += y[i], the
   * intent of the copy-back loop of addValues; the other components keep
   * their values.
   */
  method AddComponent(y: array<real>, k: nat, vpn: nat, x: array<real>)
    requires k < vpn && x.Length == y.Length * vpn && x != y
    modifies x
    ensures x[..] == Accumulated(old(x[..]), y[..], k, vpn)
  {
    ghost var before := x[..];
    var p := k;
    for i := 0 to y.Length
      invariant p == Slot(k, i, vpn)
      invariant x[..] == Accumulated(before, y[..i], k, vpn)
    {
      SlotBound(k, i, vpn, y.Length);
      x[p] := x[p] + y[i];
      assert y[..i + 1][..i] == y[..i];
      SlotNext(k, i, vpn);
      p := p + vpn;
    }
    assert y[..] == y[..y.Length];
  }

  /**
   * The copy-back loop of addValues as written: the output pointer stays
   * on x[k] while the loop advances the input pointer, so every entry of y
   * is added into x[k] and nothing else changes.
   */
  method AddComponentAsWritten(y: array<real>, k: nat, x: array<real>)
    requires k < x.Length && x != y
    modifies x
    ensures x[k] == old(x[k]) + SumR(y[..])
    ensures forall j :: 0 <= j < x.Length && j != k ==> x[j] == old(x[j])
  {
    for i := 0 to y.Length
      invariant x[k] == old(x[k]) + SumR(y[..i])
      invariant forall j :: 0 <= j < x.Length && j != k ==> x[j] == old(x[j])
    {
      assert y[..i + 1][..i] == y[..i];
      x[k] := x[k] + y[i];
    }
    assert y[..y.Length] == y[..];
  }

  class Filter {
    /** The number of filter nodes, the length of every work vector. */
    const size: nat
    /** getVarsPerNode(): design values per node. */
    const vpn: nat
    /** The assembled mass matrix M of the filter mesh. */
    const m: seq<seq<real>>
    /** The damping scalar s and the number of Horner terms N. */
    var s: real
    var n: int
    const dinv: array<real>
    const tinv: array<real>
    const t1: array<real>
    const t2: array<real>
    const t3: array<real>
    const y1: array<real>
    const y2: array<real>
    /** The assembled design sensitivities (addValues) and x[0] (setDesignVars). */
    const temp: array<real>
    const x0: array<real>

    /** The vectors have their sizes and are pairwise distinct objects. */
    ghost predicate Shaped()
    {
      Square(m, size) && vpn >= 1
      && dinv.Length == size && tinv.Length == size && t1.Length == size
      && t2.Length == size && t3.Length == size && y1.Length == size
      && y2.Length == size && temp.Length == size * vpn && x0.Length == size * vpn
      && dinv != tinv && dinv != t1 && dinv != t2 && dinv != t3 && dinv != y1
      && dinv != y2 && dinv != temp && dinv != x0
      && tinv != t1 && tinv != t2 && tinv != t3 && tinv != y1 && tinv != y2
      && tinv != temp && tinv != x0
      && t1 != t2 && t1 != t3 && t1 != y1 && t1 != y2 && t1 != temp && t1 != x0
      && t2 != t3 && t2 != y1 && t2 != y2 && t2 != temp && t2 != x0
      && t3 != y1 && t3 != y2 && t3 != temp && t3 != x0
      && y1 != y2 && y1 != temp && y1 != x0
      && y2 != temp && y2 != x0
      && temp != x0
    }

    /** A caller's vector, none of the filter's own. */
    predicate Outside(a: array<real>)
    {
      a != dinv && a != tinv && a != t1 && a != t2 && a != t3
      && a != y1 && a != y2 && a != temp && a != x0
    }

    /** The filter after initialize_matrix: shaped, and s > 1. */
    ghost predicate Valid()
      reads this
    {
      Shaped() && s > 1.0
    }

    /** The filter's current data, as the specification functions take it. */
    function Data(): (f: FilterData)
      reads this, dinv, tinv
      requires Valid()
      ensures Sized(f, size)
    {
      FilterData(Operator(m, dinv[..], s), tinv[..], n)
    }

    /** Allocate the work vectors (createVec) and run initialize_matrix. */
    constructor (size: nat, vpn: nat, m: seq<seq<real>>, s0: real, n0: int)
      requires Square(m, size) && vpn >= 1
      ensures Valid()
      ensures this.size == size && this.vpn == vpn && this.m == m
      ensures s == ClampS(s0) && n == n0
      ensures dinv[..] == Reciprocal(MatVec(m, Ones(size)))
      ensures tinv[..] == Reciprocal(Filtered(FilterData(Operator(m, dinv[..], s), Ones(size), n), Ones(size)))
      ensures fresh(dinv) && fresh(tinv) && fresh(t1) && fresh(t2) && fresh(t3)
      ensures fresh(y1) && fresh(y2) && fresh(temp) && fresh(x0)
    {
      this.size := size;
      this.vpn := vpn;
      this.m := m;
      s := 2.0;
      n := 0;
      dinv := new real[size];
      tinv := new real[size];
      t1 := new real[size];
      t2 := new real[size];
      t3 := new real[size];
      y1 := new real[size];
      y2 := new real[size];
      temp := new real[size * vpn];
      x0 := new real[size * vpn];
      new;
      InitializeMatrix(s0, n0);
    }

    /**
     * The numerical part of initialize_matrix: clamp s, set Dinv to the
     * inverse row sums of M, then Tinv to the inverse of the filter (with
     * Tinv = 1) applied to the vector of ones.
     */
    method InitializeMatrix(s0: real, n0: int)
      requires Shaped()
      modifies this, dinv, tinv, t1, t2, y1, y2
      ensures Valid()
      ensures s == ClampS(s0) && n == n0
      ensures dinv[..] == Reciprocal(MatVec(m, Ones(size)))
      ensures tinv[..] == Reciprocal(Filtered(FilterData(Operator(m, dinv[..], s), Ones(size), n), Ones(size)))
    {
      n := n0;
      s := s0;
      if s <= 1.0 {
        s := 2.0;
      }
      SetAll(y2, 1.0);
      assert y2[..] == Ones(size);
      Mult(m, y2, dinv);
      InvertInPlace(dinv);
      SetAll(tinv, 1.0);
      assert tinv[..] == Ones(size);
      ApplyFilter(y2, y1);
      InvertInto(tinv, y1);
    }

    /**
     * applyFilter(in, out): t1 = (1/s) Dinv o in, out = t1, then N times
     * out = out + (1/s) Dinv o (M out) + t1, and finally out = Tinv o out.
     */
    method ApplyFilter(inp: array<real>, out: array<real>)
      requires Valid()
      requires inp.Length == size && out.Length == size
      requires out != dinv && out != tinv && out != t1 && out != t2
      modifies t1, t2, out
      ensures out[..] == Filtered(Data(), old(inp[..]))
    {
      ghost var x := inp[..];
      ghost var f := Data();
      CopyValues(t1, inp);
      KroneckerInPlace(dinv, t1);
      ScaleValues(1.0 / s, t1);
      assert t1[..] == FilterStart(f, x);
      CopyValues(out, t1);
      FilterPasses(out);
      ghost var last := out[..];
      KroneckerInPlace(tinv, out);
      assert Data() == f;
      assert out[..] == Hadamard(f.tinv, last);
    }

    /** The N passes of the applyFilter loop, started from out = t1. */
    method FilterPasses(out: array<real>)
      requires Valid() && out.Length == size
      requires out != dinv && out != tinv && out != t1 && out != t2
      requires out[..] == t1[..]
      modifies t2, out
      ensures out[..] == FilterHorner(Data().op, t1[..], Iterations(n))
    {
      ghost var a := Data().op;
      var k := 0;
      while k < n
        invariant 0 <= k <= Iterations(n)
        invariant out[..] == FilterHorner(a, t1[..], k)
        invariant Data().op == a
      {
        FilterPass(out);
        FilterHornerNext(a, t1[..], k);
        k := k + 1;
      }
      assert k == Iterations(n);
    }

    /** One pass of the applyFilter loop: out = out + (1/s) Dinv o (M out) + t1. */
    method FilterPass(out: array<real>)
      requires Valid() && out.Length == size
      requires out != dinv && out != tinv && out != t1 && out != t2
      modifies t2, out
      ensures out[..] == Add(Add(old(out[..]), Smooth(Data().op, old(out[..]))), t1[..])
    {
      Mult(m, out, t2);
      KroneckerInPlace(dinv, t2);
      Axpy(1.0 / s, t2, out);
      Axpy(1.0, t1, out);
      ScaleOne(t1[..]);
    }

    /** One pass of the applyTranspose loop: out = out + (1/s) M (Dinv o out) + t1. */
    method TransposePass(out: array<real>)
      requires Valid() && out.Length == size
      requires out != dinv && out != tinv && out != t1 && out != t2 && out != t3
      modifies t2, t3, out
      ensures out[..] == Add(Add(old(out[..]), SmoothT(Data().op, old(out[..]))), t1[..])
    {
      KroneckerInto(dinv, out, t2);
      Mult(m, t2, t3);
      Axpy(1.0 / s, t3, out);
      Axpy(1.0, t1, out);
      ScaleOne(t1[..]);
    }

    /** The N passes of the applyTranspose loop, started from out = t1. */
    method TransposePasses(out: array<real>)
      requires Valid() && out.Length == size
      requires out != dinv && out != tinv && out != t1 && out != t2 && out != t3
      requires out[..] == t1[..]
      modifies t2, t3, out
      ensures out[..] == TransposeHorner(Data().op, t1[..], Iterations(n))
    {
      ghost var a := Data().op;
      var k := 0;
      while k < n
        invariant 0 <= k <= Iterations(n)
        invariant out[..] == TransposeHorner(a, t1[..], k)
        invariant Data().op == a
      {
        TransposePass(out);
        TransposeHornerNext(a, t1[..], k);
        k := k + 1;
      }
      assert k == Iterations(n);
    }

    /**
     * applyTranspose(in, out): t1 = Tinv o in, out = t1, then N times
     * out = out + (1/s) M (Dinv o out) + t1, and finally out = (1/s) Dinv o out.
     */
    method ApplyTranspose(inp: array<real>, out: array<real>)
      requires Valid()
      requires inp.Length == size && out.Length == size
      requires out != dinv && out != tinv && out != t1 && out != t2 && out != t3
      modifies t1, t2, t3, out
      ensures out[..] == Transposed(Data(), old(inp[..]))
    {
      ghost var x := inp[..];
      ghost var f := Data();
      CopyValues(t1, inp);
      KroneckerInPlace(tinv, t1);
      assert t1[..] == Hadamard(tinv[..], x);
      CopyValues(out, t1);
      TransposePasses(out);
      ghost var last := out[..];
      KroneckerInPlace(dinv, out);
      assert out[..] == Hadamard(f.op.dinv, last);
      ScaleValues(1.0 / s, out);
      assert Data() == f;
      assert out[..] == Scale(1.0 / f.op.s, Hadamard(f.op.dinv, last));
      assert out[..] == Transposed(f, x);
    }

    /**
     * The filtering part of setDesignVars: x[0] becomes the filter applied
     * to xvec, component by component when a node holds several values.
     */
    method SetDesignVars(xvec: array<real>)
      requires Valid() && Outside(xvec) && xvec.Length == size * vpn
      modifies y1, y2, t1, t2, x0
      ensures x0[..] == Interleave(FilteredComponents(Data(), old(xvec[..]), vpn, size), vpn, size)
    {
      ghost var comps := FilteredComponents(Data(), xvec[..], vpn, size);
      if vpn == 1 {
        ApplyFilter(xvec, x0);
        StridedSingle(xvec[..]);
        InterleaveSingle(x0[..]);
        assert comps == [x0[..]];
      } else {
        for k := 0 to vpn
          invariant xvec[..] == old(xvec[..])
          invariant PlacedUpTo(x0[..], comps, k, vpn, size)
        {
          GatherComponent(xvec, k, vpn, y1);
          ApplyFilter(y1, y2);
          assert y2[..] == comps[k];
          ghost var before := x0[..];
          ScatterComponent(y2, k, vpn, x0);
          PlacedUpToNext(before, x0[..], comps, k, vpn, size);
        }
        PlacedUpToAll(x0[..], comps, vpn, size);
      }
    }

    /**
     * Pass k of the copy-back loop of addValues as intended: component k of
     * temp is gathered into y1, y2 = applyTranspose(y1), and y2 is added into
     * component k of vec.
     */
    method AddTransposedComponent(k: nat, vec: array<real>)
      requires Valid() && Outside(vec) && k < vpn && vec.Length == size * vpn
      modifies y1, y2, t1, t2, t3, vec
      ensures Data() == old(Data()) && temp[..] == old(temp[..])
      ensures vec[..] == Accumulated(old(vec[..]), Transposed(Data(), Strided(temp[..], k, vpn, size)), k, vpn)
    {
      GatherComponent(temp, k, vpn, y1);
      ApplyTranspose(y1, y2);
      AddComponent(y2, k, vpn, vec);
    }

    /**
     * addValues(xlocal, vec) with its copy-back loop as intended: temp holds
     * the assembled sensitivities xlocal, and vec gains applyTranspose of
     * each component of temp in that component's slots.
     */
    method AddValues(xlocal: seq<real>, vec: array<real>)
      requires Valid() && Outside(vec)
      requires |xlocal| == size * vpn && vec.Length == size * vpn
      modifies temp, y1, y2, t1, t2, t3, vec
      ensures vec[..] == Add(old(vec[..]), Interleave(TransposedComponents(Data(), xlocal, vpn, size), vpn, size))
    {
      ghost var f := Data();
      ghost var comps := TransposedComponents(f, xlocal, vpn, size);
      ghost var v0 := vec[..];
      Assign(temp, xlocal);
      if vpn == 1 {
        ApplyTranspose(temp, y1);
        assert Data() == f;
        StridedSingle(xlocal);
        assert y1[..] == comps[0];
        Axpy(1.0, y1, vec);
        ScaleOne(y1[..]);
        InterleaveSingle(y1[..]);
        assert comps == [y1[..]];
      } else {
        AddComponents(vec);
        AddedUpToSum(vec[..], v0, comps, vpn, size);
      }
    }

    /**
     * The copy-back loop of addValues with several values per node: pass k
     * adds applyTranspose of component k of temp into the slots of
     * component k.
     */
    method AddComponents(vec: array<real>)
      requires Valid() && Outside(vec) && vec.Length == size * vpn
      modifies y1, y2, t1, t2, t3, vec
      ensures Data() == old(Data()) && temp[..] == old(temp[..])
      ensures AddedUpTo(vec[..], old(vec[..]), TransposedComponents(Data(), temp[..], vpn, size), vpn, vpn, size)
    {
      ghost var f := Data();
      ghost var x := temp[..];
      ghost var comps := TransposedComponents(f, x, vpn, size);
      ghost var v0 := vec[..];
      AddedUpToStart(v0, comps, vpn, size);
      for k := 0 to vpn
        invariant Data() == f && temp[..] == x
        invariant AddedUpTo(vec[..], v0, comps, k, vpn, size)
      {
        assert comps[k] == Transposed(f, Strided(x, k, vpn, size));
        ghost var before := vec[..];
        AddTransposedComponent(k, vec);
        AddedUpToNext(before, vec[..], v0, comps, k, vpn, size);
      }
    }

    /**
     * Pass k of the copy-back loop of addValues as written: as in
     * AddTransposedComponent, but every entry of y2 lands in vec[k].
     */
    method AddTransposedComponentAsWritten(k: nat, vec: array<real>)
      requires Valid() && Outside(vec) && k < vpn && k < vec.Length
      modifies y1, y2, t1, t2, t3, vec
      ensures Data() == old(Data()) && temp[..] == old(temp[..])
      ensures vec[k] == old(vec[k]) + SumR(Transposed(Data(), Strided(temp[..], k, vpn, size)))
      ensures forall j :: 0 <= j < vec.Length && j != k ==> vec[j] == old(vec[j])
    {
      GatherComponent(temp, k, vpn, y1);
      ApplyTranspose(y1, y2);
      AddComponentAsWritten(y2, k, vec);
    }

    /**
     * The copy-back loop of addValues as written, with several values per
     * node: pass k adds all of applyTranspose of component k of temp into
     * vec[k].
     */
    method AddComponentsAsWritten(vec: array<real>)
      requires Valid() && Outside(vec) && vpn <= vec.Length
      modifies y1, y2, t1, t2, t3, vec
      ensures Data() == old(Data()) && temp[..] == old(temp[..])
      ensures FirstAddedUpTo(vec[..], old(vec[..]), TransposedComponents(Data(), temp[..], vpn, size), vpn)
    {
      ghost var f := Data();
      ghost var x := temp[..];
      ghost var comps := TransposedComponents(f, x, vpn, size);
      ghost var v0 := vec[..];
      for k := 0 to vpn
        invariant Data() == f && temp[..] == x
        invariant FirstAddedUpTo(vec[..], v0, comps, k)
      {
        assert comps[k] == Transposed(f, Strided(x, k, vpn, size));
        ghost var before := vec[..];
        AddTransposedComponentAsWritten(k, vec);
        FirstAddedUpToNext(before, vec[..], v0, comps, k);
      }
    }

    /**
     * addValues(xlocal, vec) as written: with several values per node, pass
     * k adds every entry of applyTranspose of component k into vec[k] alone.
     */
    method AddValuesAsWritten(xlocal: seq<real>, vec: array<real>)
      requires Valid() && Outside(vec)
      requires |xlocal| == size * vpn && vec.Length == size * vpn
      modifies temp, y1, y2, t1, t2, t3, vec
      ensures vec[..] == AddedAsWritten(old(vec[..]), TransposedComponents(Data(), xlocal, vpn, size), vpn, size)
    {
      ghost var f := Data();
      ghost var comps := TransposedComponents(f, xlocal, vpn, size);
      ghost var v0 := vec[..];
      Assign(temp, xlocal);
      if vpn == 1 {
        ApplyTranspose(temp, y1);
        assert Data() == f;
        StridedSingle(xlocal);
        assert y1[..] == comps[0];
        Axpy(1.0, y1, vec);
        ScaleOne(y1[..]);
        InterleaveSingle(y1[..]);
        assert comps == [y1[..]];
      } else if size == 0 {
        assert vec[..] == [];
      } else {
        MulAtLeast(size, vpn);
        AddComponentsAsWritten(vec);
        FirstAddedUpToAll(vec[..], v0, comps, vpn);
      }
    }
  }
}
