/**
 * The layout of the least-squares system behind computeElemRecon.
 *
 * At each of the nine nodes (ii, jj) of the bi-quadratic element the
 * reconstruction asks the enriched field to reproduce the prescribed
 * derivative of one solution component along two tangent directions d1,
 * d2. Node (ii, jj) therefore owns the two rows c = 2 (ii + 3 jj) and c + 1
 * of an 18 x 7 matrix A (one column per enrichment function) and of an
 * 18 x 6 right-hand side b (one column per solution component), both
 * column-major, every row weighted by wvals[ii] wvals[jj]. The dense solve
 * is LAPACK's dgelss and is not part of this model; the solution is then
 * copied out of the first seven rows of b into the row-major ubar.
 *
 * The geometric inputs (the shape-function derivatives, the inverse
 * Jacobian and the two unit tangents at each node, which the source obtains
 * from FElibrary and Tensor) are parameters here.
 */
module ElemRecon {
  import opened Enrichment

  /** Rows of the system: two per node. */
  const Rows: nat := 18
  /** Solution components, one right-hand side each. */
  const Rhs: nat := 6
  /** Nodes of the bi-quadratic element. */
  const Nodes: nat := 9

  /** What the source computes at node (ii, jj) before filling its rows:
      the derivatives of the nine quadratic shape functions (na, nb), the
      inverse Jacobian j (3 x 3, row-major) and the unit tangents d1, d2. */
  datatype NodeGeometry = NodeGeometry(na: seq<real>, nb: seq<real>, j: seq<real>,
                                       d1: seq<real>, d2: seq<real>)

  predicate WellShaped(g: NodeGeometry)
  {
    |g.na| == Nodes && |g.nb| == Nodes && |g.j| == 9 && |g.d1| == 3 && |g.d2| == 3
  }

  /** The inputs of one reconstruction: geometry per node (node ii + 3 jj),
      the 6 solution components at each node and the 6 x 3 prescribed
      derivatives at each node. */
  predicate ValidInputs(geo: seq<NodeGeometry>, uvals: seq<real>, uderiv: seq<real>)
  {
    |geo| == Nodes && (forall n :: 0 <= n < Nodes ==> WellShaped(geo[n])) &&
    |uvals| == 6 * Nodes && |uderiv| == 18 * Nodes
  }

  /** wvals = {0.5, 1.0, 0.5}. */
  function WVal(i: nat): (w: real)
    requires i < 3
    ensures w == (if i == 1 then 1.0 else 0.5)
  {
    [0.5, 1.0, 0.5][i]
  }

  /** The weight of node (ii, jj)'s rows, wvals[ii] wvals[jj]. */
  function Weight(ii: nat, jj: nat): real
    requires ii < 3 && jj < 3
  {
    WVal(ii) * WVal(jj)
  }

  /** The weights by position: 1 at the centre, 1/2 at edge mid-points, 1/4
      at corners, so every row carries a positive weight. */
  lemma WeightValues(ii: nat, jj: nat)
    requires ii < 3 && jj < 3
    ensures Weight(ii, jj) == (if ii == 1 && jj == 1 then 1.0 else if ii == 1 || jj == 1 then 0.5 else 0.25)
    ensures Weight(ii, jj) > 0.0
  {
  }

  /** The parametric location (-1 + ii, -1 + jj) of node (ii, jj). */
  function NodePoint(ii: nat, jj: nat): Point
  {
    Point(-1.0 + ii as real, -1.0 + jj as real)
  }

  /** The first row of node (ii, jj). */
  function RowOf(ii: nat, jj: nat): nat
  {
    2 * (ii + 3 * jj)
  }

  function Dot3(d: seq<real>, v: seq<real>): real
    requires |d| == 3 && |v| == 3
  {
    d[0] * v[0] + d[1] * v[1] + d[2] * v[2]
  }

  /** The physical gradient of a field with parametric derivatives (ga, gb),
      through the inverse Jacobian j. */
  function ToPhysical(j: seq<real>, ga: real, gb: real): (v: seq<real>)
    requires |j| == 9
    ensures |v| == 3
  {
    [ga * j[0] + gb * j[1], ga * j[3] + gb * j[4], ga * j[6] + gb * j[7]]
  }

  /** A weighted directional derivative: one entry of the system. */
  function Project(w: real, d: seq<real>, v: seq<real>): real
    requires |d| == 3 && |v| == 3
  {
    w * Dot3(d, v)
  }

  /** The interpolated parametric derivative of component k over the first
      `count` nodes: the sum of uvals[6 i + k] n[i]. */
  function Interp(uvals: seq<real>, n: seq<real>, k: nat, count: nat): real
    requires k < Rhs && count <= |n| && 6 * count <= |uvals|
  {
    if count == 0 then 0.0
    else Interp(uvals, n, k, count - 1) + uvals[6 * (count - 1) + k] * n[count - 1]
  }

  /** The physical gradient of the quadratic interpolant of component k at
      a node. */
  function InterpGrad(g: NodeGeometry, uvals: seq<real>, k: nat): (v: seq<real>)
    requires WellShaped(g) && |uvals| == 6 * Nodes && k < Rhs
    ensures |v| == 3
  {
    ToPhysical(g.j, Interp(uvals, g.na, k, Nodes), Interp(uvals, g.nb, k, Nodes))
  }

  /** The prescribed derivative of component k at node `node`. */
  function Prescribed(uderiv: seq<real>, node: nat, k: nat): (v: seq<real>)
    requires node < Nodes && k < Rhs && |uderiv| == 18 * Nodes
    ensures |v| == 3
    ensures forall d :: 0 <= d < 3 ==> v[d] == uderiv[18 * node + 3 * k + d]
  {
    uderiv[18 * node + 3 * k .. 18 * node + 3 * k + 3]
  }

  /** The tangent of row `dir` of a node (d1 for dir 0, d2 for dir 1). */
  function Tangent(g: NodeGeometry, dir: nat): (d: seq<real>)
    requires WellShaped(g)
    ensures |d| == 3
  {
    if dir == 0 then g.d1 else g.d2
  }

  /** Right-hand side entry k of node (ii, jj)'s row `dir`: along the
      row's tangent, the prescribed derivative minus the derivative of the
      quadratic interpolant, weighted. */
  function NodeRhs(geo: seq<NodeGeometry>, uvals: seq<real>, uderiv: seq<real>,
                   ii: nat, jj: nat, dir: nat, k: nat): real
    requires ValidInputs(geo, uvals, uderiv) && ii < 3 && jj < 3 && k < Rhs
  {
    var g := geo[ii + 3 * jj];
    Project(Weight(ii, jj), Tangent(g, dir), Prescribed(uderiv, ii + 3 * jj, k))
    - Project(Weight(ii, jj), Tangent(g, dir), InterpGrad(g, uvals, k))
  }

  /** Matrix entry i of node (ii, jj)'s row `dir`: along the row's tangent,
      the derivative of enrichment function i at the node, weighted. */
  function NodeMatrix(geo: seq<NodeGeometry>, ii: nat, jj: nat, dir: nat, i: nat): real
    requires |geo| == Nodes && (forall n :: 0 <= n < Nodes ==> WellShaped(geo[n]))
    requires ii < 3 && jj < 3 && i < NumEnrich
  {
    var g := geo[ii + 3 * jj];
    var e := EnrichmentFuncsWithDerivs(NodePoint(ii, jj));
    Project(Weight(ii, jj), Tangent(g, dir), ToPhysical(g.j, e.na[i], e.nb[i]))
  }

  /** Entry (r, k) of b: row r belongs to node r / 2 and tangent r % 2. */
  function RhsEntry(geo: seq<NodeGeometry>, uvals: seq<real>, uderiv: seq<real>, r: nat, k: nat): real
    requires ValidInputs(geo, uvals, uderiv) && r < Rows && k < Rhs
  {
    NodeRhs(geo, uvals, uderiv, r / 2 % 3, r / 2 / 3, r % 2, k)
  }

  /** Entry (r, i) of A. */
  function MatrixEntry(geo: seq<NodeGeometry>, r: nat, i: nat): real
    requires |geo| == Nodes && (forall n :: 0 <= n < Nodes ==> WellShaped(geo[n]))
    requires r < Rows && i < NumEnrich
  {
    NodeMatrix(geo, r / 2 % 3, r / 2 / 3, r % 2, i)
  }

  /** The row numbering is a bijection between (node, tangent) pairs and
      the 18 rows: node (ii, jj) owns rows RowOf(ii, jj) and RowOf(ii, jj) + 1,
      and every row belongs to exactly the node and tangent it decodes to. */
  lemma RowLayout(ii: nat, jj: nat, dir: nat)
    requires ii < 3 && jj < 3 && dir < 2
    ensures RowOf(ii, jj) + dir < Rows
    ensures (RowOf(ii, jj) + dir) / 2 == ii + 3 * jj
    ensures (RowOf(ii, jj) + dir) / 2 % 3 == ii && (RowOf(ii, jj) + dir) / 2 / 3 == jj
    ensures (RowOf(ii, jj) + dir) % 2 == dir
  {
  }

  lemma RowsCovered(r: nat)
    requires r < Rows
    ensures r / 2 % 3 < 3 && r / 2 / 3 < 3
    ensures RowOf(r / 2 % 3, r / 2 / 3) + r % 2 == r
  {
  }

  // ---------------------------------------------------------------------
  // Column-major storage, as LAPACK expects it
  // ---------------------------------------------------------------------

  /** Position of entry (r, col) of an 18-row matrix stored column after
      column: A[18 i + c] and b[18 k + c]. */
  function At(r: nat, col: nat): nat
  {
    18 * col + r
  }

  /** Every position of an 18-row column-major array holds exactly one
      entry. */
  lemma AtDecode(r: nat, col: nat)
    requires r < Rows
    ensures At(r, col) % Rows == r && At(r, col) / Rows == col
  {
  }

  /** The matrix A: the weighted tangential derivatives of the enrichment
      functions, column-major. */
  function SystemMatrix(geo: seq<NodeGeometry>): (a: seq<real>)
    requires |geo| == Nodes && (forall n :: 0 <= n < Nodes ==> WellShaped(geo[n]))
    ensures |a| == Rows * NumEnrich
    ensures forall r, i :: 0 <= r < Rows && 0 <= i < NumEnrich ==> a[At(r, i)] == MatrixEntry(geo, r, i)
  {
    var a := seq(Rows * NumEnrich, t requires 0 <= t < Rows * NumEnrich => MatrixEntry(geo, t % Rows, t / Rows));
    assert forall r, i :: 0 <= r < Rows && 0 <= i < NumEnrich ==> a[At(r, i)] == MatrixEntry(geo, r, i) by {
      forall r, i | 0 <= r < Rows && 0 <= i < NumEnrich
        ensures a[At(r, i)] == MatrixEntry(geo, r, i)
      {
        AtDecode(r, i);
      }
    }
    a
  }

  /** The right-hand sides b: one column per solution component. */
  function SystemRhs(geo: seq<NodeGeometry>, uvals: seq<real>, uderiv: seq<real>): (b: seq<real>)
    requires ValidInputs(geo, uvals, uderiv)
    ensures |b| == Rows * Rhs
    ensures forall r, k :: 0 <= r < Rows && 0 <= k < Rhs ==> b[At(r, k)] == RhsEntry(geo, uvals, uderiv, r, k)
  {
    var b := seq(Rows * Rhs, t requires 0 <= t < Rows * Rhs => RhsEntry(geo, uvals, uderiv, t % Rows, t / Rows));
    assert forall r, k :: 0 <= r < Rows && 0 <= k < Rhs ==> b[At(r, k)] == RhsEntry(geo, uvals, uderiv, r, k) by {
      forall r, k | 0 <= r < Rows && 0 <= k < Rhs
        ensures b[At(r, k)] == RhsEntry(geo, uvals, uderiv, r, k)
      {
        AtDecode(r, k);
      }
    }
    b
  }

  // ---------------------------------------------------------------------
  // The loops of computeElemRecon
  // ---------------------------------------------------------------------

  // A and b are held as two-dimensional arrays here: entry [c, k] of b is
  // b[18 k + c] of the column-major storage handed to LAPACK, and
  // ColumnMajor gives that storage back.

  /** The column-major storage of an 18-row matrix. */
  function ColumnMajor(m: array2<real>): (s: seq<real>)
    requires m.Length0 == Rows
    reads m
    ensures |s| == Rows * m.Length1
    ensures forall r, col :: 0 <= r < Rows && 0 <= col < m.Length1 ==> s[At(r, col)] == m[r, col]
  {
    var s := seq(Rows * m.Length1, t requires 0 <= t < Rows * m.Length1 reads m => m[t % Rows, t / Rows]);
    assert forall r, col :: 0 <= r < Rows && 0 <= col < m.Length1 ==> s[At(r, col)] == m[r, col] by {
      forall r, col | 0 <= r < Rows && 0 <= col < m.Length1
        ensures s[At(r, col)] == m[r, col]
      {
        AtDecode(r, col);
      }
    }
    s
  }

  /** The derivatives of the quadratic interpolant at one node: Ud[k, 0]
      along xi and Ud[k, 1] along eta (Ud[2 k] and Ud[2 k + 1] in the
      source), for each solution component k. */
  method InterpolateDerivs(uvals: seq<real>, g: NodeGeometry) returns (ud: array2<real>)
    requires WellShaped(g) && |uvals| == 6 * Nodes
    ensures fresh(ud) && ud.Length0 == Rhs && ud.Length1 == 2
    ensures forall k :: 0 <= k < Rhs ==>
              ud[k, 0] == Interp(uvals, g.na, k, Nodes) && ud[k, 1] == Interp(uvals, g.nb, k, Nodes)
  {
    ud := new real[Rhs, 2]((_, _) => 0.0);
    for i := 0 to Nodes
      invariant forall k :: 0 <= k < Rhs ==>
                  ud[k, 0] == Interp(uvals, g.na, k, i) && ud[k, 1] == Interp(uvals, g.nb, k, i)
    {
      AddNodeTerms(uvals, g, i, ud);
      forall k | 0 <= k < Rhs
        ensures Interp(uvals, g.na, k, i + 1) == Interp(uvals, g.na, k, i) + uvals[6 * i + k] * g.na[i]
        ensures Interp(uvals, g.nb, k, i + 1) == Interp(uvals, g.nb, k, i) + uvals[6 * i + k] * g.nb[i]
      {
      }
    }
  }

  /** One pass of the inner loop over the components: node i's value of
      every component, times its shape-function derivatives, is added in. */
  method AddNodeTerms(uvals: seq<real>, g: NodeGeometry, i: nat, ud: array2<real>)
    requires WellShaped(g) && |uvals| == 6 * Nodes && i < Nodes
    requires ud.Length0 == Rhs && ud.Length1 == 2
    modifies ud
    ensures forall k :: 0 <= k < Rhs ==>
              ud[k, 0] == old(ud[k, 0]) + uvals[6 * i + k] * g.na[i] &&
              ud[k, 1] == old(ud[k, 1]) + uvals[6 * i + k] * g.nb[i]
  {
    for k := 0 to Rhs
      invariant forall k' :: 0 <= k' < k ==>
                  ud[k', 0] == old(ud[k', 0]) + uvals[6 * i + k'] * g.na[i] &&
                  ud[k', 1] == old(ud[k', 1]) + uvals[6 * i + k'] * g.nb[i]
      invariant forall k' :: k <= k' < Rhs ==> ud[k', 0] == old(ud[k', 0]) && ud[k', 1] == old(ud[k', 1])
    {
      ud[k, 0] := ud[k, 0] + uvals[6 * i + k] * g.na[i];
      ud[k, 1] := ud[k, 1] + uvals[6 * i + k] * g.nb[i];
    }
  }

  /** The loop over the columns of one node's two rows: rows c and c + 1
      of m take the entries of r0 and r1; the other rows keep theirs. */
  method SetRowPair(m: array2<real>, c: nat, r0: seq<real>, r1: seq<real>)
    requires c + 1 < m.Length0 && |r0| == m.Length1 && |r1| == m.Length1
    modifies m
    ensures forall k :: 0 <= k < m.Length1 ==> m[c, k] == r0[k] && m[c + 1, k] == r1[k]
    ensures forall r, k :: 0 <= r < m.Length0 && 0 <= k < m.Length1 && r != c && r != c + 1 ==>
              m[r, k] == old(m[r, k])
  {
    for k := 0 to m.Length1
      invariant forall k' :: 0 <= k' < k ==> m[c, k'] == r0[k'] && m[c + 1, k'] == r1[k']
      invariant forall r, k' :: 0 <= r < m.Length0 && 0 <= k' < m.Length1 && r != c && r != c + 1 ==>
                  m[r, k'] == old(m[r, k'])
    {
      m[c, k] := r0[k];
      m[c + 1, k] := r1[k];
    }
  }

  /** As SetRowPair, but the entries of r0 and r1 are subtracted from rows
      c and c + 1. */
  method SubtractRowPair(m: array2<real>, c: nat, r0: seq<real>, r1: seq<real>)
    requires c + 1 < m.Length0 && |r0| == m.Length1 && |r1| == m.Length1
    modifies m
    ensures forall k :: 0 <= k < m.Length1 ==>
              m[c, k] == old(m[c, k]) - r0[k] && m[c + 1, k] == old(m[c + 1, k]) - r1[k]
    ensures forall r, k :: 0 <= r < m.Length0 && 0 <= k < m.Length1 && r != c && r != c + 1 ==>
              m[r, k] == old(m[r, k])
  {
    for k := 0 to m.Length1
      invariant forall k' :: 0 <= k' < k ==>
                  m[c, k'] == old(m[c, k']) - r0[k'] && m[c + 1, k'] == old(m[c + 1, k']) - r1[k']
      invariant forall r, k' :: 0 <= r < m.Length0 && k <= k' < m.Length1 ==> m[r, k'] == old(m[r, k'])
      invariant forall r, k' :: 0 <= r < m.Length0 && 0 <= k' < m.Length1 && r != c && r != c + 1 ==>
                  m[r, k'] == old(m[r, k'])
    {
      var x0, x1 := m[c, k], m[c + 1, k];
      m[c, k] := x0 - r0[k];
      m[c + 1, k] := x1 - r1[k];
    }
  }

  /** The first half of a node's right-hand side rows: the prescribed
      derivatives along the two tangents. Rows of other nodes are left
      alone. */
  method SetPrescribedRows(geo: seq<NodeGeometry>, uvals: seq<real>, uderiv: seq<real>,
                           ii: nat, jj: nat, b: array2<real>)
    requires ValidInputs(geo, uvals, uderiv) && ii < 3 && jj < 3
    requires b.Length0 == Rows && b.Length1 == Rhs
    modifies b
    ensures forall k :: 0 <= k < Rhs ==>
              b[RowOf(ii, jj), k] == Project(Weight(ii, jj), geo[ii + 3 * jj].d1, Prescribed(uderiv, ii + 3 * jj, k)) &&
              b[RowOf(ii, jj) + 1, k] == Project(Weight(ii, jj), geo[ii + 3 * jj].d2, Prescribed(uderiv, ii + 3 * jj, k))
    ensures forall r, k :: 0 <= r < Rows && 0 <= k < Rhs && r != RowOf(ii, jj) && r != RowOf(ii, jj) + 1 ==>
              b[r, k] == old(b[r, k])
  {
    var node := ii + 3 * jj;
    var g := geo[node];
    var w := Weight(ii, jj);
    var p0 := seq(Rhs, k requires 0 <= k < Rhs => Project(w, g.d1, Prescribed(uderiv, node, k)));
    var p1 := seq(Rhs, k requires 0 <= k < Rhs => Project(w, g.d2, Prescribed(uderiv, node, k)));
    SetRowPair(b, RowOf(ii, jj), p0, p1);
    forall k | 0 <= k < Rhs
      ensures b[RowOf(ii, jj), k] == Project(w, g.d1, Prescribed(uderiv, node, k))
      ensures b[RowOf(ii, jj) + 1, k] == Project(w, g.d2, Prescribed(uderiv, node, k))
    {
      assert b[RowOf(ii, jj), k] == p0[k] && b[RowOf(ii, jj) + 1, k] == p1[k];
    }
  }

  /** The right-hand side rows of node (ii, jj): first the prescribed
      derivatives, then the interpolant's derivatives subtracted. Rows of
      other nodes are left alone. */
  method FillRhsRows(geo: seq<NodeGeometry>, uvals: seq<real>, uderiv: seq<real>,
                     ii: nat, jj: nat, b: array2<real>)
    requires ValidInputs(geo, uvals, uderiv) && ii < 3 && jj < 3
    requires b.Length0 == Rows && b.Length1 == Rhs
    modifies b
    ensures forall k :: 0 <= k < Rhs ==>
              b[RowOf(ii, jj), k] == NodeRhs(geo, uvals, uderiv, ii, jj, 0, k) &&
              b[RowOf(ii, jj) + 1, k] == NodeRhs(geo, uvals, uderiv, ii, jj, 1, k)
    ensures forall r, k :: 0 <= r < Rows && 0 <= k < Rhs && r != RowOf(ii, jj) && r != RowOf(ii, jj) + 1 ==>
              b[r, k] == old(b[r, k])
  {
    SetPrescribedRows(geo, uvals, uderiv, ii, jj, b);
    var ud := InterpolateDerivs(uvals, geo[ii + 3 * jj]);
    SubtractInterpolant(geo, uvals, uderiv, ii, jj, ud, b);
  }

  /** The second loop over the components at node (ii, jj): the weighted
      tangential derivatives of the interpolant, from Ud, are subtracted
      from the node's two rows. */
  method SubtractInterpolant(geo: seq<NodeGeometry>, uvals: seq<real>, uderiv: seq<real>,
                             ii: nat, jj: nat, ud: array2<real>, b: array2<real>)
    requires ValidInputs(geo, uvals, uderiv) && ii < 3 && jj < 3
    requires b.Length0 == Rows && b.Length1 == Rhs && ud.Length0 == Rhs && ud.Length1 == 2 && ud != b
    requires forall k :: 0 <= k < Rhs ==>
               ud[k, 0] == Interp(uvals, geo[ii + 3 * jj].na, k, Nodes) &&
               ud[k, 1] == Interp(uvals, geo[ii + 3 * jj].nb, k, Nodes)
    modifies b
    ensures forall k :: 0 <= k < Rhs ==>
              b[RowOf(ii, jj), k] == old(b[RowOf(ii, jj), k]) - Project(Weight(ii, jj), geo[ii + 3 * jj].d1, InterpGrad(geo[ii + 3 * jj], uvals, k)) &&
              b[RowOf(ii, jj) + 1, k] == old(b[RowOf(ii, jj) + 1, k]) - Project(Weight(ii, jj), geo[ii + 3 * jj].d2, InterpGrad(geo[ii + 3 * jj], uvals, k))
    ensures forall r, k :: 0 <= r < Rows && 0 <= k < Rhs && r != RowOf(ii, jj) && r != RowOf(ii, jj) + 1 ==>
              b[r, k] == old(b[r, k])
  {
    var g := geo[ii + 3 * jj];
    var w := Weight(ii, jj);
    var q0 := seq(Rhs, k requires 0 <= k < Rhs reads ud => Project(w, g.d1, ToPhysical(g.j, ud[k, 0], ud[k, 1])));
    var q1 := seq(Rhs, k requires 0 <= k < Rhs reads ud => Project(w, g.d2, ToPhysical(g.j, ud[k, 0], ud[k, 1])));
    SubtractRowPair(b, RowOf(ii, jj), q0, q1);
    forall k | 0 <= k < Rhs
      ensures b[RowOf(ii, jj), k] == old(b[RowOf(ii, jj), k]) - Project(w, g.d1, InterpGrad(g, uvals, k))
      ensures b[RowOf(ii, jj) + 1, k] == old(b[RowOf(ii, jj) + 1, k]) - Project(w, g.d2, InterpGrad(g, uvals, k))
    {
      assert q0[k] == Project(w, g.d1, InterpGrad(g, uvals, k));
      assert q1[k] == Project(w, g.d2, InterpGrad(g, uvals, k));
    }
  }

  /** The matrix rows of node (ii, jj): the weighted tangential derivatives
      of the seven enrichment functions. Rows of other nodes are left alone. */
  method FillMatrixRows(geo: seq<NodeGeometry>, ii: nat, jj: nat, A: array2<real>)
    requires |geo| == Nodes && (forall n :: 0 <= n < Nodes ==> WellShaped(geo[n]))
    requires ii < 3 && jj < 3 && A.Length0 == Rows && A.Length1 == NumEnrich
    modifies A
    ensures forall i :: 0 <= i < NumEnrich ==>
              A[RowOf(ii, jj), i] == NodeMatrix(geo, ii, jj, 0, i) &&
              A[RowOf(ii, jj) + 1, i] == NodeMatrix(geo, ii, jj, 1, i)
    ensures forall r, i :: 0 <= r < Rows && 0 <= i < NumEnrich && r != RowOf(ii, jj) && r != RowOf(ii, jj) + 1 ==>
              A[r, i] == old(A[r, i])
  {
    var g := geo[ii + 3 * jj];
    var w := Weight(ii, jj);
    var e := EnrichmentFuncsWithDerivs(NodePoint(ii, jj));
    var a0 := seq(NumEnrich, i requires 0 <= i < NumEnrich => Project(w, g.d1, ToPhysical(g.j, e.na[i], e.nb[i])));
    var a1 := seq(NumEnrich, i requires 0 <= i < NumEnrich => Project(w, g.d2, ToPhysical(g.j, e.na[i], e.nb[i])));
    SetRowPair(A, RowOf(ii, jj), a0, a1);
  }

  /** TA lists, column-major, the matrix entry of every node's rows. */
  ghost predicate MatrixTable(geo: seq<NodeGeometry>, TA: seq<real>)
    requires |geo| == Nodes && (forall n :: 0 <= n < Nodes ==> WellShaped(geo[n]))
  {
    |TA| == Rows * NumEnrich &&
    forall ii: nat, jj: nat, dir: nat, i: nat {:trigger NodeMatrix(geo, ii, jj, dir, i)} ::
      ii < 3 && jj < 3 && dir < 2 && i < NumEnrich ==>
        TA[At(RowOf(ii, jj) + dir, i)] == NodeMatrix(geo, ii, jj, dir, i)
  }

  /** Tb lists, column-major, the right-hand side entry of every node's rows. */
  ghost predicate RhsTable(geo: seq<NodeGeometry>, uvals: seq<real>, uderiv: seq<real>, Tb: seq<real>)
    requires ValidInputs(geo, uvals, uderiv)
  {
    |Tb| == Rows * Rhs &&
    forall ii: nat, jj: nat, dir: nat, k: nat {:trigger NodeRhs(geo, uvals, uderiv, ii, jj, dir, k)} ::
      ii < 3 && jj < 3 && dir < 2 && k < Rhs ==>
        Tb[At(RowOf(ii, jj) + dir, k)] == NodeRhs(geo, uvals, uderiv, ii, jj, dir, k)
  }

  /** The system matrix lists every node's entries at that node's rows. */
  lemma SystemMatrixByNode(geo: seq<NodeGeometry>)
    requires |geo| == Nodes && (forall n :: 0 <= n < Nodes ==> WellShaped(geo[n]))
    ensures MatrixTable(geo, SystemMatrix(geo))
  {
    var a := SystemMatrix(geo);
    forall ii: nat, jj: nat, dir: nat, i: nat | ii < 3 && jj < 3 && dir < 2 && i < NumEnrich
      ensures a[At(RowOf(ii, jj) + dir, i)] == NodeMatrix(geo, ii, jj, dir, i)
    {
      MatrixEntryOfNode(geo, ii, jj, dir, RowOf(ii, jj) + dir, i);
    }
  }

  /** The system right-hand side lists every node's entries at that
      node's rows. */
  lemma SystemRhsByNode(geo: seq<NodeGeometry>, uvals: seq<real>, uderiv: seq<real>)
    requires ValidInputs(geo, uvals, uderiv)
    ensures RhsTable(geo, uvals, uderiv, SystemRhs(geo, uvals, uderiv))
  {
    var b := SystemRhs(geo, uvals, uderiv);
    forall ii: nat, jj: nat, dir: nat, k: nat | ii < 3 && jj < 3 && dir < 2 && k < Rhs
      ensures b[At(RowOf(ii, jj) + dir, k)] == NodeRhs(geo, uvals, uderiv, ii, jj, dir, k)
    {
      RhsEntryOfNode(geo, uvals, uderiv, ii, jj, dir, RowOf(ii, jj) + dir, k);
    }
  }

  /** The assembly loops of computeElemRecon: A (18 x 7) and b (18 x 6)
      start zeroed, node (ii, jj) fills rows c and c + 1 with c running
      0, 2, ..., 16, and in the end A and b, read column-major, are the
      system's matrix and right-hand sides. */
  method AssembleLeastSquares(geo: seq<NodeGeometry>, uvals: seq<real>, uderiv: seq<real>)
    returns (A: array2<real>, b: array2<real>)
    requires ValidInputs(geo, uvals, uderiv)
    ensures fresh(A) && fresh(b)
    ensures A.Length0 == Rows && A.Length1 == NumEnrich && b.Length0 == Rows && b.Length1 == Rhs
    ensures ColumnMajor(A) == SystemMatrix(geo)
    ensures ColumnMajor(b) == SystemRhs(geo, uvals, uderiv)
  {
    SystemMatrixByNode(geo);
    SystemRhsByNode(geo, uvals, uderiv);
    A, b := AssembleTables(geo, uvals, uderiv, SystemMatrix(geo), SystemRhs(geo, uvals, uderiv));
    SameEntries(ColumnMajor(A), SystemMatrix(geo), NumEnrich);
    SameEntries(ColumnMajor(b), SystemRhs(geo, uvals, uderiv), Rhs);
  }

  /** The two nested loops over jj and ii, checked against any tables TA
      and Tb that list the nodes' entries at their rows. */
  method AssembleTables(geo: seq<NodeGeometry>, uvals: seq<real>, uderiv: seq<real>,
                        ghost TA: seq<real>, ghost Tb: seq<real>)
    returns (A: array2<real>, b: array2<real>)
    requires ValidInputs(geo, uvals, uderiv)
    requires MatrixTable(geo, TA) && RhsTable(geo, uvals, uderiv, Tb)
    ensures fresh(A) && fresh(b)
    ensures A.Length0 == Rows && A.Length1 == NumEnrich && b.Length0 == Rows && b.Length1 == Rhs
    ensures forall r, i :: 0 <= r < Rows && 0 <= i < NumEnrich ==> A[r, i] == TA[At(r, i)]
    ensures forall r, k :: 0 <= r < Rows && 0 <= k < Rhs ==> b[r, k] == Tb[At(r, k)]
  {
    A := new real[Rows, NumEnrich]((_, _) => 0.0);
    b := new real[Rows, Rhs]((_, _) => 0.0);
    for jj := 0 to 3
      invariant forall r, i :: 0 <= r < RowOf(0, jj) && 0 <= i < NumEnrich ==> A[r, i] == TA[At(r, i)]
      invariant forall r, k :: 0 <= r < RowOf(0, jj) && 0 <= k < Rhs ==> b[r, k] == Tb[At(r, k)]
    {
      FillLineRows(geo, uvals, uderiv, jj, A, b, TA, Tb);
    }
  }

  /** The inner loop over ii for one line jj of nodes: rows RowOf(0, jj)
      up to RowOf(0, jj + 1) of A and b are filled, no other rows. */
  method FillLineRows(geo: seq<NodeGeometry>, uvals: seq<real>, uderiv: seq<real>, jj: nat,
                      A: array2<real>, b: array2<real>, ghost TA: seq<real>, ghost Tb: seq<real>)
    requires ValidInputs(geo, uvals, uderiv) && jj < 3
    requires MatrixTable(geo, TA) && RhsTable(geo, uvals, uderiv, Tb)
    requires A.Length0 == Rows && A.Length1 == NumEnrich && b.Length0 == Rows && b.Length1 == Rhs
    requires A != b
    modifies A, b
    ensures forall r, i :: RowOf(0, jj) <= r < RowOf(0, jj + 1) && 0 <= i < NumEnrich ==> A[r, i] == TA[At(r, i)]
    ensures forall r, k :: RowOf(0, jj) <= r < RowOf(0, jj + 1) && 0 <= k < Rhs ==> b[r, k] == Tb[At(r, k)]
    ensures forall r, i :: 0 <= r < Rows && 0 <= i < NumEnrich && !(RowOf(0, jj) <= r < RowOf(0, jj + 1)) ==>
              A[r, i] == old(A[r, i])
    ensures forall r, k :: 0 <= r < Rows && 0 <= k < Rhs && !(RowOf(0, jj) <= r < RowOf(0, jj + 1)) ==>
              b[r, k] == old(b[r, k])
  {
    var c := RowOf(0, jj);
    for ii := 0 to 3
      invariant c == RowOf(ii, jj)
      invariant forall r, i :: RowOf(0, jj) <= r < c && 0 <= i < NumEnrich ==> A[r, i] == TA[At(r, i)]
      invariant forall r, k :: RowOf(0, jj) <= r < c && 0 <= k < Rhs ==> b[r, k] == Tb[At(r, k)]
      invariant forall r, i :: 0 <= r < Rows && 0 <= i < NumEnrich && !(RowOf(0, jj) <= r < c) ==>
                  A[r, i] == old(A[r, i])
      invariant forall r, k :: 0 <= r < Rows && 0 <= k < Rhs && !(RowOf(0, jj) <= r < c) ==>
                  b[r, k] == old(b[r, k])
    {
      FillNodeRows(geo, uvals, uderiv, ii, jj, A, b, TA, Tb);
      c := c + 2;
    }
  }

  /** The body of the node loop: node (ii, jj) writes rows RowOf(ii, jj)
      and RowOf(ii, jj) + 1 of both A and b and no other rows. */
  method FillNodeRows(geo: seq<NodeGeometry>, uvals: seq<real>, uderiv: seq<real>, ii: nat, jj: nat,
                      A: array2<real>, b: array2<real>, ghost TA: seq<real>, ghost Tb: seq<real>)
    requires ValidInputs(geo, uvals, uderiv) && ii < 3 && jj < 3
    requires MatrixTable(geo, TA) && RhsTable(geo, uvals, uderiv, Tb)
    requires A.Length0 == Rows && A.Length1 == NumEnrich && b.Length0 == Rows && b.Length1 == Rhs
    requires A != b
    modifies A, b
    ensures forall r, i :: RowOf(ii, jj) <= r < RowOf(ii, jj) + 2 && 0 <= i < NumEnrich ==> A[r, i] == TA[At(r, i)]
    ensures forall r, k :: RowOf(ii, jj) <= r < RowOf(ii, jj) + 2 && 0 <= k < Rhs ==> b[r, k] == Tb[At(r, k)]
    ensures forall r, i :: 0 <= r < Rows && 0 <= i < NumEnrich && r != RowOf(ii, jj) && r != RowOf(ii, jj) + 1 ==>
              A[r, i] == old(A[r, i])
    ensures forall r, k :: 0 <= r < Rows && 0 <= k < Rhs && r != RowOf(ii, jj) && r != RowOf(ii, jj) + 1 ==>
              b[r, k] == old(b[r, k])
  {
    FillNodeRhs(geo, uvals, uderiv, ii, jj, b, Tb);
    FillNodeMatrix(geo, ii, jj, A, TA);
    var c := RowOf(ii, jj);
    forall r, i | c <= r < c + 2 && 0 <= i < NumEnrich
      ensures A[r, i] == TA[At(r, i)]
    {
      if r == c {
        assert A[c, i] == TA[At(c, i)];
      } else {
        assert A[c, i] == TA[At(c, i)] && A[c + 1, i] == TA[At(c + 1, i)];
      }
    }
    forall r, k | c <= r < c + 2 && 0 <= k < Rhs
      ensures b[r, k] == Tb[At(r, k)]
    {
      if r == c {
        assert b[c, k] == Tb[At(c, k)];
      } else {
        assert b[c, k] == Tb[At(c, k)] && b[c + 1, k] == Tb[At(c + 1, k)];
      }
    }
  }

  /** Node (ii, jj)'s two rows of A hold its entries of the table TA. */
  method FillNodeMatrix(geo: seq<NodeGeometry>, ii: nat, jj: nat, A: array2<real>, ghost TA: seq<real>)
    requires |geo| == Nodes && (forall n :: 0 <= n < Nodes ==> WellShaped(geo[n]))
    requires ii < 3 && jj < 3 && MatrixTable(geo, TA)
    requires A.Length0 == Rows && A.Length1 == NumEnrich
    modifies A
    ensures forall i :: 0 <= i < NumEnrich ==>
              A[RowOf(ii, jj), i] == TA[At(RowOf(ii, jj), i)] && A[RowOf(ii, jj) + 1, i] == TA[At(RowOf(ii, jj) + 1, i)]
    ensures forall r, i :: 0 <= r < Rows && 0 <= i < NumEnrich && r != RowOf(ii, jj) && r != RowOf(ii, jj) + 1 ==>
              A[r, i] == old(A[r, i])
  {
    FillMatrixRows(geo, ii, jj, A);
    forall i | 0 <= i < NumEnrich
      ensures A[RowOf(ii, jj), i] == TA[At(RowOf(ii, jj), i)]
      ensures A[RowOf(ii, jj) + 1, i] == TA[At(RowOf(ii, jj) + 1, i)]
    {
      assert A[RowOf(ii, jj), i] == NodeMatrix(geo, ii, jj, 0, i);
      assert A[RowOf(ii, jj) + 1, i] == NodeMatrix(geo, ii, jj, 1, i);
    }
  }

  /** Node (ii, jj)'s two rows of b hold its entries of the table Tb. */
  method FillNodeRhs(geo: seq<NodeGeometry>, uvals: seq<real>, uderiv: seq<real>, ii: nat, jj: nat,
                     b: array2<real>, ghost Tb: seq<real>)
    requires ValidInputs(geo, uvals, uderiv) && ii < 3 && jj < 3 && RhsTable(geo, uvals, uderiv, Tb)
    requires b.Length0 == Rows && b.Length1 == Rhs
    modifies b
    ensures forall k :: 0 <= k < Rhs ==>
              b[RowOf(ii, jj), k] == Tb[At(RowOf(ii, jj), k)] && b[RowOf(ii, jj) + 1, k] == Tb[At(RowOf(ii, jj) + 1, k)]
    ensures forall r, k :: 0 <= r < Rows && 0 <= k < Rhs && r != RowOf(ii, jj) && r != RowOf(ii, jj) + 1 ==>
              b[r, k] == old(b[r, k])
  {
    FillRhsRows(geo, uvals, uderiv, ii, jj, b);
    forall k | 0 <= k < Rhs
      ensures b[RowOf(ii, jj), k] == Tb[At(RowOf(ii, jj), k)]
      ensures b[RowOf(ii, jj) + 1, k] == Tb[At(RowOf(ii, jj) + 1, k)]
    {
      assert b[RowOf(ii, jj), k] == NodeRhs(geo, uvals, uderiv, ii, jj, 0, k);
      assert b[RowOf(ii, jj) + 1, k] == NodeRhs(geo, uvals, uderiv, ii, jj, 1, k);
    }
  }

  /** Entry i of row r = RowOf(ii, jj) + dir of A is node (ii, jj)'s entry. */
  lemma MatrixEntryOfNode(geo: seq<NodeGeometry>, ii: nat, jj: nat, dir: nat, r: nat, i: nat)
    requires |geo| == Nodes && (forall n :: 0 <= n < Nodes ==> WellShaped(geo[n]))
    requires ii < 3 && jj < 3 && dir < 2 && r == RowOf(ii, jj) + dir && i < NumEnrich
    ensures r < Rows && MatrixEntry(geo, r, i) == NodeMatrix(geo, ii, jj, dir, i)
  {
    RowLayout(ii, jj, dir);
    MatrixEntryOfDecodedRow(geo, ii, jj, dir, r, i);
  }

  /** The same, once the row's decoding is known. */
  lemma MatrixEntryOfDecodedRow(geo: seq<NodeGeometry>, ii: nat, jj: nat, dir: nat, r: nat, i: nat)
    requires |geo| == Nodes && (forall n :: 0 <= n < Nodes ==> WellShaped(geo[n]))
    requires ii < 3 && jj < 3 && dir < 2 && i < NumEnrich
    requires r < Rows && r / 2 % 3 == ii && r / 2 / 3 == jj && r % 2 == dir
    ensures MatrixEntry(geo, r, i) == NodeMatrix(geo, ii, jj, dir, i)
  {
  }

  /** Entry k of row r = RowOf(ii, jj) + dir of b is node (ii, jj)'s entry. */
  lemma RhsEntryOfNode(geo: seq<NodeGeometry>, uvals: seq<real>, uderiv: seq<real>,
                       ii: nat, jj: nat, dir: nat, r: nat, k: nat)
    requires ValidInputs(geo, uvals, uderiv) && ii < 3 && jj < 3 && dir < 2
    requires r == RowOf(ii, jj) + dir && k < Rhs
    ensures r < Rows && RhsEntry(geo, uvals, uderiv, r, k) == NodeRhs(geo, uvals, uderiv, ii, jj, dir, k)
  {
    RowLayout(ii, jj, dir);
    RhsEntryOfDecodedRow(geo, uvals, uderiv, ii, jj, dir, r, k);
  }

  /** The same, once the row's decoding is known. */
  lemma RhsEntryOfDecodedRow(geo: seq<NodeGeometry>, uvals: seq<real>, uderiv: seq<real>,
                             ii: nat, jj: nat, dir: nat, r: nat, k: nat)
    requires ValidInputs(geo, uvals, uderiv) && ii < 3 && jj < 3 && dir < 2 && k < Rhs
    requires r < Rows && r / 2 % 3 == ii && r / 2 / 3 == jj && r % 2 == dir
    ensures RhsEntry(geo, uvals, uderiv, r, k) == NodeRhs(geo, uvals, uderiv, ii, jj, dir, k)
  {
  }

  lemma SameEntries(s: seq<real>, t: seq<real>, cols: nat)
    requires |s| == |t| == Rows * cols
    requires forall r, col :: 0 <= r < Rows && 0 <= col < cols ==> s[At(r, col)] == t[At(r, col)]
    ensures s == t
  {
    forall p | 0 <= p < |s|
      ensures s[p] == t[p]
    {
      assert p == At(p % Rows, p / Rows);
    }
  }

  /** The coefficients read back from the solved right-hand side: entry
      6 i + j of ubar is row i of column j, for the seven rows where dgelss
      leaves the solution. */
  function Solution(b: seq<real>): (u: seq<real>)
    requires |b| == Rows * Rhs
    ensures |u| == NumEnrich * Rhs
    ensures forall i, j :: 0 <= i < NumEnrich && 0 <= j < Rhs ==> u[6 * i + j] == b[At(i, j)]
  {
    seq(NumEnrich * Rhs, t requires 0 <= t < NumEnrich * Rhs => b[At(t / 6, t % 6)])
  }

  /** The copy-out of computeElemRecon, read against the column-major
      storage: the row-major ubar[6 i + j] takes b[18 j + i], entry (i, j)
      of the solved right-hand side. */
  method CopySolution(b: array2<real>) returns (ubar: array<real>)
    requires b.Length0 == Rows && b.Length1 == Rhs
    ensures ubar.Length == NumEnrich * Rhs
    ensures forall i, j :: 0 <= i < NumEnrich && 0 <= j < Rhs ==> ubar[6 * i + j] == ColumnMajor(b)[At(i, j)]
    ensures ubar[..] == Solution(ColumnMajor(b))
  {
    ubar := CopyCoefficients(b);
    SameCoefficients(ubar[..], Solution(ColumnMajor(b)), ColumnMajor(b));
  }

  /** The copy-out loop itself: ubar[6 i + j] := b[i, j] for the first
      seven rows and all six columns. */
  method CopyCoefficients(b: array2<real>) returns (ubar: array<real>)
    requires b.Length0 == Rows && b.Length1 == Rhs
    ensures ubar.Length == NumEnrich * Rhs
    ensures forall i, j :: 0 <= i < NumEnrich && 0 <= j < Rhs ==> ubar[6 * i + j] == b[i, j]
  {
    ubar := new real[NumEnrich * Rhs];
    for i := 0 to NumEnrich
      invariant forall i', j :: 0 <= i' < i && 0 <= j < Rhs ==> ubar[6 * i' + j] == b[i', j]
    {
      for j := 0 to Rhs
        invariant forall i', j' :: 0 <= i' < i && 0 <= j' < Rhs ==> ubar[6 * i' + j'] == b[i', j']
        invariant forall j' :: 0 <= j' < j ==> ubar[6 * i + j'] == b[i, j']
      {
        ubar[6 * i + j] := b[i, j];
      }
    }
  }

  /** Two coefficient arrays that both hold entry (i, j) of the same
      column-major s at every 6 i + j are equal. */
  lemma SameCoefficients(u: seq<real>, v: seq<real>, s: seq<real>)
    requires |u| == |v| == NumEnrich * Rhs && |s| == Rows * Rhs
    requires forall i, j :: 0 <= i < NumEnrich && 0 <= j < Rhs ==> u[6 * i + j] == s[At(i, j)]
    requires forall i, j :: 0 <= i < NumEnrich && 0 <= j < Rhs ==> v[6 * i + j] == s[At(i, j)]
    ensures u == v
  {
    forall t | 0 <= t < |u|
      ensures u[t] == v[t]
    {
      var i, j := t / 6, t % 6;
      assert i < NumEnrich && j < Rhs && t == 6 * i + j;
      assert u[6 * i + j] == s[At(i, j)] == v[6 * i + j];
    }
  }

  /** computeElemRecon: assemble the system, let the least-squares solver
      overwrite b with its solution (dgelss is a parameter here, acting on
      the column-major storage) and read the seven coefficients of every
      component out of it. */
  method ComputeElemRecon(geo: seq<NodeGeometry>, uvals: seq<real>, uderiv: seq<real>,
                          dgelss: (seq<real>, seq<real>) -> seq<real>)
    returns (ubar: array<real>)
    requires ValidInputs(geo, uvals, uderiv)
    requires |dgelss(SystemMatrix(geo), SystemRhs(geo, uvals, uderiv))| == Rows * Rhs
    ensures ubar[..] == Solution(dgelss(SystemMatrix(geo), SystemRhs(geo, uvals, uderiv)))
  {
    var A, b := AssembleLeastSquares(geo, uvals, uderiv);
    var solved := dgelss(ColumnMajor(A), ColumnMajor(b));
    forall r, k | 0 <= r < Rows && 0 <= k < Rhs {
      b[r, k] := solved[At(r, k)];
    }
    SameEntries(ColumnMajor(b), solved, Rhs);
    ubar := CopySolution(b);
  }

  /** Where the prescribed derivative at every node is already the
      derivative of the quadratic interpolant, the whole right-hand side is
      zero: the enrichment only corrects what the interpolant gets wrong. */
  lemma ConsistentRhsVanishes(geo: seq<NodeGeometry>, uvals: seq<real>, uderiv: seq<real>)
    requires ValidInputs(geo, uvals, uderiv)
    requires forall node, k :: 0 <= node < Nodes && 0 <= k < Rhs ==>
               Prescribed(uderiv, node, k) == InterpGrad(geo[node], uvals, k)
    ensures SystemRhs(geo, uvals, uderiv) == seq(Rows * Rhs, _ => 0.0)
  {
    var b := SystemRhs(geo, uvals, uderiv);
    forall r, k | 0 <= r < Rows && 0 <= k < Rhs
      ensures b[At(r, k)] == 0.0
    {
      RowsCovered(r);
    }
    SameEntries(b, seq(Rows * Rhs, _ => 0.0), Rhs);
  }

  /** The last enrichment function ca cb has zero gradient at every node,
      so its column of A is zero: the nodal least-squares problem cannot
      determine its coefficient (dgelss then returns the minimum-norm
      solution). */
  lemma LastColumnVanishes(geo: seq<NodeGeometry>, r: nat)
    requires |geo| == Nodes && (forall n :: 0 <= n < Nodes ==> WellShaped(geo[n]))
    requires r < Rows
    ensures SystemMatrix(geo)[At(r, NumEnrich - 1)] == 0.0
  {
    RowsCovered(r);
    var ii, jj, dir := r / 2 % 3, r / 2 / 3, r % 2;
    assert SystemMatrix(geo)[At(r, NumEnrich - 1)] == NodeMatrix(geo, ii, jj, dir, NumEnrich - 1);
    NodeIsNodeCoord(ii, jj);
    LastSlopesVanish(NodePoint(ii, jj));
    var g := geo[ii + 3 * jj];
    FlatGradientEntry(Weight(ii, jj), Tangent(g, dir), g.j);
  }

  /** A node's parametric location has node coordinates on both axes. */
  lemma NodeIsNodeCoord(ii: nat, jj: nat)
    requires ii < 3 && jj < 3
    ensures IsNodeCoord(NodePoint(ii, jj).xi) && IsNodeCoord(NodePoint(ii, jj).eta)
  {
  }

  /** A zero parametric gradient gives a zero entry of the system. */
  lemma FlatGradientEntry(w: real, d: seq<real>, j: seq<real>)
    requires |d| == 3 && |j| == 9
    ensures Project(w, d, ToPhysical(j, 0.0, 0.0)) == 0.0
  {
  }

  /** The copy reads only the first seven rows of b (where dgelss leaves
      the solution); the residual rows below do not matter. */
  lemma SolutionIgnoresResidualRows(b1: seq<real>, b2: seq<real>)
    requires |b1| == Rows * Rhs && |b2| == Rows * Rhs
    requires forall i, j :: 0 <= i < NumEnrich && 0 <= j < Rhs ==> b1[At(i, j)] == b2[At(i, j)]
    ensures Solution(b1) == Solution(b2)
  {
  }
}
