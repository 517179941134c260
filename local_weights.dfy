/**
 * computeLocalWeights: the nodal averaging weights used when recovering
 * nodal derivatives. Every element is a 9-node bi-quadratic element; it adds
 * a unit weight to each of its 9 node slots, so a node's weight is the number
 * of element slots that reference it.
 *
 * Connectivity is given per element as 9 local node indices in 0..size-1,
 * where `size` counts the independent and the dependent nodes together.
 */
module LocalWeights {
  import opened Counting
  import opened Assembly

  /** Nodes of a bi-quadratic element. */
  const NodesPerElement: nat := 9

  /** Every element lists exactly 9 local node indices below `size`. */
  predicate ValidConnectivity(conn: seq<seq<int>>, size: nat)
  {
    forall e :: 0 <= e < |conn| ==> |conn[e]| == NodesPerElement && InRange(conn[e], size)
  }

  /** The local weight loop: zero the weights, then add a unit weight per
      element slot. Afterwards each node's weight is the number of slots,
      over all elements, that name it. */
  method ComputeLocalWeights(conn: seq<seq<int>>, size: nat) returns (wlocal: array<real>)
    requires ValidConnectivity(conn, size)
    ensures wlocal.Length == size
    ensures forall v :: 0 <= v < size ==> wlocal[v] == Count(Concat(conn), v) as real
    ensures wlocal[..] == Weights(conn, size)
  {
    wlocal := new real[size](_ => 0.0);
    var welem := seq(NodesPerElement, _ => 1.0);
    var i := 0;
    while i < |conn|
      invariant 0 <= i <= |conn|
      invariant forall v :: 0 <= v < size ==> wlocal[v] == Count(Concat(conn[..i]), v) as real
    {
      AddValues(conn[i], welem, wlocal);
      forall v | 0 <= v < size
        ensures wlocal[v] == Count(Concat(conn[..i + 1]), v) as real
      {
        UnitSlotSum(conn[i], welem, v);
        assert conn[..i + 1][..i] == conn[..i];
        CountAppend(Concat(conn[..i]), conn[i], v);
      }
      i := i + 1;
    }
    assert conn[..i] == conn;
  }

  /** The nodal weights as values: the tally of all element slots. */
  function Weights(conn: seq<seq<int>>, size: nat): (w: seq<real>)
    ensures |w| == size
  {
    seq(size, v => Count(Concat(conn), v) as real)
  }

  lemma {:induction false} SlotsLength(conn: seq<seq<int>>, size: nat)
    requires ValidConnectivity(conn, size)
    ensures |Concat(conn)| == NodesPerElement * |conn|
    ensures InRange(Concat(conn), size)
    decreases |conn|
  {
    if conn != [] {
      var n := |conn| - 1;
      SlotsLength(conn[..n], size);
    }
  }

  /** Unit weights are conserved: the node weights add up to 9 per
      element. */
  lemma WeightsTotal(conn: seq<seq<int>>, size: nat)
    requires ValidConnectivity(conn, size)
    ensures SumR(Weights(conn, size)) == (NodesPerElement * |conn|) as real
  {
    SlotsLength(conn, size);
    TallyTotal(Concat(conn), size);
    TallyAsReal(Tally(Concat(conn), size));
    assert Weights(conn, size) == seq(size, v requires 0 <= v < size => Tally(Concat(conn), size)[v] as real);
  }

  /** Summing naturals as reals agrees with summing them as integers. */
  lemma {:induction false} TallyAsReal(t: seq<nat>)
    ensures SumR(seq(|t|, v requires 0 <= v < |t| => t[v] as real)) == Sum(t) as real
    decreases |t|
  {
    if t != [] {
      var n := |t| - 1;
      assert seq(|t|, v requires 0 <= v < |t| => t[v] as real)[..n]
             == seq(n, v requires 0 <= v < n => t[..n][v] as real);
      TallyAsReal(t[..n]);
    }
  }

  /** Every node an element references has weight at least one, so the
      reciprocal 1/welem taken when averaging nodal derivatives is
      defined. */
  lemma ReferencedNodeWeight(conn: seq<seq<int>>, size: nat, e: nat, k: nat)
    requires ValidConnectivity(conn, size) && e < |conn| && k < NodesPerElement
    ensures 0 <= conn[e][k] < size
    ensures Weights(conn, size)[conn[e][k]] >= 1.0
  {
    SlotOccurs(conn, e, k);
  }

  lemma {:induction false} SlotOccurs(conn: seq<seq<int>>, e: nat, k: nat)
    requires e < |conn| && k < |conn[e]|
    ensures Count(Concat(conn), conn[e][k]) >= 1
    decreases |conn|
  {
    var n := |conn| - 1;
    CountAppend(Concat(conn[..n]), conn[n], conn[e][k]);
    if e < n {
      SlotOccurs(conn[..n], e, k);
    } else {
      OccursCounted(conn[n], k);
    }
  }

  lemma {:induction false} OccursCounted(a: seq<int>, k: nat)
    requires k < |a|
    ensures Count(a, a[k]) >= 1
    decreases |a|
  {
    if k < |a| - 1 {
      OccursCounted(a[..|a| - 1], k);
    }
  }

  /** A node no element references keeps weight zero. */
  lemma UnreferencedNodeWeight(conn: seq<seq<int>>, size: nat, v: nat)
    requires v < size
    requires forall e, k :: 0 <= e < |conn| && 0 <= k < |conn[e]| ==> conn[e][k] != v
    ensures Weights(conn, size)[v] == 0.0
  {
    AbsentNotCounted(conn, v);
  }

  lemma {:induction false} AbsentNotCounted(conn: seq<seq<int>>, v: int)
    requires forall e, k :: 0 <= e < |conn| && 0 <= k < |conn[e]| ==> conn[e][k] != v
    ensures Count(Concat(conn), v) == 0
    decreases |conn|
  {
    if conn != [] {
      var n := |conn| - 1;
      CountAppend(Concat(conn[..n]), conn[n], v);
      AbsentNotCounted(conn[..n], v);
      AbsentBlock(conn[n], v);
    }
  }

  lemma {:induction false} AbsentBlock(a: seq<int>, v: int)
    requires forall k :: 0 <= k < |a| ==> a[k] != v
    ensures Count(a, v) == 0
    decreases |a|
  {
    if a != [] {
      AbsentBlock(a[..|a| - 1], v);
    }
  }

  /** The reverse ADD across ranks: when every rank's connectivity is
      written in a shared node numbering, adding the ranks' weight vectors
      gives the weights of all elements together. */
  lemma {:induction false} ReverseAddWeights(conns: seq<seq<seq<int>>>, size: nat, v: nat)
    requires v < size
    ensures SumR(seq(|conns|, r requires 0 <= r < |conns| => Weights(conns[r], size)[v]))
            == Weights(AllElements(conns), size)[v]
    decreases |conns|
  {
    if conns != [] {
      var n := |conns| - 1;
      assert seq(|conns|, r requires 0 <= r < |conns| => Weights(conns[r], size)[v])[..n]
             == seq(n, r requires 0 <= r < n => Weights(conns[..n][r], size)[v]);
      ReverseAddWeights(conns[..n], size, v);
      ConcatAppend(AllElements(conns[..n]), conns[n]);
      CountAppend(Concat(AllElements(conns[..n])), Concat(conns[n]), v);
    }
  }

  /** All ranks' elements, rank after rank. */
  function AllElements(conns: seq<seq<seq<int>>>): seq<seq<int>>
  {
    if conns == [] then [] else AllElements(conns[..|conns| - 1]) + conns[|conns| - 1]
  }
}
