/**
 * Element-to-node scatter and node-to-element gather over a connectivity,
 * as TACSAssembler::addValues and TACSAssembler::getValues do for the error
 * indicators: each element lists the vector slots it touches, addValues adds
 * the element's values into those slots and getValues reads them back.
 *
 * The assembled vector is taken in one shared slot numbering: the parallel
 * reverse-add and forward scatter that make it so are not part of this model.
 */
module Assembly {
  import opened Counting
  import opened Vectors

  /** What the values scattered through `slots` put on slot v. */
  function SlotSum(slots: seq<int>, values: seq<real>, v: int): real
    requires |slots| == |values|
  {
    if slots == [] then 0.0
    else
      var n := |slots| - 1;
      SlotSum(slots[..n], values[..n], v) + (if slots[n] == v then values[n] else 0.0)
  }

  /** Element connectivities and their values have matching shapes. */
  predicate Shaped(conn: seq<seq<int>>, values: seq<seq<real>>)
  {
    |conn| == |values| && forall e :: 0 <= e < |conn| ==> |conn[e]| == |values[e]|
  }

  /** What all elements together scatter onto slot v. */
  function Assembled(conn: seq<seq<int>>, values: seq<seq<real>>, v: int): real
    requires Shaped(conn, values)
  {
    if conn == [] then 0.0
    else
      var n := |conn| - 1;
      Assembled(conn[..n], values[..n], v) + SlotSum(conn[n], values[n], v)
  }

  /** TACSAssembler::addValues: add one element's values into its slots. */
  method AddValues(slots: seq<int>, values: seq<real>, vec: array<real>)
    requires |slots| == |values| && InRange(slots, vec.Length)
    modifies vec
    ensures forall v :: 0 <= v < vec.Length ==> vec[v] == old(vec[v]) + SlotSum(slots, values, v)
  {
    var j := 0;
    while j < |slots|
      invariant 0 <= j <= |slots|
      invariant forall v :: 0 <= v < vec.Length ==> vec[v] == old(vec[v]) + SlotSum(slots[..j], values[..j], v)
    {
      assert slots[..j + 1][..j] == slots[..j] && values[..j + 1][..j] == values[..j];
      vec[slots[j]] := vec[slots[j]] + values[j];
      j := j + 1;
    }
    assert slots[..j] == slots && values[..j] == values;
  }

  /** TACSAssembler::getValues: the element's view of a slot vector. */
  function GetValues(slots: seq<int>, vec: seq<real>): (r: seq<real>)
    requires InRange(slots, |vec|)
    ensures |r| == |slots|
    ensures forall j :: 0 <= j < |slots| ==> r[j] == vec[slots[j]]
  {
    seq(|slots|, j requires 0 <= j < |slots| => vec[slots[j]])
  }

  /** Unit values scatter to occurrence counts. */
  lemma {:induction false} UnitSlotSum(slots: seq<int>, values: seq<real>, v: int)
    requires |slots| == |values| && forall j :: 0 <= j < |values| ==> values[j] == 1.0
    ensures SlotSum(slots, values, v) == Count(slots, v) as real
    decreases |slots|
  {
    if slots != [] {
      var n := |slots| - 1;
      UnitSlotSum(slots[..n], values[..n], v);
    }
  }

  lemma {:induction false} SlotSumNonneg(slots: seq<int>, values: seq<real>, v: int)
    requires |slots| == |values| && forall j :: 0 <= j < |values| ==> values[j] >= 0.0
    ensures SlotSum(slots, values, v) >= 0.0
    decreases |slots|
  {
    if slots != [] {
      var n := |slots| - 1;
      SlotSumNonneg(slots[..n], values[..n], v);
    }
  }

  /** With non-negative values a slot receives at least every value aimed
      at it. */
  lemma {:induction false} SlotSumCovers(slots: seq<int>, values: seq<real>, j: nat)
    requires |slots| == |values| && j < |slots|
    requires forall k :: 0 <= k < |values| ==> values[k] >= 0.0
    ensures SlotSum(slots, values, slots[j]) >= values[j]
    decreases |slots|
  {
    var n := |slots| - 1;
    if j < n {
      SlotSumCovers(slots[..n], values[..n], j);
    } else {
      SlotSumNonneg(slots[..n], values[..n], slots[j]);
    }
  }

  lemma {:induction false} AssembledNonneg(conn: seq<seq<int>>, values: seq<seq<real>>, v: int)
    requires Shaped(conn, values)
    requires forall e, k :: 0 <= e < |values| && 0 <= k < |values[e]| ==> values[e][k] >= 0.0
    ensures Assembled(conn, values, v) >= 0.0
    decreases |conn|
  {
    if conn != [] {
      var n := |conn| - 1;
      AssembledNonneg(conn[..n], values[..n], v);
      SlotSumNonneg(conn[n], values[n], v);
    }
  }

  /** With non-negative values the assembled vector holds, in every slot,
      at least what any single element put there. */
  lemma {:induction false} AssembledCovers(conn: seq<seq<int>>, values: seq<seq<real>>, e: nat, j: nat)
    requires Shaped(conn, values) && e < |conn| && j < |conn[e]|
    requires forall e', k :: 0 <= e' < |values| && 0 <= k < |values[e']| ==> values[e'][k] >= 0.0
    ensures Assembled(conn, values, conn[e][j]) >= values[e][j]
    decreases |conn|
  {
    var n := |conn| - 1;
    if e < n {
      AssembledCovers(conn[..n], values[..n], e, j);
      SlotSumNonneg(conn[n], values[n], conn[e][j]);
    } else {
      AssembledNonneg(conn[..n], values[..n], conn[e][j]);
      SlotSumCovers(conn[n], values[n], j);
    }
  }

  /** With non-negative values each element reads back from the assembled
      vector at least the total it contributed. */
  lemma ElementReadsOwnShare(conn: seq<seq<int>>, values: seq<seq<real>>, size: nat, vec: seq<real>, e: nat)
    requires Shaped(conn, values) && e < |conn| && InRange(conn[e], size)
    requires forall e', k :: 0 <= e' < |values| && 0 <= k < |values[e']| ==> values[e'][k] >= 0.0
    requires |vec| == size && forall v :: 0 <= v < size ==> vec[v] == Assembled(conn, values, v)
    ensures SumR(GetValues(conn[e], vec)) >= SumR(values[e])
  {
    var got := GetValues(conn[e], vec);
    forall j | 0 <= j < |got|
      ensures got[j] >= values[e][j]
    {
      AssembledCovers(conn, values, e, j);
    }
    SumRMono(values[e], got);
  }

  /** Termwise domination carries over to the sums. */
  lemma {:induction false} SumRMono(s: seq<real>, t: seq<real>)
    requires |s| == |t| && forall j :: 0 <= j < |s| ==> s[j] <= t[j]
    ensures SumR(s) <= SumR(t)
    decreases |s|
  {
    if s != [] {
      SumRMono(s[..|s| - 1], t[..|t| - 1]);
    }
  }

  /** Scattering a sum of value vectors through the same slots is the sum
      of the two scatters. */
  lemma {:induction false} SlotSumAdd(slots: seq<int>, a: seq<real>, b: seq<real>, v: int)
    requires |slots| == |a| == |b|
    ensures SlotSum(slots, Add(a, b), v) == SlotSum(slots, a, v) + SlotSum(slots, b, v)
    decreases |slots|
  {
    if slots != [] {
      var n := |slots| - 1;
      assert Add(a, b)[..n] == Add(a[..n], b[..n]);
      SlotSumAdd(slots[..n], a[..n], b[..n], v);
    }
  }
}
