/**
 * The refinement-flag protocol of refineQuadMesh (examples/forrest/forrest.c).
 *
 * Every rank holds one flag per local element, in the order its elements
 * were enumerated when the partition was produced.  The root gathers the
 * per-rank counts, forms their exclusive prefix sum, gathers all flags
 * rank after rank (an MPI_Gatherv is concatenation in rank order here),
 * walks the global partition map with one read cursor per rank to put the
 * flags back into global element order, normalises every flag to 0/1, and
 * hands each quadtree the contiguous run of flags that belongs to it.
 */
module RefineProtocol {
  import opened Counting

  /** Exclusive prefix sum: where the block of rank (or tree) p starts. */
  function Offset(counts: seq<int>, p: nat): int
    requires p <= |counts|
  {
    Sum(counts[..p])
  }

  /** Normalisation of a gathered value: only an exact 1 requests refinement. */
  function Flag(v: int): (r: int)
    ensures r == 0 || r == 1
    ensures r == 1 <==> v == 1
  {
    if v == 1 then 1 else 0
  }

  /** The ordering invariant refineQuadMesh relies on but never checks:
      every partition entry names an existing rank, and each rank
      contributed exactly as many flags as the partition gives it. */
  predicate PartitionConsistent(locals: seq<seq<int>>, partition: seq<int>)
  {
    InRange(partition, |locals|) &&
    forall p :: 0 <= p < |locals| ==> |locals[p]| == Count(partition, p)
  }

  // The buffer the root receives from MPI_Gatherv is Concat(locals): the
  // ranks' local flags one block after another, in rank order.

  /** Block p of the gathered buffer starts at Offset(Lengths(locals), p),
      and its k-th entry is the k-th flag of rank p. */
  lemma {:induction false} GatherAt(locals: seq<seq<int>>, p: nat, k: nat)
    requires p < |locals| && k < |locals[p]|
    ensures |Concat(locals)| == Sum(Lengths(locals))
    ensures 0 <= Offset(Lengths(locals), p)
    ensures Offset(Lengths(locals), p) + k < |Concat(locals)|
    ensures Concat(locals)[Offset(Lengths(locals), p) + k] == locals[p][k]
    decreases |locals|
  {
    var n := |locals| - 1;
    var front := locals[..n];
    assert Lengths(locals)[..n] == Lengths(front);
    ConcatLength(front);
    SumNonneg(Lengths(locals)[..p]);
    if p < n {
      GatherAt(front, p, k);
      assert Lengths(locals)[..p] == Lengths(front)[..p];
    } else {
      assert Lengths(locals)[..p] == Lengths(front);
    }
  }

  /** Under the ordering invariant the per-rank counts are exactly the
      histogram of the partition, so they add up to the number of global
      elements. */
  lemma CountsTotal(locals: seq<seq<int>>, partition: seq<int>)
    requires PartitionConsistent(locals, partition)
    ensures Lengths(locals) == Tally(partition, |locals|)
    ensures Sum(Lengths(locals)) == |partition|
    ensures |Concat(locals)| == |partition|
  {
    TallyTotal(partition, |locals|);
    ConcatLength(locals);
  }

  /** Global element i is the Rank(partition, i)-th element of its rank, so
      its gathered flag sits at that rank's offset plus its rank. */
  lemma ReadIndexInBlock(locals: seq<seq<int>>, partition: seq<int>, i: nat)
    requires PartitionConsistent(locals, partition)
    requires i < |partition|
    ensures Rank(partition, i) < |locals[partition[i]]|
    ensures 0 <= Offset(Lengths(locals), partition[i])
    ensures Offset(Lengths(locals), partition[i]) + Rank(partition, i) < |Concat(locals)|
    ensures Concat(locals)[Offset(Lengths(locals), partition[i]) + Rank(partition, i)]
            == locals[partition[i]][Rank(partition, i)]
  {
    RankBound(partition, i);
    GatherAt(locals, partition[i], Rank(partition, i));
  }

  /** Every rank's offset: the exclusive prefix sums of the counts. */
  function Offsets(counts: seq<int>): (r: seq<int>)
    ensures |r| == |counts|
  {
    seq(|counts|, p requires 0 <= p < |counts| => Offset(counts, p))
  }

  /** Read cursors that start at `start` stay inside `refine` while the walk
      advances each rank's cursor once per partition entry naming it. */
  predicate CursorsFit(refine: seq<int>, partition: seq<int>, start: seq<int>)
  {
    InRange(partition, |start|) &&
    forall p :: 0 <= p < |start| ==> 0 <= start[p] && start[p] + Count(partition, p) <= |refine|
  }

  /** The read cursors after the walk has passed the first i partition
      entries: each entry advances the cursor of the rank it names. */
  function Cursors(start: seq<int>, partition: seq<int>, i: nat): (r: seq<int>)
    requires i <= |partition| && InRange(partition, |start|)
    ensures |r| == |start|
  {
    if i == 0 then start
    else
      var c := Cursors(start, partition, i - 1);
      c[partition[i - 1] := c[partition[i - 1]] + 1]
  }

  /** Closed form of the cursors: start plus the occurrences seen so far. */
  lemma {:induction false} CursorsCount(start: seq<int>, partition: seq<int>, i: nat)
    requires i <= |partition| && InRange(partition, |start|)
    ensures forall p :: 0 <= p < |start| ==> Cursors(start, partition, i)[p] == start[p] + Count(partition[..i], p)
  {
    if i > 0 {
      CursorsCount(start, partition, i - 1);
      forall p | 0 <= p < |start|
        ensures Count(partition[..i], p) == Count(partition[..i - 1], p) + (if partition[i - 1] == p then 1 else 0)
      {
        CountStep(partition, i - 1, p);
      }
    }
  }

  /** The cursor element i reads is its rank's start plus Rank(partition, i),
      which lies inside `refine`. */
  lemma CursorRead(refine: seq<int>, partition: seq<int>, start: seq<int>, i: nat)
    requires CursorsFit(refine, partition, start) && i < |partition|
    ensures Cursors(start, partition, i)[partition[i]] == start[partition[i]] + Rank(partition, i)
    ensures 0 <= Cursors(start, partition, i)[partition[i]] < |refine|
  {
    CursorsCount(start, partition, i);
    RankBound(partition, i);
  }

  /** The flags the partition walk writes for the first i elements, in the
      order the loop visits them. */
  function WalkPrefix(refine: seq<int>, partition: seq<int>, start: seq<int>, i: nat): (r: seq<int>)
    requires CursorsFit(refine, partition, start) && i <= |partition|
    ensures |r| == i
  {
    if i == 0 then []
    else
      CursorRead(refine, partition, start, i - 1);
      WalkPrefix(refine, partition, start, i - 1)
        + [Flag(refine[Cursors(start, partition, i - 1)[partition[i - 1]]])]
  }

  /** The partition walk over a gathered buffer. */
  function Walk(refine: seq<int>, partition: seq<int>, start: seq<int>): (r: seq<int>)
    requires CursorsFit(refine, partition, start)
    ensures |r| == |partition|
  {
    WalkPrefix(refine, partition, start, |partition|)
  }

  /** Element j of the walk is the flag at its rank's start plus its rank
      among that rank's elements. */
  lemma {:induction false} WalkAt(refine: seq<int>, partition: seq<int>, start: seq<int>, i: nat, j: nat)
    requires CursorsFit(refine, partition, start) && j < i <= |partition|
    ensures 0 <= start[partition[j]] + Rank(partition, j) < |refine|
    ensures WalkPrefix(refine, partition, start, i)[j] == Flag(refine[start[partition[j]] + Rank(partition, j)])
  {
    CursorRead(refine, partition, start, j);
    if j < i - 1 {
      WalkAt(refine, partition, start, i - 1, j);
    }
  }

  /** The flag array in global element order that refineQuadMesh builds:
      the partition walk over the gathered flags from the prefix offsets. */
  function Reordered(locals: seq<seq<int>>, partition: seq<int>): (r: seq<int>)
    requires PartitionConsistent(locals, partition)
    ensures |r| == |partition|
    ensures forall i :: 0 <= i < |partition| ==>
              Rank(partition, i) < |locals[partition[i]]| &&
              r[i] == Flag(locals[partition[i]][Rank(partition, i)])
  {
    OffsetsFitBlocks(locals, partition);
    WalkReadsOwnFlag(locals, partition);
    Walk(Concat(locals), partition, Offsets(Lengths(locals)))
  }

  /** Walking the gathered buffer from the prefix offsets, element i reads
      the Rank(partition, i)-th flag of its own rank. */
  lemma WalkReadsOwnFlag(locals: seq<seq<int>>, partition: seq<int>)
    requires PartitionConsistent(locals, partition)
    ensures CursorsFit(Concat(locals), partition, Offsets(Lengths(locals)))
    ensures forall i :: 0 <= i < |partition| ==>
              Rank(partition, i) < |locals[partition[i]]| &&
              Walk(Concat(locals), partition, Offsets(Lengths(locals)))[i]
              == Flag(locals[partition[i]][Rank(partition, i)])
  {
    OffsetsFitBlocks(locals, partition);
    forall i | 0 <= i < |partition|
      ensures Rank(partition, i) < |locals[partition[i]]|
      ensures Walk(Concat(locals), partition, Offsets(Lengths(locals)))[i]
              == Flag(locals[partition[i]][Rank(partition, i)])
    {
      WalkReadsOwnFlagAt(locals, partition, Concat(locals), Offsets(Lengths(locals)), i);
    }
  }

  lemma WalkReadsOwnFlagAt(locals: seq<seq<int>>, partition: seq<int>, g: seq<int>, o: seq<int>, i: nat)
    requires PartitionConsistent(locals, partition) && i < |partition|
    requires g == Concat(locals) && o == Offsets(Lengths(locals)) && CursorsFit(g, partition, o)
    ensures Rank(partition, i) < |locals[partition[i]]|
    ensures Walk(g, partition, o)[i] == Flag(locals[partition[i]][Rank(partition, i)])
  {
    ReadIndexInBlock(locals, partition, i);
    assert o[partition[i]] == Offset(Lengths(locals), partition[i]);
    WalkAt(g, partition, o, |partition|, i);
  }

  /** The run of `refinement` each tree is given: tree t gets counts[t]
      flags starting after the flags of trees 0..t-1. */
  function Slices(refinement: seq<int>, counts: seq<nat>): (r: seq<seq<int>>)
    requires Sum(counts) <= |refinement|
    ensures |r| == |counts|
  {
    seq(|counts|, t requires 0 <= t < |counts| =>
      SlicePrefixBound(counts, t);
      refinement[Offset(counts, t)..Offset(counts, t) + counts[t]])
  }

  lemma SlicePrefixBound(counts: seq<nat>, t: nat)
    requires t < |counts|
    ensures 0 <= Offset(counts, t)
    ensures Offset(counts, t) + counts[t] == Offset(counts, t + 1) <= Sum(counts)
  {
    SumStep(counts, t);
    SumPrefixBound(counts, t + 1);
    SumNonneg(counts[..t]);
  }

  /** Under the ordering invariant, every rank's block of the gathered
      buffer lies inside the buffer. */
  lemma OffsetsFitBlocks(locals: seq<seq<int>>, partition: seq<int>)
    requires PartitionConsistent(locals, partition)
    ensures CursorsFit(Concat(locals), partition, Offsets(Lengths(locals)))
  {
    CountsTotal(locals, partition);
    var counts := Lengths(locals);
    forall p | 0 <= p < |locals|
      ensures 0 <= Offset(counts, p) && Offset(counts, p) + counts[p] <= Sum(counts)
    {
      BlockInside(counts, p);
    }
  }

  /** Each block lies between zero and the total. */
  lemma BlockInside(counts: seq<int>, p: nat)
    requires p < |counts| && forall k :: 0 <= k < |counts| ==> counts[k] >= 0
    ensures 0 <= Offset(counts, p) && Offset(counts, p) + counts[p] <= Sum(counts)
  {
    SumNonneg(counts[..p]);
    SumPrefixBound(counts, p + 1);
    SumStep(counts, p);
  }

  // ---------------------------------------------------------------------
  // The root's loops
  // ---------------------------------------------------------------------

  /** Consecutive offsets differ by the count of the earlier rank. */
  lemma OffsetsStep(counts: seq<int>)
    ensures forall k :: 0 <= k < |counts| - 1 ==> Offsets(counts)[k + 1] == Offsets(counts)[k] + counts[k]
  {
    forall k | 0 <= k < |counts| - 1
      ensures Offsets(counts)[k + 1] == Offsets(counts)[k] + counts[k]
    {
      SumStep(counts, k);
    }
  }

  /** elem_proc_offset: the exclusive prefix sum of elems_per_proc. */
  method PrefixOffsets(elemsPerProc: array<int>) returns (offset: array<int>)
    requires elemsPerProc.Length >= 1
    ensures fresh(offset)
    ensures offset.Length == elemsPerProc.Length
    ensures offset[0] == 0
    ensures forall i :: 0 <= i < offset.Length - 1 ==> offset[i + 1] == offset[i] + elemsPerProc[i]
    ensures offset[..] == Offsets(elemsPerProc[..])
  {
    ghost var counts := elemsPerProc[..];
    offset := new int[elemsPerProc.Length];
    offset[0] := 0;
    var i := 0;
    while i < elemsPerProc.Length - 1
      invariant 0 <= i <= elemsPerProc.Length - 1
      invariant forall p :: 0 <= p <= i ==> offset[p] == Offset(counts, p)
    {
      SumStep(counts, i);
      offset[i + 1] := offset[i] + elemsPerProc[i];
      i := i + 1;
    }
    assert offset[..] == Offsets(counts);
    OffsetsStep(counts);
  }

  /** The partition walk: element i takes the next unread flag of its rank
      (elem_proc_offset doubles as the per-rank read cursor) and advances
      that rank's cursor; only an exact 1 is kept as a refine request. */
  method ReorderFlags(refine: seq<int>, partition: seq<int>, cursor: array<int>)
    returns (refinement: array<int>)
    requires CursorsFit(refine, partition, cursor[..])
    modifies cursor
    ensures fresh(refinement)
    ensures refinement[..] == Walk(refine, partition, old(cursor[..]))
    ensures cursor[..] == Cursors(old(cursor[..]), partition, |partition|)
  {
    ghost var start := cursor[..];
    refinement := new int[|partition|];
    var i := 0;
    while i < |partition|
      invariant 0 <= i <= |partition|
      invariant cursor[..] == Cursors(start, partition, i)
      invariant refinement[..i] == WalkPrefix(refine, partition, start, i)
    {
      var proc := partition[i];
      CursorRead(refine, partition, start, i);
      var index := cursor[proc];
      cursor[proc] := cursor[proc] + 1;
      if refine[index] == 1 {
        refinement[i] := 1;
      } else {
        refinement[i] := 0;
      }
      assert refinement[..i + 1] == refinement[..i] + [refinement[i]];
      i := i + 1;
    }
    assert refinement[..] == refinement[..i];
  }

  /** The loop over the quadtrees: tree t is handed the flags starting at
      the running offset, and the offset advances by the tree's count. */
  method SliceByTree(refinement: array<int>, treeElems: seq<nat>) returns (treeFlags: seq<seq<int>>)
    requires Sum(treeElems) <= refinement.Length
    ensures treeFlags == Slices(refinement[..], treeElems)
  {
    ghost var slices := Slices(refinement[..], treeElems);
    treeFlags := [];
    var i, offset := 0, 0;
    while i < |treeElems|
      invariant 0 <= i <= |treeElems|
      invariant offset == Offset(treeElems, i)
      invariant treeFlags == slices[..i]
    {
      var nlocal := treeElems[i];
      SlicePrefixBound(treeElems, i);
      treeFlags := treeFlags + [refinement[offset..offset + nlocal]];
      offset := offset + nlocal;
      i := i + 1;
    }
  }

  /** refineQuadMesh as run on the root: from the ranks' local flags to the
      flags each quadtree is asked to refine with.  The per-tree min/max
      level clamp happens inside the tree and is not part of this model. */
  method RefineQuadMesh(refineLocal: seq<seq<int>>, ntotal: int, partition: seq<int>,
                        treeElems: seq<nat>)
    returns (treeFlags: seq<seq<int>>)
    requires |refineLocal| >= 1
    requires ntotal == |partition|
    requires PartitionConsistent(refineLocal, partition)
    requires Sum(treeElems) <= ntotal
    ensures treeFlags == Slices(Reordered(refineLocal, partition), treeElems)
  {
    var mpiSize := |refineLocal|;
    // MPI_Gather of every rank's element count
    var elemsPerProc := new int[mpiSize](p => if 0 <= p < mpiSize then |refineLocal[p]| else 0);
    assert elemsPerProc[..] == Lengths(refineLocal);
    var elemProcOffset := PrefixOffsets(elemsPerProc);
    // MPI_Gatherv of the flags, each rank's block placed at its offset
    var refine := Concat(refineLocal);
    OffsetsFitBlocks(refineLocal, partition);
    var refinement := ReorderFlags(refine, partition, elemProcOffset);
    treeFlags := SliceByTree(refinement, treeElems);
  }

  // ---------------------------------------------------------------------
  // What the protocol achieves
  // ---------------------------------------------------------------------

  /** The flags rank p holds when every rank lists its elements' flags in
      global element order: the subsequence of `global` that the partition
      assigns to p. */
  function LocalFlags(global: seq<int>, partition: seq<int>, p: int): (r: seq<int>)
    requires |global| == |partition|
    ensures |r| == Count(partition, p)
  {
    if partition == [] then []
    else
      var n := |partition| - 1;
      LocalFlags(global[..n], partition[..n], p) + (if partition[n] == p then [global[n]] else [])
  }

  /** Scattering a global flag array over the ranks according to the
      partition: the situation the protocol is designed for. */
  function Scatter(global: seq<int>, partition: seq<int>, size: nat): (locals: seq<seq<int>>)
    requires |global| == |partition|
    ensures |locals| == size
  {
    seq(size, p => LocalFlags(global, partition, p))
  }

  /** The Rank(partition, i)-th flag of rank partition[i] is element i's. */
  lemma {:induction false} LocalFlagsAt(global: seq<int>, partition: seq<int>, i: nat)
    requires |global| == |partition| && i < |partition|
    ensures Rank(partition, i) < |LocalFlags(global, partition, partition[i])|
    ensures LocalFlags(global, partition, partition[i])[Rank(partition, i)] == global[i]
    decreases |partition|
  {
    RankBound(partition, i);
    var n := |partition| - 1;
    var p := partition[i];
    if i < n {
      assert partition[..n][..i] == partition[..i];
      LocalFlagsAt(global[..n], partition[..n], i);
    } else {
      assert partition[..i] == partition[..n];
    }
  }

  /** Scattering a global flag pattern and running it through the gather,
      the partition walk and the normalisation gives back the pattern,
      normalised: every element receives its own flag. */
  lemma ReorderRoundTrip(global: seq<int>, partition: seq<int>, size: nat)
    requires |global| == |partition|
    requires InRange(partition, size)
    ensures PartitionConsistent(Scatter(global, partition, size), partition)
    ensures Reordered(Scatter(global, partition, size), partition)
            == seq(|global|, i requires 0 <= i < |global| => Flag(global[i]))
  {
    var locals := Scatter(global, partition, size);
    forall i | 0 <= i < |partition|
      ensures Reordered(locals, partition)[i] == Flag(global[i])
    {
      LocalFlagsAt(global, partition, i);
    }
  }

  /** The trees' slices are disjoint, in tree order, and together they are
      the leading Sum(counts) flags: concatenating them rebuilds the array. */
  lemma {:induction false} SlicesCover(refinement: seq<int>, counts: seq<nat>)
    requires Sum(counts) <= |refinement|
    ensures 0 <= Sum(counts)
    ensures Concat(Slices(refinement, counts)) == refinement[..Sum(counts)]
    decreases |counts|
  {
    SumNonneg(counts);
    if counts != [] {
      var n := |counts| - 1;
      var head := Sum(counts[..n]);
      SlicesFront(refinement, counts);
      SliceLast(refinement, counts);
      SlicesCover(refinement, counts[..n]);
      var s := Slices(refinement, counts);
      assert Concat(s) == refinement[..head] + refinement[head..Sum(counts)];
      assert refinement[..Sum(counts)] == refinement[..head] + refinement[head..Sum(counts)];
    }
  }

  /** Dropping the last tree leaves the other trees' slices unchanged. */
  lemma SlicesFront(refinement: seq<int>, counts: seq<nat>)
    requires Sum(counts) <= |refinement| && counts != []
    ensures Sum(counts[..|counts| - 1]) <= |refinement|
    ensures Slices(refinement, counts)[..|counts| - 1] == Slices(refinement, counts[..|counts| - 1])
  {
    var n := |counts| - 1;
    SlicePrefixBound(counts, n);
    var whole, front := Slices(refinement, counts), Slices(refinement, counts[..n]);
    forall t | 0 <= t < n
      ensures whole[..n][t] == front[t]
    {
      SliceOfPrefix(refinement, counts, n, t);
    }
    assert |whole[..n]| == |front|;
  }

  lemma SliceOfPrefix(refinement: seq<int>, counts: seq<nat>, n: nat, t: nat)
    requires Sum(counts) <= |refinement| && t < n <= |counts|
    requires Sum(counts[..n]) <= |refinement|
    ensures Slices(refinement, counts)[t] == Slices(refinement, counts[..n])[t]
  {
    assert counts[..n][..t] == counts[..t];
  }

  /** The last tree's slice runs from the other trees' total to the total. */
  lemma SliceLast(refinement: seq<int>, counts: seq<nat>)
    requires Sum(counts) <= |refinement| && counts != []
    ensures 0 <= Sum(counts[..|counts| - 1]) <= Sum(counts)
    ensures Slices(refinement, counts)[|counts| - 1]
            == refinement[Sum(counts[..|counts| - 1])..Sum(counts)]
  {
    var n := |counts| - 1;
    SlicePrefixBound(counts, n);
    assert counts[..n + 1] == counts;
  }

  /** End to end: with the flags scattered by the partition and trees that
      account for every element, the trees together receive exactly the
      normalised global flag pattern, tree t getting its own run. */
  lemma RefineRoundTrip(global: seq<int>, partition: seq<int>, size: nat, treeElems: seq<nat>)
    requires |global| == |partition|
    requires InRange(partition, size)
    requires Sum(treeElems) == |partition|
    ensures PartitionConsistent(Scatter(global, partition, size), partition)
    ensures Concat(Slices(Reordered(Scatter(global, partition, size), partition), treeElems))
            == seq(|global|, i requires 0 <= i < |global| => Flag(global[i]))
  {
    ReorderRoundTrip(global, partition, size);
    var r := Reordered(Scatter(global, partition, size), partition);
    SlicesCover(r, treeElems);
    assert r[..Sum(treeElems)] == r;
  }
}
