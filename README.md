# TMR adaptive refinement bookkeeping and matrix filter kernels in Dafny

This project models two sequential, array-shaped parts of TMR.

The first part is the adaptive-refinement driver of the `forrest` example
(`examples/forrest/forrest.c`):

- the refinement-flag protocol of `refineQuadMesh`. The root gathers every
  rank's element count and forms their exclusive prefix sum. It gathers
  every rank's flags in rank order and walks the element partition map with
  one read cursor per rank, so each element gets its own flag back in global
  order. It normalises the flags to 0/1 and hands each quadtree its
  contiguous run of flags;
- the nodal reference counting of `computeLocalWeights`;
- the mean-threshold flagging of the strain-energy and the adjoint error
  indicators, and the accumulation of the adjoint error terms;
- the seven cubic enrichment functions of `evalEnrichmentFuncs`, both
  overloads, with their partial derivatives;
- the layout of the 18 x 7 least-squares system of `computeElemRecon`: which
  rows each node fills, what goes into them, and how the solution is copied
  out of the column-major right-hand side.

The second part is the vector kernels of `TMRMatrixFilter`
(`src/topology/TMRMatrixFilter.cpp`):

- `kronecker` (component-wise product, into a third vector or in place);
- the clamp on `s`, and the guarded reciprocals that build `Dinv` and `Tinv`
  in `initialize_matrix`;
- the Horner recurrences of `applyFilter` and `applyTranspose`;
- the strided per-component gather and scatter of `setDesignVars` and
  `addValues`.

Every scalar (`TacsScalar`, `double`) is a Dafny `real`:
the properties are exact identities, not statements about rounding.

- MPI gathers are sequence concatenation in rank order.
- `MPI_Allreduce` sums are parameters.
- The sparse mass matrix `M` is a dense square matrix, and `M->mult` is a
  matrix-vector product on `seq<real>`.
- The filter is a class (`MatrixFilter.Filter`) whose work vectors are
  arrays, so the copy loops and the Horner passes are methods.
- Each method is proved against a specification function in `FilterSpec`.
  These include `Filtered`, `Transposed`, `Strided`, `Interleave`, `Placed`
  and `Accumulated`.

Two results go beyond the per-call contracts:

- `FilterSpec.TransposeIsAdjoint`: for a symmetric `M`, `applyTranspose` is
  the adjoint of `applyFilter`;
- `RefineProtocol.RefineRoundTrip`: scattering a global flag vector to the
  ranks by the partition map, then running the refinement protocol, hands
  the trees exactly the normalised flags in global order.

## Model

| member | source | states |
|---|---|---|
| RefineProtocol.PrefixOffsets | examples/forrest/forrest.c:499-504 | `offset[0] = 0` and `offset[i+1] = offset[i] + elems_per_proc[i]`; the array is the exclusive prefix sum `Offsets` of the counts |
| RefineProtocol.OffsetsStep | examples/forrest/forrest.c:500-503 | consecutive prefix offsets differ by exactly the count of the earlier rank |
| RefineProtocol.BlockInside | examples/forrest/forrest.c:499-504 | with non-negative counts, rank p's block `[offset[p], offset[p] + count[p])` lies inside `[0, total)` |
| RefineProtocol.GatherAt | examples/forrest/forrest.c:507-509 | in the rank-order concatenation of the gathered flags, the k-th flag of rank p sits at `offset[p] + k` |
| RefineProtocol.CountsTotal | examples/forrest/forrest.c:497-518 | when each rank's element count equals the number of times it appears in `partition`, the counts are the tally of `partition` and the gathered array has exactly `ntotal` entries |
| RefineProtocol.ReadIndexInBlock | examples/forrest/forrest.c:516-524 | under that consistency condition, element i's read index `offset[partition[i]] + rank of i` stays inside its rank's block and finds that rank's flag for it |
| RefineProtocol.Flag | examples/forrest/forrest.c:524-529 | the stored flag is 0 or 1, and it is 1 exactly when the gathered value is 1 |
| RefineProtocol.CursorsCount | examples/forrest/forrest.c:518-522 | after the first i elements, rank p's cursor has advanced from its start by the number of p's among `partition[..i]` |
| RefineProtocol.CursorRead | examples/forrest/forrest.c:520-522 | when the cursors fit, the cursor element i reads is its rank's start plus its rank-local index, and it is in bounds |
| RefineProtocol.WalkAt | examples/forrest/forrest.c:516-529 | entry j of the walk is the 0/1 flag of the value read at `start[partition[j]] + rank of j` |
| RefineProtocol.ReorderFlags | examples/forrest/forrest.c:513-530 | the reorder loop fills `refinement` with the cursor walk and leaves every cursor advanced by its rank's element count |
| RefineProtocol.Reordered | examples/forrest/forrest.c:516-529 | element i of the reordered array is the 0/1 flag of the (rank of i)-th flag of rank `partition[i]` |
| RefineProtocol.OffsetsFitBlocks | examples/forrest/forrest.c:499-522 | starting from the prefix offsets, every cursor read stays inside the concatenated gathered array |
| RefineProtocol.WalkReadsOwnFlag | examples/forrest/forrest.c:499-530 | the cursor walk over the concatenation, started from the prefix offsets, gives every element the flag its rank held for it |
| RefineProtocol.WalkReadsOwnFlagAt | examples/forrest/forrest.c:516-529 | the same, for one element i |
| RefineProtocol.SliceByTree | examples/forrest/forrest.c:542-546 | tree t receives the slice of `refinement` from the sum of the element counts of trees 0..t-1, of length its own count |
| RefineProtocol.SlicePrefixBound | examples/forrest/forrest.c:542-546 | each tree's slice ends where the next one starts and within the total |
| RefineProtocol.SlicesCover | examples/forrest/forrest.c:542-546 | the tree slices, put back together in tree order, are exactly the first `Sum(treeElems)` flags: disjoint, contiguous and in order |
| RefineProtocol.SlicesFront | examples/forrest/forrest.c:542-546 | the first trees' slices do not depend on the later trees' counts |
| RefineProtocol.SliceOfPrefix | examples/forrest/forrest.c:542-546 | tree t's slice is the same whichever later trees are present |
| RefineProtocol.SliceLast | examples/forrest/forrest.c:542-546 | the last tree's slice runs from the sum of the earlier counts to the sum of all counts |
| RefineProtocol.RefineQuadMesh | examples/forrest/forrest.c:475-550 | the whole protocol: the trees receive the per-tree slices of the reordered 0/1 flags |
| RefineProtocol.LocalFlagsAt | examples/forrest/forrest.c:516-522 | distributing a global vector by `partition`, element i's value is the (rank of i)-th entry of its rank's local list |
| RefineProtocol.ReorderRoundTrip | examples/forrest/forrest.c:497-530 | distributing global flags by the partition map and reordering returns the 0/1 flags in global order (the reorder inverts the distribution) |
| RefineProtocol.RefineRoundTrip | examples/forrest/forrest.c:497-546 | when the tree counts add up to `ntotal`, the trees' slices joined in tree order are exactly the normalised global flags |
| Counting.TallyTotal | examples/forrest/forrest.c:497-509 | the per-rank counts taken from a partition map sum to the number of elements |
| Counting.ConcatLength | examples/forrest/forrest.c:507-509 | the gathered array is as long as the sum of the per-rank counts |
| Counting.RankBound | examples/forrest/forrest.c:520-522 | an element's rank-local index is below its rank's element count |
| LocalWeights.ComputeLocalWeights | examples/forrest/forrest.c:301-317 | after the element loop, each node's weight is the number of (element, slot) pairs that reference it |
| LocalWeights.SlotsLength | examples/forrest/forrest.c:307-317 | the elements contribute `9 * nelems` slots, all naming nodes below `size` |
| LocalWeights.WeightsTotal | examples/forrest/forrest.c:307-317 | the weights sum to `9 * nelems` |
| LocalWeights.ReferencedNodeWeight | examples/forrest/forrest.c:307-317 | a node referenced by some element has weight at least 1, so the later `1.0/welem` divides by a non-zero value |
| LocalWeights.UnreferencedNodeWeight | examples/forrest/forrest.c:312-317 | a node no element references has weight 0 |
| LocalWeights.ReverseAddWeights | examples/forrest/forrest.c:322-324 | with every rank's connectivity in a shared node numbering, adding the ranks' weight vectors gives the weights of all elements together |
| Assembly.AddValues | examples/forrest/forrest.c:957 | adding an element's values through its slot list: each entry gains the sum of the values whose slot names it, and nothing else changes |
| Assembly.GetValues | examples/forrest/forrest.c:990 | reading an element's values: entry j is the vector entry at slot j |
| Assembly.UnitSlotSum | examples/forrest/forrest.c:307-316 | adding unit values through a slot list adds to each node the number of slots naming it |
| Assembly.SlotSumNonneg | examples/forrest/forrest.c:957 | adding non-negative values adds a non-negative amount to every entry |
| Assembly.AssembledNonneg | examples/forrest/forrest.c:957-979 | a vector assembled from non-negative element values is non-negative |
| Assembly.AssembledCovers | examples/forrest/forrest.c:957 | an assembled entry is at least any single non-negative value added into it |
| Assembly.ElementReadsOwnShare | examples/forrest/forrest.c:950-996 | summing what an element reads back from its slots gives at least what it added itself |
| ErrorFlags.Abs | examples/forrest/forrest.c:717 | `fabs` is non-negative and equals x or -x |
| ErrorFlags.StrainEnergyErrors | examples/forrest/forrest.c:716-721 | each element's error is `fabs(SE_refine - SE_coarse)`; the total is their sum and is non-negative |
| ErrorFlags.ThresholdFlags | examples/forrest/forrest.c:739-745 | an element's flag is 1 exactly when its error is at least `total_error/ntotal`, and 0 exactly when it is below |
| ErrorFlags.FlagAtLeastMean | examples/forrest/forrest.c:739-745 | after the memset and the loop, `refine_local` is the threshold rule applied to the errors |
| ErrorFlags.SomeElementFlagged | examples/forrest/forrest.c:717-745 | when the total is the sum of the errors over all `ntotal` elements, at least one element is flagged |
| ErrorFlags.UniformErrorsAllFlagged | examples/forrest/forrest.c:739-745 | if all errors are equal (for instance all zero), every element is flagged |
| ErrorFlags.FlagMonotone | examples/forrest/forrest.c:741-745 | an element whose error is at least that of a flagged element is flagged too |
| ErrorFlags.FlagsOfSlice | examples/forrest/forrest.c:728-745 | each rank's flags are the slice of the global rule for its elements, since the threshold uses the global total and count |
| ErrorFlags.AdjointTerm | examples/forrest/forrest.c:951 | the adjoint error term is non-negative, and zero when the residual or the adjoint does not change |
| ErrorFlags.SubTerms | examples/forrest/forrest.c:950-952 | a sub-element's 54 terms are all non-negative |
| ErrorFlags.AdjointTermsInPlace | examples/forrest/forrest.c:950-952 | `resc[j]` is overwritten in place with the term of degree of freedom j |
| ErrorFlags.AddSubElement | examples/forrest/forrest.c:950-957 | one sub-element adds its terms into its parent element's slots of `errlocal`, and their sum into `total_error` |
| ErrorFlags.AddElement | examples/forrest/forrest.c:876-958 | an element's four sub-elements add the element's share into its slots and the share's sum into the total |
| ErrorFlags.ElementShare | examples/forrest/forrest.c:876-958 | an element's share after any number of sub-elements is non-negative |
| ErrorFlags.AdjointErrors | examples/forrest/forrest.c:851-960 | after the element loop, `errlocal` is the assembly of every element's share and `total_error` the sum of all shares |
| ErrorFlags.ElementErrors | examples/forrest/forrest.c:988-996 | an element's error is the sum of the values it reads back from `errlocal` |
| ErrorFlags.AdjointFlags | examples/forrest/forrest.c:985-1002 | `refine_local` is the threshold rule applied to the element errors read back from `errlocal` |
| ErrorFlags.ElementErrorsNonneg | examples/forrest/forrest.c:988-996 | with the non-negative terms assembled as in the source, every element error compared against the mean is non-negative |
| ErrorFlags.AdjointSomeElementFlagged | examples/forrest/forrest.c:950-1002 | with the non-negative terms assembled as in the source, at least one element reaches the mean and is flagged |
| Enrichment.EnrichmentFuncs | examples/forrest/forrest.c:99-113 | `evalEnrichmentFuncs(pt, N)`: seven values, the bubbles `ca`, `cb` times 1, η, η² and 1, ξ, ξ², and `ca cb`; what they mean is stated by `VanishAtNodes`, `VanishOnNodeLines` and `NaIsXiDerivative` |
| Enrichment.EnrichmentFuncsWithDerivs | examples/forrest/forrest.c:119-157 | `evalEnrichmentFuncs(pt, N, Na, Nb)`: seven values and both partial derivatives; `OverloadsAgree` ties N to the first overload and `NaIsXiDerivative`/`NbIsEtaDerivative` prove Na and Nb are its derivatives |
| Enrichment.OverloadsAgree | examples/forrest/forrest.c:99-138 | the two overloads of `evalEnrichmentFuncs` give the same seven values N |
| Enrichment.CubicVanishes | examples/forrest/forrest.c:102-103 | the bubble `(1 + t) t (1 - t)` is zero at t = -1, 0, 1 |
| Enrichment.VanishAtNodes | examples/forrest/forrest.c:99-113 | all seven enrichment functions vanish at the nine nodes ξ, η ∈ {-1, 0, 1} |
| Enrichment.VanishOnNodeLines | examples/forrest/forrest.c:106-112 | on a line ξ ∈ {-1, 0, 1}, the functions carrying `ca` (0, 1, 2, 6) vanish; on η ∈ {-1, 0, 1}, those carrying `cb` (3, 4, 5, 6) vanish |
| Enrichment.LastSlopesVanish | examples/forrest/forrest.c:141-155 | at the nodes, both derivatives of the product `ca cb` are zero |
| Enrichment.CubicIncrement | examples/forrest/forrest.c:119-128 | `da = 1 - 3ξ²` is the exact derivative of `ca`: the cubic's increment is `h da` plus an `h²` term |
| Enrichment.NaIsXiDerivative | examples/forrest/forrest.c:119-147 | `Na` is the exact ξ-derivative of N: `N(ξ + h, η) = N(ξ, η) + h Na + h² R(h)` for every h |
| Enrichment.NbIsEtaDerivative | examples/forrest/forrest.c:119-155 | `Nb` is the exact η-derivative of N in the same sense |
| Enrichment.FamilyXiStep | examples/forrest/forrest.c:131-147 | the seven products change with ξ by their ξ-slopes, to second order, when `ca` does |
| Enrichment.FamilyEtaStep | examples/forrest/forrest.c:131-155 | the seven products change with η by their η-slopes, to second order, when `cb` does |
| Enrichment.FamilyOfZeros | examples/forrest/forrest.c:106-112 | with both bubbles zero, all seven functions are zero |
| ElemRecon.WVal | examples/forrest/forrest.c:183 | the node weights are 0.5, 1.0, 0.5 |
| ElemRecon.WeightValues | examples/forrest/forrest.c:183-217 | a row's weight `wvals[ii]*wvals[jj]` is 1 at the centre, 0.5 at edge midpoints and 0.25 at corners, so always positive |
| ElemRecon.NodeIsNodeCoord | examples/forrest/forrest.c:188-190 | node (ii, jj) sits at ξ = -1 + ii, η = -1 + jj, both in {-1, 0, 1} |
| ElemRecon.RowLayout | examples/forrest/forrest.c:185-186 | node (ii, jj) writes rows `c = 2(ii + 3jj)` and `c + 1`, both below 18, and the row decodes back to (ii, jj) and the direction |
| ElemRecon.RowsCovered | examples/forrest/forrest.c:185-186 | every row 0..17 is written by the node and direction it decodes to, so with `RowLayout` each row is written exactly once |
| ElemRecon.AtDecode | examples/forrest/forrest.c:212-217 | the column-major index `18*col + r` decodes back to row r and column col |
| ElemRecon.ColumnMajor | examples/forrest/forrest.c:177 | the flattened array puts entry (r, col) at `18*col + r` |
| ElemRecon.SystemMatrix | examples/forrest/forrest.c:244-261 | `A[18*i + c + dir]` is the weighted tangential derivative of enrichment function i at the node owning row c |
| ElemRecon.SystemRhs | examples/forrest/forrest.c:208-242 | `b[18*k + c + dir]` is the weighted prescribed derivative minus the interpolated one, for component k |
| ElemRecon.InterpolateDerivs | examples/forrest/forrest.c:221-229 | `Ud` holds, for each component, the ξ- and η-derivatives of the quadratic interpolant |
| ElemRecon.AddNodeTerms | examples/forrest/forrest.c:225-228 | one node's pass adds its value times its shape-function derivatives to every component |
| ElemRecon.Prescribed | examples/forrest/forrest.c:212-218 | the prescribed derivative of component k at a node is the three entries of `uderiv` starting at `18 node + 3 k` |
| ElemRecon.SetRowPair | examples/forrest/forrest.c:213-219 | rows c and c+1 of the right-hand side take the entries of `r0` and `r1`, column by column; every other row is unchanged |
| ElemRecon.SubtractRowPair | examples/forrest/forrest.c:232-242 | rows c and c+1 lose the entries of `r0` and `r1`, column by column; every other row is unchanged |
| ElemRecon.SetPrescribedRows | examples/forrest/forrest.c:212-219 | the node's two rows of b get the weighted projections of the prescribed derivative on d1 and d2; other rows are unchanged |
| ElemRecon.SubtractInterpolant | examples/forrest/forrest.c:231-242 | the node's two rows of b lose the weighted projections of the interpolated derivative; other rows are unchanged |
| ElemRecon.FillRhsRows | examples/forrest/forrest.c:208-242 | after both passes, the node's rows of b hold their system entries; other rows are unchanged |
| ElemRecon.FillMatrixRows | examples/forrest/forrest.c:244-261 | the node's two rows of A hold the weighted projections of the enrichment derivatives; other rows are unchanged |
| ElemRecon.SystemMatrixByNode | examples/forrest/forrest.c:185-261 | the system matrix, row by row, is what each owning node writes |
| ElemRecon.SystemRhsByNode | examples/forrest/forrest.c:185-242 | the right-hand side, row by row, is what each owning node writes |
| ElemRecon.FillNodeMatrix | examples/forrest/forrest.c:244-261 | the node's rows of A match the table; other rows are unchanged |
| ElemRecon.FillNodeRhs | examples/forrest/forrest.c:208-242 | the node's rows of b match the table; other rows are unchanged |
| ElemRecon.FillNodeRows | examples/forrest/forrest.c:187-261 | one node fills its two rows of A and of b and touches no other row |
| ElemRecon.FillLineRows | examples/forrest/forrest.c:186-262 | the inner loop over ii fills the six rows of line jj and no others |
| ElemRecon.AssembleTables | examples/forrest/forrest.c:180-263 | the nested loops fill every entry of A and b from the tables |
| ElemRecon.AssembleLeastSquares | examples/forrest/forrest.c:176-263 | A and b, read column-major, are exactly the system matrix and right-hand side |
| ElemRecon.LastColumnVanishes | examples/forrest/forrest.c:247-260 | column 6 (the product `ca cb`) of A is zero in every row, because both its derivatives vanish at the nodes |
| ElemRecon.ConsistentRhsVanishes | examples/forrest/forrest.c:208-242 | if the prescribed derivatives equal the interpolated ones at every node, the right-hand side is zero |
| ElemRecon.Solution | examples/forrest/forrest.c:279-283 | `ubar[6i + j] = b[18j + i]` for i < 7, j < 6 |
| ElemRecon.CopyCoefficients | examples/forrest/forrest.c:279-283 | the copy-out loop sets `ubar[6i + j]` to entry (i, j) of b |
| ElemRecon.CopySolution | examples/forrest/forrest.c:279-283 | the copied `ubar` is the solution read out of the column-major b |
| ElemRecon.SolutionIgnoresResidualRows | examples/forrest/forrest.c:279-283 | only the first seven rows of b reach `ubar`; rows 7..17 (the residual after dgelss) do not |
| ElemRecon.ComputeElemRecon | examples/forrest/forrest.c:172-284 | `ubar` is the solution the dense solver returns for the assembled A and b, copied out row-major |
| MatrixFilter.CopyValues | src/topology/TMRMatrixFilter.cpp:247-252 | the destination becomes a copy of the source |
| MatrixFilter.Assign | src/topology/TMRMatrixFilter.cpp:402-405 | `temp` becomes the given local values |
| MatrixFilter.SetAll | src/topology/TMRMatrixFilter.cpp:182-186 | every entry becomes the given value |
| MatrixFilter.ScaleValues | src/topology/TMRMatrixFilter.cpp:249 | the vector is scaled by a |
| MatrixFilter.Axpy | src/topology/TMRMatrixFilter.cpp:254-263 | `y` becomes `y + a x` |
| MatrixFilter.Mult | src/topology/TMRMatrixFilter.cpp:186 | `y = M x` |
| MatrixFilter.Kronecker | src/topology/TMRMatrixFilter.cpp:301-326 | all three cases: with c, x and y, `y[i] = c[i]*x[i]` below `|c|` and the rest of y, x and c unchanged; with y null, `x[i] := c[i]*x[i]` below `|c|`; with c or x null, nothing changes |
| MatrixFilter.ProductLoop | src/topology/TMRMatrixFilter.cpp:302-314 | `y[i] = c[i]*x[i]` for i below the length of c, later entries of y unchanged |
| MatrixFilter.ProductLoopInPlace | src/topology/TMRMatrixFilter.cpp:315-325 | `x[i] := c[i]*x[i]` for i below the length of c, later entries unchanged |
| MatrixFilter.KroneckerInto | src/topology/TMRMatrixFilter.cpp:282 | with equal lengths, y is the component-wise product of c and x |
| MatrixFilter.KroneckerInPlace | src/topology/TMRMatrixFilter.cpp:245-267 | with equal lengths, x becomes the component-wise product of c and the old x |
| MatrixFilter.InvertInPlace | src/topology/TMRMatrixFilter.cpp:188-199 | `Dinv[i] = 1/D[i]` where `D[i] ≠ 0`, else 0 |
| MatrixFilter.InvertInto | src/topology/TMRMatrixFilter.cpp:205-218 | `Tinv[i] = 1/y1[i]` where `y1[i] ≠ 0`, else 0 |
| MatrixFilter.GatherComponent | src/topology/TMRMatrixFilter.cpp:347-354 | `y1[i] = xvec[k + i*vpn]` for every node i |
| MatrixFilter.ScatterComponent | src/topology/TMRMatrixFilter.cpp:360-367 | `x[0]` becomes the old `x[0]` with `y2[i]` placed at `k + i*vpn` |
| MatrixFilter.AddComponent | src/topology/TMRMatrixFilter.cpp:434-444 | the intended copy-back: `y2[i]` is added at `k + i*vpn` |
| MatrixFilter.AddComponentAsWritten | src/topology/TMRMatrixFilter.cpp:434-444 | the copy-back as written: `vec[k]` gains the sum of all of `y2`, and every other entry is unchanged |
| MatrixFilter.Filter.constructor | src/topology/TMRMatrixFilter.cpp:173-218 | a new filter holds the clamped s, N, `Dinv` = reciprocals of the row sums of M, and `Tinv` = reciprocals of the unnormalised filter applied to ones |
| MatrixFilter.Filter.InitializeMatrix | src/topology/TMRMatrixFilter.cpp:173-218 | `s` is the clamped scalar, `N` is kept, `Dinv` is the guarded reciprocal of `M·1`, and `Tinv` the guarded reciprocal of the filter (with `Tinv = 1`) applied to ones |
| MatrixFilter.Filter.ApplyFilter | src/topology/TMRMatrixFilter.cpp:245-267 | `out` is `Tinv ∘ out_N`, where `out_0 = t1 = (1/s) Dinv ∘ in` and `out_{n+1} = out_n + (1/s) Dinv ∘ (M out_n) + t1` |
| MatrixFilter.Filter.FilterPass | src/topology/TMRMatrixFilter.cpp:256-262 | one Horner pass: `out := out + (1/s) Dinv ∘ (M out) + t1` |
| MatrixFilter.Filter.FilterPasses | src/topology/TMRMatrixFilter.cpp:254-263 | starting from `out = t1`, the loop leaves `out_N` (no pass when N ≤ 0) |
| MatrixFilter.Filter.ApplyTranspose | src/topology/TMRMatrixFilter.cpp:272-293 | `out` is `(1/s) Dinv ∘ out_N`, where `out_0 = t1 = Tinv ∘ in` and `out_{n+1} = out_n + (1/s) M (Dinv ∘ out_n) + t1` |
| MatrixFilter.Filter.TransposePass | src/topology/TMRMatrixFilter.cpp:281-287 | one pass: `out := out + (1/s) M (Dinv ∘ out) + t1` |
| MatrixFilter.Filter.TransposePasses | src/topology/TMRMatrixFilter.cpp:279-288 | starting from `out = t1`, the loop leaves `out_N` of the transposed recurrence |
| MatrixFilter.Filter.SetDesignVars | src/topology/TMRMatrixFilter.cpp:331-368 | `x[0]` is the filter applied to each component of `xvec`, put back into that component's slots; with vpn = 1, the filter of the whole vector |
| MatrixFilter.Filter.AddTransposedComponent | src/topology/TMRMatrixFilter.cpp:418-444 | intended pass k: vec gains `applyTranspose` of component k of temp in component k's slots; the filter and temp are unchanged |
| MatrixFilter.Filter.AddComponents | src/topology/TMRMatrixFilter.cpp:414-445 | intended loop: every slot of vec gains the transposed filter of its own component at its node |
| MatrixFilter.Filter.AddValues | src/topology/TMRMatrixFilter.cpp:401-447 | corrected addValues: vec gains `applyTranspose` of each component of `xlocal`, interleaved back into its slots (with vpn = 1, `vec += applyTranspose(xlocal)`) |
| MatrixFilter.Filter.AddTransposedComponentAsWritten | src/topology/TMRMatrixFilter.cpp:418-444 | pass k as written: `vec[k]` gains the sum of `applyTranspose` of component k, and no other entry changes |
| MatrixFilter.Filter.AddComponentsAsWritten | src/topology/TMRMatrixFilter.cpp:414-445 | the loop as written: entry k < vpn gains the sum of component k's transposed filter; every other entry is unchanged |
| MatrixFilter.Filter.AddValuesAsWritten | src/topology/TMRMatrixFilter.cpp:401-447 | addValues as written: with vpn > 1, only the first vpn entries of vec change, each by a whole component sum |
| FilterSpec.Iterations | src/topology/TMRMatrixFilter.cpp:255 | the loop `n < N` runs N times, and not at all when N ≤ 0 |
| FilterSpec.ClampS | src/topology/TMRMatrixFilter.cpp:176-180 | after initialisation `s > 1`: an s above 1 is kept, any other becomes 2 |
| FilterSpec.Reciprocal | src/topology/TMRMatrixFilter.cpp:188-218 | the guarded reciprocal: `r[i]*d[i] = 1` where `d[i] ≠ 0`, and `r[i] = 0` where `d[i] = 0` |
| FilterSpec.FilterHornerNext | src/topology/TMRMatrixFilter.cpp:254-263 | the filter recurrence takes one pass per Horner level |
| FilterSpec.TransposeHornerNext | src/topology/TMRMatrixFilter.cpp:279-288 | the transposed recurrence takes one pass per Horner level |
| FilterSpec.FilterWithoutTerms | src/topology/TMRMatrixFilter.cpp:245-267 | with N ≤ 0, `applyFilter(x)[i] = Tinv[i] (1/s) Dinv[i] x[i]` |
| FilterSpec.TransposeWithoutTerms | src/topology/TMRMatrixFilter.cpp:272-293 | with N ≤ 0, `applyTranspose(x)[i] = (1/s) Dinv[i] Tinv[i] x[i]` |
| FilterSpec.FilterNormalised | src/topology/TMRMatrixFilter.cpp:201-218 | with `Tinv` built as in `initialize_matrix`, the filter maps the ones vector to 1 wherever the unnormalised filter of ones is non-zero, and to 0 elsewhere |
| FilterSpec.SmoothAdjoint | src/topology/TMRMatrixFilter.cpp:254-263 | for symmetric M, `(1/s) Dinv ∘ M` and `(1/s) M Dinv` are adjoint |
| FilterSpec.TransposeHornerCommutes | src/topology/TMRMatrixFilter.cpp:279-288 | the transposed recurrence commutes with its smoothing step |
| FilterSpec.HornerStepAdjoint | src/topology/TMRMatrixFilter.cpp:254-288 | one pass of each recurrence keeps them adjoint |
| FilterSpec.HornerAdjoint | src/topology/TMRMatrixFilter.cpp:254-288 | for symmetric M, the two Horner recurrences are adjoint at every depth |
| FilterSpec.TransposeIsAdjoint | src/topology/TMRMatrixFilter.cpp:245-293 | for symmetric M, `⟨applyFilter(x), y⟩ = ⟨x, applyTranspose(y)⟩` |
| FilterSpec.Strided | src/topology/TMRMatrixFilter.cpp:344-354 | component k of an interleaved vector: entry i is `x[k + i*vpn]` |
| FilterSpec.StridedSingle | src/topology/TMRMatrixFilter.cpp:332-334 | with one value per node, the only component is the vector itself, so the vpn = 1 branches agree with the strided loops |
| FilterSpec.Interleave | src/topology/TMRMatrixFilter.cpp:360-367 | putting components back: entry `k + i*vpn` is component k's entry i |
| FilterSpec.InterleaveSingle | src/topology/TMRMatrixFilter.cpp:332-334 | with one value per node, interleaving one component is the identity |
| FilterSpec.InterleaveFromSlots | src/topology/TMRMatrixFilter.cpp:338-368 | a vector that holds component k's entry i at `k + i*vpn` for all k, i is their interleaving, because the slots cover it |
| FilterSpec.FilteredComponents | src/topology/TMRMatrixFilter.cpp:338-358 | component k is `applyFilter` of component k of the input |
| FilterSpec.TransposedComponents | src/topology/TMRMatrixFilter.cpp:414-432 | component k is `applyTranspose` of component k of the input |
| FilterSpec.PlacedAt | src/topology/TMRMatrixFilter.cpp:363-367 | placing component k writes its own slots and leaves the entries of every other component unchanged |
| FilterSpec.PlacedUpToNext | src/topology/TMRMatrixFilter.cpp:338-368 | after pass k, components 0..k hold their filtered values |
| FilterSpec.PlacedUpToAll | src/topology/TMRMatrixFilter.cpp:338-368 | after all vpn passes, `x[0]` is the interleaving of the filtered components |
| FilterSpec.AccumulatedAt | src/topology/TMRMatrixFilter.cpp:440-444 | adding component k at its slots changes no entry of another component |
| FilterSpec.AddedUpToStart | src/topology/TMRMatrixFilter.cpp:414 | before the first pass no component has been added |
| FilterSpec.AddedUpToNext | src/topology/TMRMatrixFilter.cpp:414-445 | after intended pass k, components 0..k have been added into their slots |
| FilterSpec.AddedUpToSum | src/topology/TMRMatrixFilter.cpp:414-446 | after all passes, vec is the old vec plus the interleaved components |
| FilterSpec.AddedAtSlots | src/topology/TMRMatrixFilter.cpp:434-444 | a vector that gained component k's entry i at `k + i*vpn` for all k, i is old vec plus the interleaving |
| FilterSpec.FirstAddedUpToNext | src/topology/TMRMatrixFilter.cpp:414-445 | after pass k as written, the entries 0..k have gained their components' sums |
| FilterSpec.FirstAddedUpToAll | src/topology/TMRMatrixFilter.cpp:414-446 | after all passes as written, vec is the old vec with entry k < vpn raised by component k's sum |
| FilterSpec.AsWrittenMissesNodes | src/topology/TMRMatrixFilter.cpp:440-444 | with vpn > 1: intended, slot `k + i*vpn` gains component k's entry i; as written, it is unchanged for every node i > 0, and slot k gains the whole component sum |
| FilterSpec.ExampleFilterInitialised | src/topology/TMRMatrixFilter.cpp:176-218 | the two-node filter with M = I, s = 2, N = 0 has `Dinv = 1` and `Tinv = 2`, as `initialize_matrix` computes |
| FilterSpec.AddValuesCounterexample | src/topology/TMRMatrixFilter.cpp:401-447 | on that filter with vpn = 2 and `xlocal` = (1, 1, 1, 1), the intended update of a zero vec is (1, 1, 1, 1), and the code as written gives (2, 2, 0, 0) |
| Strides.SlotIsProduct | src/topology/TMRMatrixFilter.cpp:344-353 | the pointer that starts at k and advances by vpn per node reaches `k + i*vpn` at node i |
| Strides.SlotNext | src/topology/TMRMatrixFilter.cpp:350-354 | advancing by vpn moves to the same component of the next node |
| Strides.SlotBound | src/topology/TMRMatrixFilter.cpp:350-354 | for k < vpn and i < size, the position is inside the `size*vpn` vector |
| Strides.SlotDecode | src/topology/TMRMatrixFilter.cpp:344-353 | the position decodes back to component k (remainder) and node i (quotient) |
| Strides.SlotInjective | src/topology/TMRMatrixFilter.cpp:344-367 | different (component, node) pairs never share a position |
| Strides.SlotCover | src/topology/TMRMatrixFilter.cpp:338-367 | every position of the `size*vpn` vector belongs to some component and node |
| Vectors.SymmetricAdjoint | src/topology/TMRMatrixFilter.cpp:186 | for symmetric M, `⟨M u, w⟩ = ⟨u, M w⟩` |
| Vectors.MatVecTranspose | src/topology/TMRMatrixFilter.cpp:257 | `⟨M u, w⟩ = ⟨u, Mᵀ w⟩` for any matrix |

## Left out

- MPI (`MPI_Gather`, `MPI_Gatherv`, `MPI_Allreduce`, `MPI_Comm_rank`, `MPI_Comm_size`): the gathers are concatenation in rank order, and the reductions are sums passed in as parameters.
- The `BVecDistribute` reverse and forward exchanges are not modelled, and nor are the hanging-node calls `addDependentResidual` and `setDependentVariables` (forrest.c:320-331, 963-979). Vectors are taken to be already assembled in one shared node numbering; `LocalWeights.ReverseAddWeights` states what the reverse ADD computes in that numbering.
- TACS assembler calls are foreign objects, so the model keeps only their evident meaning:
  - `addValues` and `getValues` are scatter and gather through an element's slot list (`Assembly`);
  - element connectivity and element residuals are inputs;
  - `getElement`, `addResidual`, `createVec` and the element energy evaluations are not modelled.
- LAPACK `dgelss` (forrest.c:275) is a function parameter of `ElemRecon.ComputeElemRecon`.
- The geometric helpers are not part of this model: `FElibrary::biLagrangeSF`, `computeJacobianTrans`, and `Tensor::normalize3D`/`crossProduct3D`. Their results at each node (shape-function derivatives, inverse Jacobian, tangents d1 and d2) are an input record `NodeGeometry`.
- `get_location` and `computeNodeDeriv` are floating-point numerics and are not modelled, and nor is the accuracy of the estimators. The model uses the weights that `computeNodeDeriv` divides by (`LocalWeights.ReferencedNodeWeight`).
- The refinement of a quadtree (`trees[i]->refine`) and the forest are foreign; the model stops at the slice each tree receives.
- `main`, the `global_trac` static, file output, and reference counting.
- The creator classes of `TMRMatrixFilter`, its construction of the filter mesh and mass matrix, and its destructor are object wiring. The constructor here only sets up the work vectors and runs `initialize_matrix`.
- `setDesignVars` after the filtering (TMRMatrixFilter.cpp:371-395): distributing values, passing them to the TACS levels, and the multigrid `multWeightTranspose` interpolation.
- The first lines of `addValues` (TMRMatrixFilter.cpp:402-405) are `setBVecFromLocalValues` into a zeroed `temp` and the value exchange. They are modelled as `temp` becoming `xlocal`, which assumes no ghost entries.
- `M` is a dense square matrix. The sparse storage of `TACSMat` is foreign.
- Floating point: all arithmetic is exact real arithmetic. Nothing says what rounding does to the Horner sums or to the threshold comparisons.
- `MatrixFilter.Kronecker`: the case where c is longer than x or y is excluded by a precondition, since the source then reads past the end of the shorter array.
- `RefineProtocol.ReorderFlags` requires only that every read stays in bounds: each rank's cursor plus its number of appearances in `partition` fits within the gathered flags. The source never checks this; without it the walk reads past the gathered array.
- `RefineProtocol.RefineQuadMesh` requires that each rank's count equals its number of appearances in `partition`. The source never checks this; without it the cursors read outside the rank's block.
- `RefineProtocol.RefineQuadMesh` also requires `Sum(treeElems) <= ntotal`: the trees' element counts fit within the gathered flags. The source never checks this (forrest.c:542-546); without it `&refinement[offset]` is handed to a tree past the end of the array, which the model cannot express as a slice.
- `FilterSpec.TransposeIsAdjoint` and `FilterSpec.HornerAdjoint` hold for a symmetric `M`, as a mass matrix is; for a general `M`, `applyTranspose` is the adjoint of `applyFilter` with `Mᵀ` in place of `M`, which is not stated.

## Findings

| source | as written | input that shows it | evidently intended | confidence | as-written member | corrected member |
|---|---|---|---|---|---|---|
| src/topology/TMRMatrixFilter.cpp:440-444 | in the copy-back loop of `addValues` for vpn > 1, line 443 advances `xin` instead of `xout`, so every entry of `y2` is added into `vec[k]` | two nodes, vpn = 2, M = I, s = 2, N = 0 (so `Dinv = 1`, `Tinv = 2` and `applyTranspose` is the identity), `xlocal` = (1, 1, 1, 1), vec = 0: the code gives vec = (2, 2, 0, 0) | the comment at line 434 says y2 is added back into its component: vec = (1, 1, 1, 1), i.e. vec gains `applyTranspose` of each component in that component's slots | not executed | MatrixFilter.Filter.AddValuesAsWritten, FilterSpec.AddValuesCounterexample | MatrixFilter.Filter.AddValues, FilterSpec.AddedUpToSum |
