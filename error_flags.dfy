/**
 * The two error indicators of the adaptive driver and the threshold rule
 * they share: an element is flagged for refinement when its error reaches
 * the mean error over all elements, total_error / ntotal.
 *
 * The element energies, residuals and reconstructed adjoints these loops
 * consume come from element evaluations outside this model; they are
 * parameters here.
 */
module ErrorFlags {
  import opened Counting
  import opened Vectors
  import opened Assembly

  /** Degrees of freedom of a 9-node element with 6 variables per node. */
  const DofsPerElement: nat := 54

  /** The 2 x 2 refined sub-elements each element is split into. */
  const SubElements: nat := 4

  /** fabs. */
  function Abs(x: real): (r: real)
    ensures r >= 0.0
    ensures r == x || r == -x
  {
    if x < 0.0 then -x else x
  }

  /** The mean-error rule: element i is flagged (1) exactly when its error
      is at least the total error divided by the number of elements on all
      ranks. */
  function ThresholdFlags(error: seq<real>, totalError: real, ntotal: int): (r: seq<int>)
    requires ntotal >= |error|
    ensures |r| == |error|
    ensures forall i :: 0 <= i < |error| ==> (r[i] == 1 <==> error[i] >= totalError / ntotal as real)
    ensures forall i :: 0 <= i < |error| ==> (r[i] == 0 <==> error[i] < totalError / ntotal as real)
  {
    seq(|error|, i requires 0 <= i < |error| => if error[i] >= totalError / ntotal as real then 1 else 0)
  }

  /** The flagging loop of both indicators: refine_local is zeroed, then
      set to 1 where the error reaches the mean. */
  method FlagAtLeastMean(error: seq<real>, totalError: real, ntotal: int) returns (refineLocal: array<int>)
    requires ntotal >= |error|
    ensures refineLocal.Length == |error|
    ensures refineLocal[..] == ThresholdFlags(error, totalError, ntotal)
  {
    refineLocal := new int[|error|](_ => 0);
    var i := 0;
    while i < |error|
      invariant 0 <= i <= |error|
      invariant forall k :: 0 <= k < i ==> refineLocal[k] == ThresholdFlags(error, totalError, ntotal)[k]
      invariant forall k :: i <= k < |error| ==> refineLocal[k] == 0
    {
      if error[i] >= totalError / ntotal as real {
        refineLocal[i] := 1;
      }
      i := i + 1;
    }
  }

  // ---------------------------------------------------------------------
  // Strain-energy indicator
  // ---------------------------------------------------------------------

  /** The tail of the strain-energy element loop: each element's error is
      the magnitude of the change in strain energy between the element and
      its enriched, uniformly refined reconstruction, and the errors are
      totalled. */
  method StrainEnergyErrors(seCoarse: seq<real>, seRefined: seq<real>) returns (seError: array<real>, total: real)
    requires |seCoarse| == |seRefined|
    ensures seError.Length == |seCoarse|
    ensures forall i :: 0 <= i < |seCoarse| ==> seError[i] == Abs(seRefined[i] - seCoarse[i])
    ensures total == SumR(seError[..])
    ensures total >= 0.0
  {
    seError := new real[|seCoarse|];
    total := 0.0;
    var i := 0;
    while i < |seCoarse|
      invariant 0 <= i <= |seCoarse|
      invariant forall k :: 0 <= k < i ==> seError[k] == Abs(seRefined[k] - seCoarse[k])
      invariant total == SumR(seError[..i])
    {
      seError[i] := seCoarse[i];
      seError[i] := Abs(seRefined[i] - seError[i]);
      assert seError[..i + 1][..i] == seError[..i];
      total := total + seError[i];
      i := i + 1;
    }
    assert seError[..i] == seError[..];
    SumRNonneg(seError[..]);
  }

  lemma {:induction false} SumRNonneg(s: seq<real>)
    requires forall k :: 0 <= k < |s| ==> s[k] >= 0.0
    ensures SumR(s) >= 0.0
    decreases |s|
  {
    if s != [] {
      SumRNonneg(s[..|s| - 1]);
    }
  }

  /** If every entry is below m, the sum is below |s| times m. */
  lemma {:induction false} SumRBelow(s: seq<real>, m: real)
    requires s != [] && forall k :: 0 <= k < |s| ==> s[k] < m
    ensures SumR(s) < |s| as real * m
    decreases |s|
  {
    if |s| > 1 {
      SumRBelow(s[..|s| - 1], m);
    }
  }

  /** Some entry reaches the mean of any bound the sum reaches. */
  lemma SomeAtLeastMean(s: seq<real>, bound: real) returns (i: nat)
    requires s != [] && SumR(s) >= bound
    ensures i < |s| && s[i] >= bound / |s| as real
  {
    var m := bound / |s| as real;
    if forall k :: 0 <= k < |s| ==> s[k] < m {
      SumRBelow(s, m);
      assert false;
    }
    var k :| 0 <= k < |s| && s[k] >= m;
    i := k;
  }

  /** The mean rule never leaves every element unflagged: with the errors
      of all elements and their true total, the largest error is at least
      the mean. */
  lemma SomeElementFlagged(error: seq<real>)
    requires error != []
    ensures 1 in ThresholdFlags(error, SumR(error), |error|)
  {
    var i := SomeAtLeastMean(error, SumR(error));
    assert ThresholdFlags(error, SumR(error), |error|)[i] == 1;
  }

  /** When every element has the same error, every element is flagged. */
  lemma UniformErrorsAllFlagged(error: seq<real>, c: real)
    requires error != [] && forall k :: 0 <= k < |error| ==> error[k] == c
    ensures forall k :: 0 <= k < |error| ==> ThresholdFlags(error, SumR(error), |error|)[k] == 1
  {
    SumRConst(error, c);
    assert SumR(error) / |error| as real == c;
  }

  lemma {:induction false} SumRConst(s: seq<real>, c: real)
    requires forall k :: 0 <= k < |s| ==> s[k] == c
    ensures SumR(s) == |s| as real * c
    decreases |s|
  {
    if s != [] {
      SumRConst(s[..|s| - 1], c);
    }
  }

  /** Raising an element's error never withdraws its flag. */
  lemma FlagMonotone(error: seq<real>, totalError: real, ntotal: int, i: nat, j: nat)
    requires ntotal >= |error| && i < |error| && j < |error|
    requires error[i] >= error[j]
    requires ThresholdFlags(error, totalError, ntotal)[j] == 1
    ensures ThresholdFlags(error, totalError, ntotal)[i] == 1
  {
  }

  /** Each rank applies the rule to its own slice of the global error list
      with the global total and count, which yields its slice of the global
      flags. */
  lemma FlagsOfSlice(error: seq<real>, totalError: real, ntotal: int, lo: nat, hi: nat)
    requires ntotal >= |error| && lo <= hi <= |error|
    ensures ThresholdFlags(error[lo..hi], totalError, ntotal) == ThresholdFlags(error, totalError, ntotal)[lo..hi]
  {
  }

  // ---------------------------------------------------------------------
  // Adjoint-weighted indicator
  // ---------------------------------------------------------------------

  /** The error term of one degree of freedom: the magnitude of the
      residual change times the adjoint change between the cubic and the
      quadratic reconstructions. It is zero as soon as either change is. */
  function AdjointTerm(resc: real, resq: real, cadj: real, qadj: real): (r: real)
    ensures r >= 0.0
    ensures resc == resq || cadj == qadj ==> r == 0.0
  {
    Abs((resc - resq) * (cadj - qadj))
  }

  /** What one refined sub-element contributes, per degree of freedom: the
      residual of the cubic (enriched) reconstruction and of the quadratic
      one, and the cubic and quadratic reconstructions of the adjoint. */
  datatype SubElement = SubElement(resc: seq<real>, resq: seq<real>, cadj: seq<real>, qadj: seq<real>)

  /** 54 values in each of the four arrays. */
  predicate WellShaped(sub: SubElement)
  {
    |sub.resc| == DofsPerElement && |sub.resq| == DofsPerElement &&
    |sub.cadj| == DofsPerElement && |sub.qadj| == DofsPerElement
  }

  /** The terms of one sub-element, one per degree of freedom. */
  function SubTerms(sub: SubElement): (t: seq<real>)
    requires WellShaped(sub)
    ensures |t| == DofsPerElement
    ensures forall j :: 0 <= j < |t| ==> t[j] >= 0.0
  {
    seq(DofsPerElement, j requires 0 <= j < DofsPerElement =>
      AdjointTerm(sub.resc[j], sub.resq[j], sub.cadj[j], sub.qadj[j]))
  }

  /** An element is split into 4 well-shaped sub-elements. */
  predicate ElementShaped(subs: seq<SubElement>)
  {
    |subs| == SubElements && forall s :: 0 <= s < |subs| ==> WellShaped(subs[s])
  }

  /** What an element has added into its own slots after its first k
      sub-elements. */
  function ElementShare(subs: seq<SubElement>, k: nat): (r: seq<real>)
    requires ElementShaped(subs) && k <= |subs|
    ensures |r| == DofsPerElement
    ensures forall j :: 0 <= j < DofsPerElement ==> r[j] >= 0.0
  {
    if k == 0 then Zeros(DofsPerElement)
    else Add(ElementShare(subs, k - 1), SubTerms(subs[k - 1]))
  }

  /** Every element's total share, the values its addValues calls put on
      its slots. */
  function Shares(elems: seq<seq<SubElement>>): (r: seq<seq<real>>)
    requires forall i :: 0 <= i < |elems| ==> ElementShaped(elems[i])
    ensures |r| == |elems|
    ensures forall i :: 0 <= i < |elems| ==> r[i] == ElementShare(elems[i], |elems[i]|)
  {
    seq(|elems|, i requires 0 <= i < |elems| => ElementShare(elems[i], |elems[i]|))
  }

  /** Sum of every element's share. */
  function ShareTotals(shares: seq<seq<real>>): (r: seq<real>)
    ensures |r| == |shares|
    ensures forall i :: 0 <= i < |shares| ==> r[i] == SumR(shares[i])
  {
    seq(|shares|, i requires 0 <= i < |shares| => SumR(shares[i]))
  }

  /** Element slots: 54 slot indices per element into the error vector. */
  predicate SlotShaped(dofs: seq<seq<int>>, size: nat)
  {
    forall i :: 0 <= i < |dofs| ==> |dofs[i]| == DofsPerElement && InRange(dofs[i], size)
  }

  /** The accumulation half of adjointRefine: for every element and each of
      its 4 sub-elements, turn the residuals into non-negative error terms
      in place, add them to the running total and scatter them into the
      element's slots of errlocal. */
  method AdjointErrors(dofs: seq<seq<int>>, size: nat, elems: seq<seq<SubElement>>)
    returns (errlocal: array<real>, totalError: real)
    requires SlotShaped(dofs, size) && |elems| == |dofs|
    requires forall i :: 0 <= i < |elems| ==> ElementShaped(elems[i])
    ensures errlocal.Length == size
    ensures forall v :: 0 <= v < size ==> errlocal[v] == Assembled(dofs, Shares(elems), v)
    ensures totalError == SumR(ShareTotals(Shares(elems)))
  {
    ghost var shares := Shares(elems);
    assert Shaped(dofs, shares);
    errlocal := new real[size](_ => 0.0);
    totalError := 0.0;
    var i := 0;
    while i < |dofs|
      invariant 0 <= i <= |dofs|
      invariant forall v :: 0 <= v < size ==> errlocal[v] == Assembled(dofs[..i], shares[..i], v)
      invariant totalError == SumR(ShareTotals(shares[..i]))
    {
      totalError := AddElement(dofs[i], elems[i], errlocal, totalError);
      forall v | 0 <= v < size
        ensures errlocal[v] == Assembled(dofs[..i + 1], shares[..i + 1], v)
      {
        AssembledStep(dofs, shares, i, v);
      }
      TotalsStep(shares, i);
      i := i + 1;
    }
    assert dofs[..i] == dofs && shares[..i] == shares;
  }

  /** The body of the element loop: the element's 4 sub-elements, in
      order, all scattered into the element's own slots. */
  method AddElement(slots: seq<int>, subs: seq<SubElement>, errlocal: array<real>, totalError: real)
    returns (newTotal: real)
    requires ElementShaped(subs) && |slots| == DofsPerElement && InRange(slots, errlocal.Length)
    modifies errlocal
    ensures forall v :: 0 <= v < errlocal.Length ==>
              errlocal[v] == old(errlocal[v]) + SlotSum(slots, ElementShare(subs, |subs|), v)
    ensures newTotal == totalError + SumR(ElementShare(subs, |subs|))
  {
    newTotal := totalError;
    forall v | 0 <= v < errlocal.Length
      ensures SlotSum(slots, ElementShare(subs, 0), v) == 0.0
    {
      SlotSumZero(slots, Zeros(DofsPerElement), v);
    }
    SumRConst(Zeros(DofsPerElement), 0.0);
    var s := 0;
    while s < |subs|
      invariant 0 <= s <= |subs|
      invariant forall v :: 0 <= v < errlocal.Length ==>
                  errlocal[v] == old(errlocal[v]) + SlotSum(slots, ElementShare(subs, s), v)
      invariant newTotal == totalError + SumR(ElementShare(subs, s))
    {
      ghost var share := ElementShare(subs, s);
      ghost var mid := errlocal[..];
      newTotal := AddSubElement(slots, subs[s], errlocal, newTotal);
      ScatterTwice(slots, share, SubTerms(subs[s]), old(errlocal[..]), mid, errlocal[..]);
      SumRAdd(share, SubTerms(subs[s]));
      s := s + 1;
    }
  }

  /** Two scatters through the same slots add up to one scatter of the
      summed values. */
  lemma ScatterTwice(slots: seq<int>, a: seq<real>, b: seq<real>, orig: seq<real>, mid: seq<real>, now: seq<real>)
    requires |slots| == |a| == |b| && |orig| == |mid| == |now|
    requires forall v :: 0 <= v < |mid| ==> mid[v] == orig[v] + SlotSum(slots, a, v)
    requires forall v :: 0 <= v < |now| ==> now[v] == mid[v] + SlotSum(slots, b, v)
    ensures forall v :: 0 <= v < |now| ==> now[v] == orig[v] + SlotSum(slots, Add(a, b), v)
  {
    forall v | 0 <= v < |now|
      ensures now[v] == orig[v] + SlotSum(slots, Add(a, b), v)
    {
      SlotSumAdd(slots, a, b, v);
    }
  }

  lemma AssembledStep(conn: seq<seq<int>>, values: seq<seq<real>>, i: nat, v: int)
    requires Shaped(conn, values) && i < |conn|
    ensures Shaped(conn[..i + 1], values[..i + 1]) && Shaped(conn[..i], values[..i])
    ensures Assembled(conn[..i + 1], values[..i + 1], v)
            == Assembled(conn[..i], values[..i], v) + SlotSum(conn[i], values[i], v)
  {
    assert conn[..i + 1][..i] == conn[..i] && values[..i + 1][..i] == values[..i];
  }

  lemma TotalsStep(shares: seq<seq<real>>, i: nat)
    requires i < |shares|
    ensures SumR(ShareTotals(shares[..i + 1])) == SumR(ShareTotals(shares[..i])) + SumR(shares[i])
  {
    assert ShareTotals(shares[..i + 1])[..i] == ShareTotals(shares[..i]);
  }

  lemma {:induction false} SlotSumZero(slots: seq<int>, values: seq<real>, v: int)
    requires |slots| == |values| && forall j :: 0 <= j < |values| ==> values[j] == 0.0
    ensures SlotSum(slots, values, v) == 0.0
    decreases |slots|
  {
    if slots != [] {
      SlotSumZero(slots[..|slots| - 1], values[..|values| - 1], v);
    }
  }

  /** One sub-element: error terms in place, added to the total and
      scattered into the element's slots. */
  method AddSubElement(slots: seq<int>, sub: SubElement, errlocal: array<real>, totalError: real)
    returns (newTotal: real)
    requires WellShaped(sub) && |slots| == DofsPerElement && InRange(slots, errlocal.Length)
    modifies errlocal
    ensures forall v :: 0 <= v < errlocal.Length ==>
              errlocal[v] == old(errlocal[v]) + SlotSum(slots, SubTerms(sub), v)
    ensures newTotal == totalError + SumR(SubTerms(sub))
  {
    var resc := new real[DofsPerElement](j requires 0 <= j < DofsPerElement => sub.resc[j]);
    AdjointTermsInPlace(resc, sub.resq, sub.cadj, sub.qadj);
    assert resc[..] == SubTerms(sub);
    newTotal := totalError;
    var j := 0;
    while j < resc.Length
      invariant 0 <= j <= resc.Length
      invariant newTotal == totalError + SumR(resc[..j])
    {
      assert resc[..j + 1][..j] == resc[..j];
      newTotal := newTotal + resc[j];
      j := j + 1;
    }
    assert resc[..j] == resc[..];
    AddValues(slots, resc[..], errlocal);
  }

  /** Line by line over one sub-element: resc[j] becomes its error term. */
  method AdjointTermsInPlace(resc: array<real>, resq: seq<real>, cadj: seq<real>, qadj: seq<real>)
    requires resc.Length == |resq| == |cadj| == |qadj|
    modifies resc
    ensures forall j :: 0 <= j < resc.Length ==> resc[j] == AdjointTerm(old(resc[j]), resq[j], cadj[j], qadj[j])
  {
    var j := 0;
    while j < resc.Length
      invariant 0 <= j <= resc.Length
      invariant forall k :: 0 <= k < j ==> resc[k] == AdjointTerm(old(resc[k]), resq[k], cadj[k], qadj[k])
      invariant forall k :: j <= k < resc.Length ==> resc[k] == old(resc[k])
    {
      resc[j] := Abs((resc[j] - resq[j]) * (cadj[j] - qadj[j]));
      j := j + 1;
    }
  }

  /** The error each element reads back from the assembled error vector:
      the sum of its 54 slot values. */
  function ElementErrors(dofs: seq<seq<int>>, errlocal: seq<real>): (r: seq<real>)
    requires SlotShaped(dofs, |errlocal|)
    ensures |r| == |dofs|
    ensures forall i :: 0 <= i < |dofs| ==> r[i] == SumR(GetValues(dofs[i], errlocal))
  {
    seq(|dofs|, i requires 0 <= i < |dofs| => SumR(GetValues(dofs[i], errlocal)))
  }

  /** The flagging half of adjointRefine: read each element's slot values
      back, add them up and apply the mean rule. */
  method AdjointFlags(dofs: seq<seq<int>>, errlocal: seq<real>, totalError: real, ntotal: int)
    returns (refineLocal: array<int>)
    requires SlotShaped(dofs, |errlocal|) && ntotal >= |dofs|
    ensures refineLocal[..] == ThresholdFlags(ElementErrors(dofs, errlocal), totalError, ntotal)
  {
    refineLocal := new int[|dofs|](_ => 0);
    var i := 0;
    while i < |dofs|
      invariant 0 <= i <= |dofs|
      invariant forall k :: 0 <= k < i ==>
                  refineLocal[k] == ThresholdFlags(ElementErrors(dofs, errlocal), totalError, ntotal)[k]
      invariant forall k :: i <= k < |dofs| ==> refineLocal[k] == 0
    {
      var res := GetValues(dofs[i], errlocal);
      var error := 0.0;
      var j := 0;
      while j < DofsPerElement
        invariant 0 <= j <= DofsPerElement
        invariant error == SumR(res[..j])
      {
        assert res[..j + 1][..j] == res[..j];
        error := error + res[j];
        j := j + 1;
      }
      assert res[..j] == res;
      if error >= totalError / ntotal as real {
        refineLocal[i] := 1;
      }
      i := i + 1;
    }
  }

  /** Every element error the adjoint threshold compares is non-negative:
      it sums values of the assembly of non-negative terms. */
  lemma ElementErrorsNonneg(dofs: seq<seq<int>>, size: nat, shares: seq<seq<real>>, errlocal: seq<real>, i: nat)
    requires SlotShaped(dofs, size) && Shaped(dofs, shares) && i < |dofs|
    requires forall i, j :: 0 <= i < |shares| && 0 <= j < |shares[i]| ==> shares[i][j] >= 0.0
    requires |errlocal| == size && forall v :: 0 <= v < size ==> errlocal[v] == Assembled(dofs, shares, v)
    ensures ElementErrors(dofs, errlocal)[i] >= 0.0
  {
    var values := GetValues(dofs[i], errlocal);
    forall j | 0 <= j < |values|
      ensures values[j] >= 0.0
    {
      AssembledNonneg(dofs, shares, dofs[i][j]);
    }
    SumRNonneg(values);
  }

  /** The adjoint indicator flags at least one element: every error term is
      non-negative, so each element reads back at least its own share, the
      element errors add up to at least the total, and the largest reaches
      the mean. */
  lemma AdjointSomeElementFlagged(dofs: seq<seq<int>>, size: nat, shares: seq<seq<real>>, errlocal: seq<real>)
    requires dofs != [] && SlotShaped(dofs, size) && Shaped(dofs, shares)
    requires forall i, j :: 0 <= i < |shares| && 0 <= j < |shares[i]| ==> shares[i][j] >= 0.0
    requires |errlocal| == size && forall v :: 0 <= v < size ==> errlocal[v] == Assembled(dofs, shares, v)
    ensures 1 in ThresholdFlags(ElementErrors(dofs, errlocal), SumR(ShareTotals(shares)), |dofs|)
  {
    var errors := ElementErrors(dofs, errlocal);
    forall i | 0 <= i < |dofs|
      ensures ShareTotals(shares)[i] <= errors[i]
    {
      ElementReadsOwnShare(dofs, shares, size, errlocal, i);
    }
    SumRMono(ShareTotals(shares), errors);
    var i := SomeAtLeastMean(errors, SumR(ShareTotals(shares)));
    assert ThresholdFlags(errors, SumR(ShareTotals(shares)), |dofs|)[i] == 1;
  }
}
