/**
 * The cubic enrichment functions of the reconstruction (evalEnrichmentFuncs,
 * both overloads). With the one-dimensional bubbles ca = (1 + ξ) ξ (1 - ξ)
 * and cb = (1 + η) η (1 - η), the seven functions are the tensor products
 *   ca, η ca, η² ca, cb, ξ cb, ξ² cb, ca cb.
 * Every one of them vanishes at the nine nodes of the bi-quadratic element
 * (ξ, η ∈ {-1, 0, 1}), so adding them to the quadratic interpolant changes
 * nothing at the nodes and only enriches the field between them; the
 * second overload's Na and Nb are their exact partial derivatives.
 *
 * The source evaluates them in double precision; they are real-valued here.
 */
module Enrichment {
  import opened Vectors

  /** A point (ξ, η) of the reference element. */
  datatype Point = Point(xi: real, eta: real)

  /** The values and the two partial derivatives of the seven functions. */
  datatype EnrichmentEval = EnrichmentEval(n: seq<real>, na: seq<real>, nb: seq<real>)

  /** Number of enrichment functions. */
  const NumEnrich: nat := 7

  /** The one-dimensional cubic bubble (1 + t) t (1 - t). */
  function Cubic(t: real): real
  {
    (1.0 + t) * t * (1.0 - t)
  }

  /** Its derivative 1 - 3 t². */
  function CubicDeriv(t: real): real
  {
    1.0 - 3.0 * t * t
  }

  /** The node coordinates of a bi-quadratic element along one direction. */
  predicate IsNodeCoord(t: real)
  {
    t == -1.0 || t == 0.0 || t == 1.0
  }

  /* Both overloads assign the same tensor-product pattern, in the values
     of the two bubbles and of the coordinates; the pattern is written
     once, with those values as parameters, so that the lemmas can treat
     them as plain variables. */

  /** N[0..6] = ca, η ca, η² ca, cb, ξ cb, ξ² cb, ca cb. */
  function Family(ca: real, cb: real, xi: real, eta: real): (n: seq<real>)
    ensures |n| == NumEnrich
  {
    [ca, eta * ca, eta * eta * ca, cb, xi * cb, xi * xi * cb, ca * cb]
  }

  /** Na[0..6] = da, η da, η² da, 0, cb, 2 ξ cb, da cb, with da = ca'(ξ). */
  function XiSlopes(da: real, cb: real, xi: real, eta: real): (n: seq<real>)
    ensures |n| == NumEnrich
  {
    [da, eta * da, eta * eta * da, 0.0, cb, 2.0 * xi * cb, da * cb]
  }

  /** Nb[0..6] = 0, ca, 2 η ca, db, ξ db, ξ² db, ca db, with db = cb'(η). */
  function EtaSlopes(ca: real, db: real, xi: real, eta: real): (n: seq<real>)
    ensures |n| == NumEnrich
  {
    [0.0, ca, 2.0 * eta * ca, db, xi * db, xi * xi * db, ca * db]
  }

  /** evalEnrichmentFuncs(pt, N). */
  function EnrichmentFuncs(pt: Point): (n: seq<real>)
    ensures |n| == NumEnrich
  {
    Family(Cubic(pt.xi), Cubic(pt.eta), pt.xi, pt.eta)
  }

  /** evalEnrichmentFuncs(pt, N, Na, Nb). */
  function EnrichmentFuncsWithDerivs(pt: Point): (e: EnrichmentEval)
    ensures |e.n| == NumEnrich && |e.na| == NumEnrich && |e.nb| == NumEnrich
  {
    var ca, cb := Cubic(pt.xi), Cubic(pt.eta);
    var xi, eta := pt.xi, pt.eta;
    EnrichmentEval([ca, eta * ca, eta * eta * ca, cb, xi * cb, xi * xi * cb, ca * cb],
                   XiSlopes(CubicDeriv(pt.xi), cb, pt.xi, pt.eta),
                   EtaSlopes(ca, CubicDeriv(pt.eta), pt.xi, pt.eta))
  }

  /** The two overloads compute the same function values. */
  lemma OverloadsAgree(pt: Point)
    ensures EnrichmentFuncsWithDerivs(pt).n == EnrichmentFuncs(pt)
  {
    var ca, cb := Cubic(pt.xi), Cubic(pt.eta);
    var n := EnrichmentFuncsWithDerivs(pt).n;
    var f := EnrichmentFuncs(pt);
    assert f == Family(ca, cb, pt.xi, pt.eta);
    assert n[0] == ca == f[0] && n[1] == pt.eta * ca == f[1] && n[2] == pt.eta * pt.eta * ca == f[2];
    assert n[3] == cb == f[3] && n[4] == pt.xi * cb == f[4] && n[5] == pt.xi * pt.xi * cb == f[5];
    assert n[6] == ca * cb == f[6];
  }

  /** The bubble is zero at the three node coordinates. */
  lemma CubicVanishes(t: real)
    requires IsNodeCoord(t)
    ensures Cubic(t) == 0.0
  {
  }

  /** With both bubbles zero, all seven products are zero. */
  lemma FamilyOfZeros(xi: real, eta: real)
    ensures forall k :: 0 <= k < NumEnrich ==> Family(0.0, 0.0, xi, eta)[k] == 0.0
  {
  }

  /** With ca zero, the four products carrying ca are zero ... */
  lemma FamilyWithoutCa(cb: real, xi: real, eta: real)
    ensures Family(0.0, cb, xi, eta)[0] == 0.0 && Family(0.0, cb, xi, eta)[1] == 0.0
    ensures Family(0.0, cb, xi, eta)[2] == 0.0 && Family(0.0, cb, xi, eta)[6] == 0.0
  {
  }

  /** ... and with cb zero, the four carrying cb. */
  lemma FamilyWithoutCb(ca: real, xi: real, eta: real)
    ensures Family(ca, 0.0, xi, eta)[3] == 0.0 && Family(ca, 0.0, xi, eta)[4] == 0.0
    ensures Family(ca, 0.0, xi, eta)[5] == 0.0 && Family(ca, 0.0, xi, eta)[6] == 0.0
  {
  }

  /** Every enrichment function vanishes at every node of the element. */
  lemma VanishAtNodes(pt: Point)
    requires IsNodeCoord(pt.xi) && IsNodeCoord(pt.eta)
    ensures forall k :: 0 <= k < NumEnrich ==> EnrichmentFuncs(pt)[k] == 0.0
  {
    CubicVanishes(pt.xi);
    CubicVanishes(pt.eta);
    FamilyOfZeros(pt.xi, pt.eta);
  }

  /** At a node both derivatives of the last function ca cb vanish: each
      of them keeps one bubble factor. */
  lemma LastSlopesVanish(pt: Point)
    requires IsNodeCoord(pt.xi) && IsNodeCoord(pt.eta)
    ensures EnrichmentFuncsWithDerivs(pt).na[NumEnrich - 1] == 0.0
    ensures EnrichmentFuncsWithDerivs(pt).nb[NumEnrich - 1] == 0.0
  {
    CubicVanishes(pt.xi);
    CubicVanishes(pt.eta);
  }

  /** Whole lines through the nodes are zero sets of some of them: where
      ξ is a node coordinate, every function carrying the factor ca
      vanishes; where η is, every function carrying cb. */
  lemma VanishOnNodeLines(pt: Point)
    ensures IsNodeCoord(pt.xi) ==> EnrichmentFuncs(pt)[0] == 0.0 && EnrichmentFuncs(pt)[1] == 0.0 &&
                                   EnrichmentFuncs(pt)[2] == 0.0 && EnrichmentFuncs(pt)[6] == 0.0
    ensures IsNodeCoord(pt.eta) ==> EnrichmentFuncs(pt)[3] == 0.0 && EnrichmentFuncs(pt)[4] == 0.0 &&
                                    EnrichmentFuncs(pt)[5] == 0.0 && EnrichmentFuncs(pt)[6] == 0.0
  {
    if IsNodeCoord(pt.xi) {
      CubicVanishes(pt.xi);
      FamilyWithoutCa(Cubic(pt.eta), pt.xi, pt.eta);
    }
    if IsNodeCoord(pt.eta) {
      CubicVanishes(pt.eta);
      FamilyWithoutCb(Cubic(pt.xi), pt.xi, pt.eta);
    }
  }

  /** The second-order Taylor form n0 + h s + h² c of a step of size h. */
  function Taylor(n0: seq<real>, s: seq<real>, c: seq<real>, h: real): (r: seq<real>)
    requires |s| == |n0| && |c| == |n0|
    ensures |r| == |n0|
    ensures forall k :: 0 <= k < |n0| ==> r[k] == n0[k] + (h * s[k] + h * (h * c[k]))
  {
    Add(n0, Add(Scale(h, s), Scale(h, Scale(h, c))))
  }

  /** The bubble's exact second-order remainder: -(3 t + h). */
  function CubicRemainder(t: real, h: real): real
  {
    -(3.0 * t + h)
  }

  /** c(t + h) = c(t) + h c'(t) + h² (-(3 t + h)): CubicDeriv is the
      derivative of Cubic. */
  lemma CubicIncrement(t: real, h: real)
    ensures Cubic(t + h) == Cubic(t) + h * CubicDeriv(t) + h * h * CubicRemainder(t, h)
  {
  }

  /** The remainders of the seven products for a step in ξ, given the
      bubble's remainder qa. */
  function XiCurvatures(qa: real, cb: real, xi: real, eta: real): (n: seq<real>)
    ensures |n| == NumEnrich
  {
    [qa, eta * qa, eta * eta * qa, 0.0, 0.0, cb, qa * cb]
  }

  /** The same for a step in η, given qb. */
  function EtaCurvatures(ca: real, qb: real, xi: real, eta: real): (n: seq<real>)
    ensures |n| == NumEnrich
  {
    [0.0, 0.0, ca, qb, xi * qb, xi * xi * qb, ca * qb]
  }

  /** The remainders of the seven functions at pt for a step h in ξ. */
  function XiRemainder(pt: Point, h: real): (r: seq<real>)
    ensures |r| == NumEnrich
  {
    XiCurvatures(CubicRemainder(pt.xi, h), Cubic(pt.eta), pt.xi, pt.eta)
  }

  /** The remainders of the seven functions at pt for a step h in η. */
  function EtaRemainder(pt: Point, h: real): (r: seq<real>)
    ensures |r| == NumEnrich
  {
    EtaCurvatures(Cubic(pt.xi), CubicRemainder(pt.eta, h), pt.xi, pt.eta)
  }

  /** Na is the exact ξ-derivative of N: a step h in ξ changes N by h Na
      plus h² times a polynomial remainder, so the difference quotient
      tends to Na as h tends to zero. */
  lemma NaIsXiDerivative(pt: Point, h: real)
    ensures EnrichmentFuncs(Point(pt.xi + h, pt.eta))
            == Taylor(EnrichmentFuncs(pt), EnrichmentFuncsWithDerivs(pt).na, XiRemainder(pt, h), h)
  {
    CubicIncrement(pt.xi, h);
    FamilyXiStep(Cubic(pt.xi + h), Cubic(pt.xi), CubicDeriv(pt.xi), CubicRemainder(pt.xi, h), Cubic(pt.eta), pt.xi + h, pt.xi, pt.eta, h);
  }

  /** Nb is the exact η-derivative of N, in the same sense. */
  lemma NbIsEtaDerivative(pt: Point, h: real)
    ensures EnrichmentFuncs(Point(pt.xi, pt.eta + h))
            == Taylor(EnrichmentFuncs(pt), EnrichmentFuncsWithDerivs(pt).nb, EtaRemainder(pt, h), h)
  {
    CubicIncrement(pt.eta, h);
    FamilyEtaStep(Cubic(pt.xi), Cubic(pt.eta + h), Cubic(pt.eta), CubicDeriv(pt.eta), CubicRemainder(pt.eta, h), pt.xi, pt.eta + h, pt.eta, h);
  }

  /** The pattern's step in ξ when the bubble ca steps by h da + h² qa. */
  lemma FamilyXiStep(ca1: real, ca: real, da: real, qa: real, cb: real, xi1: real, xi: real, eta: real, h: real)
    requires ca1 == ca + h * da + h * h * qa && xi1 == xi + h
    ensures Family(ca1, cb, xi1, eta)
            == Taylor(Family(ca, cb, xi, eta), XiSlopes(da, cb, xi, eta), XiCurvatures(qa, cb, xi, eta), h)
  {
    var t := Taylor(Family(ca, cb, xi, eta), XiSlopes(da, cb, xi, eta), XiCurvatures(qa, cb, xi, eta), h);
    forall k | 0 <= k < NumEnrich
      ensures Family(ca1, cb, xi1, eta)[k] == t[k]
    {
      if k == 0 {
        FamilyXiStep0(ca, da, qa, cb, xi, eta, h);
      } else if k == 1 {
        FamilyXiStep1(ca, da, qa, cb, xi, eta, h);
      } else if k == 2 {
        FamilyXiStep2(ca, da, qa, cb, xi, eta, h);
      } else if k == 3 {
        FamilyXiStep3(ca, da, qa, cb, xi, eta, h);
      } else if k == 4 {
        FamilyXiStep4(ca, da, qa, cb, xi, eta, h);
      } else if k == 5 {
        FamilyXiStep5(ca, da, qa, cb, xi, eta, h);
      } else {
        FamilyXiStep6(ca, da, qa, cb, xi, eta, h);
      }
    }
  }

  /** The pattern's step in η when the bubble cb steps by h db + h² qb. */
  lemma FamilyEtaStep(ca: real, cb1: real, cb: real, db: real, qb: real, xi: real, eta1: real, eta: real, h: real)
    requires cb1 == cb + h * db + h * h * qb && eta1 == eta + h
    ensures Family(ca, cb1, xi, eta1)
            == Taylor(Family(ca, cb, xi, eta), EtaSlopes(ca, db, xi, eta), EtaCurvatures(ca, qb, xi, eta), h)
  {
    var t := Taylor(Family(ca, cb, xi, eta), EtaSlopes(ca, db, xi, eta), EtaCurvatures(ca, qb, xi, eta), h);
    forall k | 0 <= k < NumEnrich
      ensures Family(ca, cb1, xi, eta1)[k] == t[k]
    {
      if k == 0 {
        FamilyEtaStep0(ca, cb, db, qb, xi, eta, h);
      } else if k == 1 {
        FamilyEtaStep1(ca, cb, db, qb, xi, eta, h);
      } else if k == 2 {
        FamilyEtaStep2(ca, cb, db, qb, xi, eta, h);
      } else if k == 3 {
        FamilyEtaStep3(ca, cb, db, qb, xi, eta, h);
      } else if k == 4 {
        FamilyEtaStep4(ca, cb, db, qb, xi, eta, h);
      } else if k == 5 {
        FamilyEtaStep5(ca, cb, db, qb, xi, eta, h);
      } else {
        FamilyEtaStep6(ca, cb, db, qb, xi, eta, h);
      }
    }
  }

  /* One lemma per function and direction: each writes out the function's
     value before and after the step and lets the solver compare the two
     polynomials; together they would overwhelm it. */

  lemma FamilyXiStep0(ca: real, da: real, qa: real, cb: real, xi: real, eta: real, h: real)
    ensures Family(ca + h * da + h * h * qa, cb, xi + h, eta)[0]
            == Taylor(Family(ca, cb, xi, eta), XiSlopes(da, cb, xi, eta), XiCurvatures(qa, cb, xi, eta), h)[0]
  {
    assert Family(ca + h * da + h * h * qa, cb, xi + h, eta)[0] == (ca + h * da + h * h * qa);
    assert Taylor(Family(ca, cb, xi, eta), XiSlopes(da, cb, xi, eta), XiCurvatures(qa, cb, xi, eta), h)[0]
           == ca + (h * (da) + h * (h * (qa)));
  }

  lemma FamilyXiStep1(ca: real, da: real, qa: real, cb: real, xi: real, eta: real, h: real)
    ensures Family(ca + h * da + h * h * qa, cb, xi + h, eta)[1]
            == Taylor(Family(ca, cb, xi, eta), XiSlopes(da, cb, xi, eta), XiCurvatures(qa, cb, xi, eta), h)[1]
  {
    assert Family(ca + h * da + h * h * qa, cb, xi + h, eta)[1] == eta * (ca + h * da + h * h * qa);
    assert Taylor(Family(ca, cb, xi, eta), XiSlopes(da, cb, xi, eta), XiCurvatures(qa, cb, xi, eta), h)[1]
           == eta * ca + (h * (eta * da) + h * (h * (eta * qa)));
  }

  lemma FamilyXiStep2(ca: real, da: real, qa: real, cb: real, xi: real, eta: real, h: real)
    ensures Family(ca + h * da + h * h * qa, cb, xi + h, eta)[2]
            == Taylor(Family(ca, cb, xi, eta), XiSlopes(da, cb, xi, eta), XiCurvatures(qa, cb, xi, eta), h)[2]
  {
    assert Family(ca + h * da + h * h * qa, cb, xi + h, eta)[2] == eta * eta * (ca + h * da + h * h * qa);
    assert Taylor(Family(ca, cb, xi, eta), XiSlopes(da, cb, xi, eta), XiCurvatures(qa, cb, xi, eta), h)[2]
           == eta * eta * ca + (h * (eta * eta * da) + h * (h * (eta * eta * qa)));
  }

  lemma FamilyXiStep3(ca: real, da: real, qa: real, cb: real, xi: real, eta: real, h: real)
    ensures Family(ca + h * da + h * h * qa, cb, xi + h, eta)[3]
            == Taylor(Family(ca, cb, xi, eta), XiSlopes(da, cb, xi, eta), XiCurvatures(qa, cb, xi, eta), h)[3]
  {
    assert Family(ca + h * da + h * h * qa, cb, xi + h, eta)[3] == cb;
    assert Taylor(Family(ca, cb, xi, eta), XiSlopes(da, cb, xi, eta), XiCurvatures(qa, cb, xi, eta), h)[3]
           == cb + (h * (0.0) + h * (h * (0.0)));
  }

  lemma FamilyXiStep4(ca: real, da: real, qa: real, cb: real, xi: real, eta: real, h: real)
    ensures Family(ca + h * da + h * h * qa, cb, xi + h, eta)[4]
            == Taylor(Family(ca, cb, xi, eta), XiSlopes(da, cb, xi, eta), XiCurvatures(qa, cb, xi, eta), h)[4]
  {
    assert Family(ca + h * da + h * h * qa, cb, xi + h, eta)[4] == (xi + h) * cb;
    assert Taylor(Family(ca, cb, xi, eta), XiSlopes(da, cb, xi, eta), XiCurvatures(qa, cb, xi, eta), h)[4]
           == xi * cb + (h * (cb) + h * (h * (0.0)));
  }

  lemma FamilyXiStep5(ca: real, da: real, qa: real, cb: real, xi: real, eta: real, h: real)
    ensures Family(ca + h * da + h * h * qa, cb, xi + h, eta)[5]
            == Taylor(Family(ca, cb, xi, eta), XiSlopes(da, cb, xi, eta), XiCurvatures(qa, cb, xi, eta), h)[5]
  {
    assert Family(ca + h * da + h * h * qa, cb, xi + h, eta)[5] == (xi + h) * (xi + h) * cb;
    assert Taylor(Family(ca, cb, xi, eta), XiSlopes(da, cb, xi, eta), XiCurvatures(qa, cb, xi, eta), h)[5]
           == xi * xi * cb + (h * (2.0 * xi * cb) + h * (h * (cb)));
  }

  lemma FamilyXiStep6(ca: real, da: real, qa: real, cb: real, xi: real, eta: real, h: real)
    ensures Family(ca + h * da + h * h * qa, cb, xi + h, eta)[6]
            == Taylor(Family(ca, cb, xi, eta), XiSlopes(da, cb, xi, eta), XiCurvatures(qa, cb, xi, eta), h)[6]
  {
    assert Family(ca + h * da + h * h * qa, cb, xi + h, eta)[6] == (ca + h * da + h * h * qa) * cb;
    assert Taylor(Family(ca, cb, xi, eta), XiSlopes(da, cb, xi, eta), XiCurvatures(qa, cb, xi, eta), h)[6]
           == ca * cb + (h * (da * cb) + h * (h * (qa * cb)));
  }

  lemma FamilyEtaStep0(ca: real, cb: real, db: real, qb: real, xi: real, eta: real, h: real)
    ensures Family(ca, cb + h * db + h * h * qb, xi, eta + h)[0]
            == Taylor(Family(ca, cb, xi, eta), EtaSlopes(ca, db, xi, eta), EtaCurvatures(ca, qb, xi, eta), h)[0]
  {
    assert Family(ca, cb + h * db + h * h * qb, xi, eta + h)[0] == ca;
    assert Taylor(Family(ca, cb, xi, eta), EtaSlopes(ca, db, xi, eta), EtaCurvatures(ca, qb, xi, eta), h)[0]
           == ca + (h * (0.0) + h * (h * (0.0)));
  }

  lemma FamilyEtaStep1(ca: real, cb: real, db: real, qb: real, xi: real, eta: real, h: real)
    ensures Family(ca, cb + h * db + h * h * qb, xi, eta + h)[1]
            == Taylor(Family(ca, cb, xi, eta), EtaSlopes(ca, db, xi, eta), EtaCurvatures(ca, qb, xi, eta), h)[1]
  {
    assert Family(ca, cb + h * db + h * h * qb, xi, eta + h)[1] == (eta + h) * ca;
    assert Taylor(Family(ca, cb, xi, eta), EtaSlopes(ca, db, xi, eta), EtaCurvatures(ca, qb, xi, eta), h)[1]
           == eta * ca + (h * (ca) + h * (h * (0.0)));
  }

  lemma FamilyEtaStep2(ca: real, cb: real, db: real, qb: real, xi: real, eta: real, h: real)
    ensures Family(ca, cb + h * db + h * h * qb, xi, eta + h)[2]
            == Taylor(Family(ca, cb, xi, eta), EtaSlopes(ca, db, xi, eta), EtaCurvatures(ca, qb, xi, eta), h)[2]
  {
    assert Family(ca, cb + h * db + h * h * qb, xi, eta + h)[2] == (eta + h) * (eta + h) * ca;
    assert Taylor(Family(ca, cb, xi, eta), EtaSlopes(ca, db, xi, eta), EtaCurvatures(ca, qb, xi, eta), h)[2]
           == eta * eta * ca + (h * (2.0 * eta * ca) + h * (h * (ca)));
  }

  lemma FamilyEtaStep3(ca: real, cb: real, db: real, qb: real, xi: real, eta: real, h: real)
    ensures Family(ca, cb + h * db + h * h * qb, xi, eta + h)[3]
            == Taylor(Family(ca, cb, xi, eta), EtaSlopes(ca, db, xi, eta), EtaCurvatures(ca, qb, xi, eta), h)[3]
  {
    assert Family(ca, cb + h * db + h * h * qb, xi, eta + h)[3] == (cb + h * db + h * h * qb);
    assert Taylor(Family(ca, cb, xi, eta), EtaSlopes(ca, db, xi, eta), EtaCurvatures(ca, qb, xi, eta), h)[3]
           == cb + (h * (db) + h * (h * (qb)));
  }

  lemma FamilyEtaStep4(ca: real, cb: real, db: real, qb: real, xi: real, eta: real, h: real)
    ensures Family(ca, cb + h * db + h * h * qb, xi, eta + h)[4]
            == Taylor(Family(ca, cb, xi, eta), EtaSlopes(ca, db, xi, eta), EtaCurvatures(ca, qb, xi, eta), h)[4]
  {
    assert Family(ca, cb + h * db + h * h * qb, xi, eta + h)[4] == xi * (cb + h * db + h * h * qb);
    assert Taylor(Family(ca, cb, xi, eta), EtaSlopes(ca, db, xi, eta), EtaCurvatures(ca, qb, xi, eta), h)[4]
           == xi * cb + (h * (xi * db) + h * (h * (xi * qb)));
  }

  lemma FamilyEtaStep5(ca: real, cb: real, db: real, qb: real, xi: real, eta: real, h: real)
    ensures Family(ca, cb + h * db + h * h * qb, xi, eta + h)[5]
            == Taylor(Family(ca, cb, xi, eta), EtaSlopes(ca, db, xi, eta), EtaCurvatures(ca, qb, xi, eta), h)[5]
  {
    assert Family(ca, cb + h * db + h * h * qb, xi, eta + h)[5] == xi * xi * (cb + h * db + h * h * qb);
    assert Taylor(Family(ca, cb, xi, eta), EtaSlopes(ca, db, xi, eta), EtaCurvatures(ca, qb, xi, eta), h)[5]
           == xi * xi * cb + (h * (xi * xi * db) + h * (h * (xi * xi * qb)));
  }

  lemma FamilyEtaStep6(ca: real, cb: real, db: real, qb: real, xi: real, eta: real, h: real)
    ensures Family(ca, cb + h * db + h * h * qb, xi, eta + h)[6]
            == Taylor(Family(ca, cb, xi, eta), EtaSlopes(ca, db, xi, eta), EtaCurvatures(ca, qb, xi, eta), h)[6]
  {
    assert Family(ca, cb + h * db + h * h * qb, xi, eta + h)[6] == ca * (cb + h * db + h * h * qb);
    assert Taylor(Family(ca, cb, xi, eta), EtaSlopes(ca, db, xi, eta), EtaCurvatures(ca, qb, xi, eta), h)[6]
           == ca * cb + (h * (ca * db) + h * (h * (ca * qb)));
  }
}
