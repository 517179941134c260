/**
 * Interleaved storage of a vector with several values per node: value k of
 * node i sits at position k + i vpn. This is how the design vector holds
 * its components, and how the matrix filter picks one component out of it
 * (a pointer advanced by vpn) and puts it back.
 */
module Strides {
  /**
   * The position of component k of node i: start at k and step vpn once per
   * node, as the copy loops advance their pointer.
   */
  function Slot(k: nat, i: nat, vpn: nat): nat
  {
    if i == 0 then k else Slot(k, i - 1, vpn) + vpn
  }

  /** The slot in closed form. */
  lemma {:induction false} SlotIsProduct(k: nat, i: nat, vpn: nat)
    ensures Slot(k, i, vpn) == k + i * vpn
  {
    if i > 0 {
      SlotIsProduct(k, i - 1, vpn);
      assert (i - 1) * vpn + vpn == i * vpn;
    }
  }

  /** With one value per node, slot i of component 0 is i itself. */
  lemma {:induction false} SlotUnit(i: nat)
    ensures Slot(0, i, 1) == i
  {
    if i > 0 {
      SlotUnit(i - 1);
    }
  }

  lemma MulAtLeast(d: int, vpn: nat)
    requires d >= 1
    ensures d * vpn >= vpn
  {
  }

  /** The next node's slot is vpn further on: the pointer step xin += vpn. */
  lemma SlotNext(k: nat, i: nat, vpn: nat)
    ensures Slot(k, i + 1, vpn) == Slot(k, i, vpn) + vpn
  {
    var i' := i + 1;
    assert Slot(k, i', vpn) == Slot(k, i' - 1, vpn) + vpn;
  }

  /** Every slot lies inside the interleaved vector. */
  lemma SlotBound(k: nat, i: nat, vpn: nat, size: nat)
    requires k < vpn && i < size
    ensures Slot(k, i, vpn) < size * vpn
  {
    SlotIsProduct(k, i, vpn);
    MulAtLeast(size - i, vpn);
    assert size * vpn == (size - i) * vpn + i * vpn;
  }

  /** Every slot lies inside the interleaved vector, for all components and nodes. */
  lemma SlotsBound(vpn: nat, size: nat)
    ensures forall k, i :: 0 <= k < vpn && 0 <= i < size ==> Slot(k, i, vpn) < size * vpn
  {
    forall k, i | 0 <= k < vpn && 0 <= i < size
      ensures Slot(k, i, vpn) < size * vpn
    {
      SlotBound(k, i, vpn, size);
    }
  }

  /** Quotient and remainder are unique: the step behind decoding a slot. */
  lemma DivUnique(q: nat, m: nat, i: nat, k: nat, vpn: nat)
    requires q * vpn + m == i * vpn + k && m < vpn && k < vpn
    ensures q == i && m == k
  {
    MulMonotone(i + 1, q, vpn);
    assert (i + 1) * vpn == i * vpn + vpn;
    MulMonotone(q + 1, i, vpn);
    assert (q + 1) * vpn == q * vpn + vpn;
  }

  /** A slot determines its component and its node. */
  lemma SlotDecode(k: nat, i: nat, vpn: nat)
    requires k < vpn
    ensures Slot(k, i, vpn) % vpn == k && Slot(k, i, vpn) / vpn == i
  {
    SlotIsProduct(k, i, vpn);
    var j := Slot(k, i, vpn);
    DivUnique(j / vpn, j % vpn, i, k, vpn);
  }

  /** Distinct (component, node) pairs have distinct slots. */
  lemma SlotInjective(k1: nat, i1: nat, k2: nat, i2: nat, vpn: nat)
    requires k1 < vpn && k2 < vpn
    requires Slot(k1, i1, vpn) == Slot(k2, i2, vpn)
    ensures k1 == k2 && i1 == i2
  {
    SlotDecode(k1, i1, vpn);
    SlotDecode(k2, i2, vpn);
  }

  /** Distinct (component, node) pairs have distinct slots, stated positively. */
  lemma SlotsDiffer(k1: nat, i1: nat, k2: nat, i2: nat, vpn: nat)
    requires k1 < vpn && k2 < vpn && (k1 != k2 || i1 != i2)
    ensures Slot(k1, i1, vpn) != Slot(k2, i2, vpn)
  {
    SlotDecode(k1, i1, vpn);
    SlotDecode(k2, i2, vpn);
  }

  /** Every other (component, node) pair of the vector has a different slot. */
  lemma OtherSlotsDiffer(k: nat, i: nat, vpn: nat, size: nat)
    requires k < vpn
    ensures forall k', j :: 0 <= k' < vpn && 0 <= j < size && (k' != k || j != i) ==>
              Slot(k', j, vpn) != Slot(k, i, vpn)
  {
    forall k', j | 0 <= k' < vpn && 0 <= j < size && (k' != k || j != i)
      ensures Slot(k', j, vpn) != Slot(k, i, vpn)
    {
      SlotsDiffer(k', j, k, i, vpn);
    }
  }

  /** Every position of the interleaved vector is a slot. */
  lemma SlotCover(j: nat, vpn: nat, size: nat)
    requires j < size * vpn
    ensures vpn > 0 && j % vpn < vpn && j / vpn < size
    ensures Slot(j % vpn, j / vpn, vpn) == j
  {
    var q, r := j / vpn, j % vpn;
    assert j == q * vpn + r && 0 <= r < vpn;
    SlotIsProduct(r, q, vpn);
    MulMonotone(size, q, vpn);
  }

  /** Multiplying by a natural number keeps the order. */
  lemma MulMonotone(a: nat, b: nat, c: nat)
    ensures a <= b ==> a * c <= b * c
  {
    if a <= b {
      assert b * c == a * c + (b - a) * c;
    }
  }
}
