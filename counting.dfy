/**
 * Counting and summing over sequences: the bookkeeping vocabulary shared by
 * the refinement protocol (how many elements each rank owns) and the nodal
 * weight aggregator (how many element slots reference each node).
 *
 * Every recursive definition peels the LAST element, so that a loop which
 * has processed a[..i] and now looks at a[i] unfolds the definition once.
 */
module Counting {

  /** Number of positions of `a` holding `v`. */
  function Count(a: seq<int>, v: int): (r: nat)
    ensures r <= |a|
  {
    if a == [] then 0
    else Count(a[..|a| - 1], v) + (if a[|a| - 1] == v then 1 else 0)
  }

  /** Sum of a sequence of integers. */
  function Sum(s: seq<int>): int
  {
    if s == [] then 0 else Sum(s[..|s| - 1]) + s[|s| - 1]
  }

  /** Sum of a sequence of reals. */
  function SumR(s: seq<real>): real
  {
    if s == [] then 0.0 else SumR(s[..|s| - 1]) + s[|s| - 1]
  }

  /** All entries of `a` are indices below `size`. */
  predicate InRange(a: seq<int>, size: nat)
  {
    forall i :: 0 <= i < |a| ==> 0 <= a[i] < size
  }

  /** Histogram of `a` over the values 0..size-1. */
  function Tally(a: seq<int>, size: nat): (t: seq<nat>)
    ensures |t| == size
    ensures forall v :: 0 <= v < size ==> t[v] == Count(a, v)
  {
    seq(size, v => Count(a, v))
  }

  /** The number of earlier positions holding the same value as a[i]:
      a[i] is the Rank(a, i)-th occurrence (from 0) of its value. */
  function Rank(a: seq<int>, i: nat): nat
    requires i < |a|
  {
    Count(a[..i], a[i])
  }

  lemma {:induction false} CountAppend(a: seq<int>, b: seq<int>, v: int)
    ensures Count(a + b, v) == Count(a, v) + Count(b, v)
    decreases |b|
  {
    if b != [] {
      var b' := b[..|b| - 1];
      assert (a + b)[..|a + b| - 1] == a + b';
      CountAppend(a, b', v);
    } else {
      assert a + b == a;
    }
  }

  /** Extending a prefix by one position adds one occurrence of exactly
      the value found there. */
  lemma CountStep(a: seq<int>, i: nat, v: int)
    requires i < |a|
    ensures Count(a[..i + 1], v) == Count(a[..i], v) + (if a[i] == v then 1 else 0)
  {
    assert a[..i + 1][..i] == a[..i];
  }

  lemma {:induction false} CountPrefixMono(a: seq<int>, i: nat, v: int)
    requires i <= |a|
    ensures Count(a[..i], v) <= Count(a, v)
    decreases |a| - i
  {
    if i < |a| {
      CountStep(a, i, v);
      CountPrefixMono(a, i + 1, v);
    } else {
      assert a[..i] == a;
    }
  }

  /** An element's rank among the occurrences of its value is below the
      number of those occurrences. */
  lemma RankBound(a: seq<int>, i: nat)
    requires i < |a|
    ensures Rank(a, i) < Count(a, a[i])
  {
    CountStep(a, i, a[i]);
    CountPrefixMono(a, i + 1, a[i]);
  }

  lemma {:induction false} SumAppend(s: seq<int>, t: seq<int>)
    ensures Sum(s + t) == Sum(s) + Sum(t)
    decreases |t|
  {
    if t == [] {
      assert s + t == s;
    } else {
      var t' := t[..|t| - 1];
      assert (s + t)[..|s + t| - 1] == s + t';
      SumAppend(s, t');
    }
  }

  lemma {:induction false} SumRAppend(s: seq<real>, t: seq<real>)
    ensures SumR(s + t) == SumR(s) + SumR(t)
    decreases |t|
  {
    if t == [] {
      assert s + t == s;
    } else {
      var t' := t[..|t| - 1];
      assert (s + t)[..|s + t| - 1] == s + t';
      SumRAppend(s, t');
    }
  }

  lemma SumStep(s: seq<int>, i: nat)
    requires i < |s|
    ensures Sum(s[..i + 1]) == Sum(s[..i]) + s[i]
  {
    assert s[..i + 1][..i] == s[..i];
  }

  lemma {:induction false} SumNonneg(s: seq<int>)
    requires forall k :: 0 <= k < |s| ==> s[k] >= 0
    ensures Sum(s) >= 0
    decreases |s|
  {
    if s != [] {
      SumNonneg(s[..|s| - 1]);
    }
  }

  /** With non-negative entries, every prefix sum is at most the total. */
  lemma {:induction false} SumPrefixBound(s: seq<int>, i: nat)
    requires i <= |s|
    requires forall k :: 0 <= k < |s| ==> s[k] >= 0
    ensures Sum(s[..i]) <= Sum(s)
    decreases |s| - i
  {
    if i < |s| {
      SumStep(s, i);
      SumPrefixBound(s, i + 1);
    } else {
      assert s[..i] == s;
    }
  }

  /** Adding one to a single entry adds one to the sum. */
  lemma {:induction false} SumBump(s: seq<int>, x: nat)
    requires x < |s|
    ensures Sum(s[x := s[x] + 1]) == Sum(s) + 1
    decreases |s|
  {
    var n := |s| - 1;
    var s' := s[x := s[x] + 1];
    assert s'[..n] == if x < n then s[..n][x := s[x] + 1] else s[..n];
    if x < n {
      SumBump(s[..n], x);
    }
  }

  /** Conservation of a histogram: when every entry is a valid index, the
      counts of all values add up to the length. */
  lemma {:induction false} TallyTotal(a: seq<int>, size: nat)
    requires InRange(a, size)
    ensures Sum(Tally(a, size)) == |a|
    decreases |a|
  {
    if a == [] {
      assert Tally(a, size) == seq(size, v => 0);
      ZeroSum(size);
    } else {
      var n := |a| - 1;
      var a' := a[..n];
      TallyTotal(a', size);
      var x := a[n];
      assert Tally(a, size) == Tally(a', size)[x := Tally(a', size)[x] + 1];
      SumBump(Tally(a', size), x);
    }
  }

  lemma {:induction false} ZeroSum(size: nat)
    ensures Sum(seq(size, v => 0)) == 0
    decreases size
  {
    if size > 0 {
      assert seq(size, v => 0)[..size - 1] == seq(size - 1, v => 0);
      ZeroSum(size - 1);
    }
  }

  /** Concatenation of a sequence of blocks, in order. */
  function Concat(blocks: seq<seq<int>>): seq<int>
  {
    if blocks == [] then [] else Concat(blocks[..|blocks| - 1]) + blocks[|blocks| - 1]
  }

  /** The length of every block. */
  function Lengths(blocks: seq<seq<int>>): (r: seq<int>)
    ensures |r| == |blocks|
    ensures forall p :: 0 <= p < |blocks| ==> r[p] == |blocks[p]| >= 0
  {
    seq(|blocks|, p requires 0 <= p < |blocks| => |blocks[p]|)
  }

  lemma {:induction false} ConcatLength(blocks: seq<seq<int>>)
    ensures |Concat(blocks)| == Sum(Lengths(blocks))
    decreases |blocks|
  {
    if blocks != [] {
      var n := |blocks| - 1;
      assert Lengths(blocks)[..n] == Lengths(blocks[..n]);
      ConcatLength(blocks[..n]);
    }
  }

  /** Concatenating one more block appends it. */
  lemma ConcatSnoc(blocks: seq<seq<int>>, x: seq<int>)
    ensures Concat(blocks + [x]) == Concat(blocks) + x
  {
    assert (blocks + [x])[..|blocks|] == blocks;
  }

  /** Concatenation distributes over joining two runs of blocks. */
  lemma {:induction false} ConcatAppend(a: seq<seq<int>>, b: seq<seq<int>>)
    ensures Concat(a + b) == Concat(a) + Concat(b)
    decreases |b|
  {
    if b == [] {
      assert a + b == a;
    } else {
      var n := |b| - 1;
      var front, x := b[..n], b[n];
      assert b == front + [x];
      assert a + b == (a + front) + [x];
      ConcatSnoc(a + front, x);
      ConcatSnoc(front, x);
      ConcatAppend(a, front);
    }
  }
}
