/** Permutations of the indices [0, n), as Go's math/rand.Perm returns them,
    and the reordering of a sequence by such a permutation. */
module Permutation {

  predicate Distinct(p: seq<int>) {
    forall k, l :: 0 <= k < l < |p| ==> p[k] != p[l]
  }

  predicate Bounded(p: seq<int>, n: nat) {
    forall k :: 0 <= k < |p| ==> 0 <= p[k] < n
  }

  /** `p` lists every integer of [0, n) once. */
  predicate IsPermutation(p: seq<int>, n: nat) {
    |p| == n && Bounded(p, n) && Distinct(p)
  }

  /** `s` visited in the order `p` gives. */
  function Reorder<T>(s: seq<T>, p: seq<int>): (r: seq<T>)
    requires Bounded(p, |s|)
    ensures |r| == |p|
    ensures forall k :: 0 <= k < |p| ==> r[k] == s[p[k]]
  {
    seq(|p|, k requires 0 <= k < |p| => s[p[k]])
  }

  /** `p` with the entry at position `j` taken out. */
  function Without(p: seq<int>, j: nat): (q: seq<int>)
    requires j < |p|
    ensures |q| == |p| - 1
    ensures forall k :: 0 <= k < j ==> q[k] == p[k]
    ensures forall k :: j <= k < |q| ==> q[k] == p[k + 1]
  {
    p[..j] + p[j + 1..]
  }

  /** `p` with the value `from` replaced by `to`. */
  function Rename(p: seq<int>, from: int, to: int): (q: seq<int>)
    ensures |q| == |p|
    ensures forall k :: 0 <= k < |p| ==> q[k] == if p[k] == from then to else p[k]
  {
    seq(|p|, k requires 0 <= k < |p| => if p[k] == from then to else p[k])
  }

  /** Pigeonhole: distinct integers drawn from [0, m) number at most m. */
  lemma {:induction false} DistinctBoundedLength(p: seq<int>, m: nat)
    requires Bounded(p, m) && Distinct(p)
    ensures |p| <= m
    decreases |p|
  {
    if p != [] {
      var init := p[..|p| - 1];
      var x := p[|p| - 1];
      assert 0 <= x < m;
      assert forall k :: 0 <= k < |init| ==> init[k] == p[k] && init[k] != x;
      // Give x's place in [0, m) to the largest value, m - 1.
      var q := Rename(init, m - 1, x);
      forall k, l | 0 <= k < l < |q| ensures q[k] != q[l] {
        assert init[k] != init[l];
      }
      DistinctBoundedLength(q, m - 1);
    }
  }

  /** A permutation of [0, n) takes every value in [0, n). */
  lemma PermutationCovers(p: seq<int>, n: nat, i: int)
    requires IsPermutation(p, n) && 0 <= i < n
    ensures i in p
  {
    if i !in p {
      // Renaming n - 1 to i would give n distinct values below n - 1.
      var q := Rename(p, n - 1, i);
      assert forall k :: 0 <= k < |p| ==> p[k] != i;
      DistinctBoundedLength(q, n - 1);
      assert false;
    }
  }

  /** The entry at `j` taken out of a permutation of [0, n) when it is n - 1
      leaves a permutation of [0, n - 1). */
  lemma WithoutLast(p: seq<int>, n: nat, j: nat)
    requires IsPermutation(p, n) && j < |p| && p[j] == n - 1
    ensures IsPermutation(Without(p, j), n - 1)
  {
  }

  lemma ReorderSplit<T>(s: seq<T>, p: seq<int>, j: nat)
    requires Bounded(p, |s|) && j < |p|
    ensures Reorder(s, p) == Reorder(s, p[..j]) + [s[p[j]]] + Reorder(s, p[j + 1..])
  {
  }

  lemma ReorderWithout<T>(s: seq<T>, p: seq<int>, j: nat)
    requires |s| > 0 && Bounded(p, |s|) && j < |p|
    requires Bounded(Without(p, j), |s| - 1)
    ensures Reorder(s[..|s| - 1], Without(p, j)) == Reorder(s, p[..j]) + Reorder(s, p[j + 1..])
  {
  }

  lemma MultisetMiddle<T>(a: seq<T>, x: T, b: seq<T>)
    ensures multiset(a + [x] + b) == multiset(a + b) + multiset{x}
  {
  }

  /** Taking out the visit of the last element removes exactly one copy of it. */
  lemma ReorderDropLast<T>(s: seq<T>, p: seq<int>, j: nat)
    requires |s| > 0 && Bounded(p, |s|) && j < |p| && p[j] == |s| - 1
    requires Bounded(Without(p, j), |s| - 1)
    ensures multiset(Reorder(s, p)) == multiset(Reorder(s[..|s| - 1], Without(p, j))) + multiset{s[|s| - 1]}
  {
    ReorderSplit(s, p, j);
    ReorderWithout(s, p, j);
    MultisetMiddle(Reorder(s, p[..j]), s[|s| - 1], Reorder(s, p[j + 1..]));
  }

  /** Reordering by a permutation keeps every element and its number of
      occurrences. */
  lemma {:induction false} ReorderPermutes<T>(s: seq<T>, p: seq<int>)
    requires IsPermutation(p, |s|)
    ensures multiset(Reorder(s, p)) == multiset(s)
  {
    var n := |s|;
    if n > 0 {
      PermutationCovers(p, n, n - 1);
      var j :| 0 <= j < |p| && p[j] == n - 1;
      WithoutLast(p, n, j);
      ReorderPermutes(s[..n - 1], Without(p, j));
      ReorderDropLast(s, p, j);
      assert s[..n - 1] + [s[n - 1]] == s;
    }
  }
}
