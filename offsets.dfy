/**
  The two Swift standard-library collection operations the core relies on:
  `remove(atOffsets:)` with an `IndexSet`, and `shuffled()`, whose random
  choice is given as the permutation of positions it picked.
 */
module Offsets {

  /** The positions below `n` that are not in `offsets`, in increasing
      order: the positions that survive `remove(atOffsets: offsets)` on a
      collection of length `n`. */
  function KeptIndices(n: nat, offsets: set<nat>): (ks: seq<nat>)
    ensures forall x :: 0 <= x < |ks| ==> ks[x] < n && ks[x] !in offsets
    ensures forall x, y :: 0 <= x < y < |ks| ==> ks[x] < ks[y]
  {
    if n == 0 then []
    else
      var prev := KeptIndices(n - 1, offsets);
      prev + (if n - 1 in offsets then [] else [n - 1])
  }

  /** The kept positions are exactly the positions below `n` outside
      `offsets`. */
  lemma {:induction false} KeptMembers(n: nat, offsets: set<nat>, i: nat)
    ensures i in KeptIndices(n, offsets) <==> i < n && i !in offsets
  {
    if n > 0 {
      KeptMembers(n - 1, offsets, i);
    }
  }

  /** Every offset names a position of a collection of length `n`;
      `remove(atOffsets:)` traps otherwise. */
  predicate ValidOffsets(offsets: set<nat>, n: nat) {
    forall i :: i in offsets ==> i < n
  }

  /** `s.remove(atOffsets: offsets)`: the elements at the kept positions,
      in their original order. */
  function RemoveOffsets<T>(s: seq<T>, offsets: set<nat>): (r: seq<T>)
    ensures |r| == |KeptIndices(|s|, offsets)|
    ensures forall k :: 0 <= k < |r| ==> r[k] == s[KeptIndices(|s|, offsets)[k]]
  {
    if s == [] then []
    else
      var init := s[..|s| - 1];
      assert KeptIndices(|init|, offsets) == KeptIndices(|s| - 1, offsets);
      RemoveOffsets(init, offsets) + (if |s| - 1 in offsets then [] else [s[|s| - 1]])
  }

  /** Removing valid offsets shortens the collection by exactly their
      number. */
  lemma {:induction false} KeptCount(n: nat, offsets: set<nat>)
    requires ValidOffsets(offsets, n)
    ensures |KeptIndices(n, offsets)| == n - |offsets|
  {
    if n > 0 {
      var rest := offsets - {n - 1};
      assert ValidOffsets(rest, n - 1);
      KeptCount(n - 1, rest);
      KeptIgnoresLarge(n - 1, offsets, rest);
      KeptStep(n, offsets);
      if n - 1 in offsets {
        assert |rest| == |offsets| - 1;
      } else {
        assert rest == offsets;
      }
    } else {
      assert offsets == {} by {
        forall i | i in offsets ensures false { }
      }
    }
  }

  lemma KeptStep(n: nat, offsets: set<nat>)
    requires n > 0
    ensures |KeptIndices(n, offsets)| == |KeptIndices(n - 1, offsets)| + (if n - 1 in offsets then 0 else 1)
  {
  }

  /** Offsets at or beyond `n` do not affect the positions kept below `n`. */
  lemma {:induction false} KeptIgnoresLarge(n: nat, offsets: set<nat>, others: set<nat>)
    requires forall i :: i < n ==> (i in offsets <==> i in others)
    ensures KeptIndices(n, offsets) == KeptIndices(n, others)
  {
    if n > 0 {
      KeptIgnoresLarge(n - 1, offsets, others);
    }
  }

  /** With no offsets, every position is kept. */
  lemma {:induction false} KeptAll(n: nat)
    ensures |KeptIndices(n, {})| == n
    ensures forall k :: 0 <= k < n ==> KeptIndices(n, {})[k] == k
  {
    if n > 0 {
      KeptAll(n - 1);
      assert KeptIndices(n, {}) == KeptIndices(n - 1, {}) + [n - 1];
    }
  }

  /** Removing no offsets keeps the collection as it is. */
  lemma RemoveNothing<T>(s: seq<T>)
    ensures RemoveOffsets(s, {}) == s
  {
    KeptAll(|s|);
  }

  /** Elements that differ in `key` keep differing after a removal, since
      distinct kept positions are distinct positions. */
  lemma RemoveKeepsDistinct<T, K>(s: seq<T>, offsets: set<nat>, key: T -> K)
    requires forall i, j :: 0 <= i < j < |s| ==> key(s[i]) != key(s[j])
    ensures var r := RemoveOffsets(s, offsets);
            forall i, j :: 0 <= i < j < |r| ==> key(r[i]) != key(r[j])
  {
    var ks := KeptIndices(|s|, offsets);
    var r := RemoveOffsets(s, offsets);
    forall i, j | 0 <= i < j < |r| ensures key(r[i]) != key(r[j]) {
      assert ks[i] < ks[j] < |s|;
    }
  }

  /** Every element that survives a removal was in the collection. */
  lemma RemoveKeepsMembers<T>(s: seq<T>, offsets: set<nat>, x: T)
    requires x in RemoveOffsets(s, offsets)
    ensures x in s
  {
    var ks := KeptIndices(|s|, offsets);
    var r := RemoveOffsets(s, offsets);
    var k :| 0 <= k < |r| && r[k] == x;
    assert ks[k] in ks;
  }

  /** The positions `0, 1, ..., n - 1`. */
  function Positions(n: nat): (ps: seq<nat>)
    ensures |ps| == n && forall i :: 0 <= i < n ==> ps[i] == i
  {
    seq(n, i => i)
  }

  /** `order` lists every position below `n` exactly once: the order in
      which `shuffled()` picked the elements. */
  predicate IsPermutation(order: seq<nat>, n: nat) {
    && (forall k :: 0 <= k < |order| ==> order[k] < n)
    && multiset(order) == multiset(Positions(n))
  }

  /** The elements of `s` in the order `order` gives. */
  function Permute<T>(s: seq<T>, order: seq<nat>): (r: seq<T>)
    requires forall k :: 0 <= k < |order| ==> order[k] < |s|
    ensures |r| == |order| && forall k :: 0 <= k < |r| ==> r[k] == s[order[k]]
  {
    if order == [] then [] else [s[order[0]]] + Permute(s, order[1..])
  }

  /** Leaving out the position at `j` leaves out the element it picks. */
  lemma PermuteDelete<T>(s: seq<T>, q: seq<nat>, j: nat)
    requires forall k :: 0 <= k < |q| ==> q[k] < |s|
    requires j < |q|
    ensures var q' := q[..j] + q[j + 1..];
            && (forall k :: 0 <= k < |q'| ==> q'[k] < |s|)
            && Permute(s, q') == Permute(s, q)[..j] + Permute(s, q)[j + 1..]
  {
    var q' := q[..j] + q[j + 1..];
    assert forall k :: 0 <= k < |q'| ==> q'[k] == if k < j then q[k] else q[k + 1];
  }

  /** Deleting one element takes one copy of it out of the multiset. */
  lemma MultisetDelete<U>(x: seq<U>, j: nat)
    requires j < |x|
    ensures multiset(x) == multiset(x[..j] + x[j + 1..]) + multiset{x[j]}
  {
    assert x == x[..j] + [x[j]] + x[j + 1..];
  }

  lemma MultisetCancel<U>(a: multiset<U>, b: multiset<U>, x: U)
    requires a + multiset{x} == b + multiset{x}
    ensures a == b
  {
    assert forall y :: a[y] == (a + multiset{x})[y] - multiset{x}[y];
    assert forall y :: b[y] == (b + multiset{x})[y] - multiset{x}[y];
  }

  /** Picking the same positions, in whatever order, picks the same
      elements. */
  lemma {:induction false} PermuteSameMultiset<T>(s: seq<T>, p: seq<nat>, q: seq<nat>)
    requires forall k :: 0 <= k < |p| ==> p[k] < |s|
    requires forall k :: 0 <= k < |q| ==> q[k] < |s|
    requires multiset(p) == multiset(q)
    ensures multiset(Permute(s, p)) == multiset(Permute(s, q))
  {
    if p != [] {
      var x := p[0];
      assert x in multiset(q);
      var j :| 0 <= j < |q| && q[j] == x;
      var q' := q[..j] + q[j + 1..];
      MultisetDelete(q, j);
      MultisetDelete(p, 0);
      assert p[..0] + p[1..] == p[1..];
      PermuteDelete(s, q, j);
      PermuteDelete(s, p, 0);
      MultisetCancel(multiset(p[1..]), multiset(q'), x);
      PermuteSameMultiset(s, p[1..], q');
      MultisetDelete(Permute(s, q), j);
      MultisetDelete(Permute(s, p), 0);
      assert Permute(s, p)[..0] + Permute(s, p)[1..] == Permute(s, p)[1..];
    } else {
      assert |q| == |multiset(q)|;
    }
  }

  /** Picking every position in order gives back the collection. */
  lemma PermutePositions<T>(s: seq<T>)
    ensures Permute(s, Positions(|s|)) == s
  {
  }

  /** A shuffled collection is a permutation of the original: it holds
      every element exactly as often. */
  lemma PermutePreservesMultiset<T>(s: seq<T>, order: seq<nat>)
    requires IsPermutation(order, |s|)
    ensures multiset(Permute(s, order)) == multiset(s)
  {
    PermuteSameMultiset(s, order, Positions(|s|));
    PermutePositions(s);
  }
}
