/**
 * Ordered insertion into a list kept sorted by a key, the shape shared by
 * the sleep queue (src/scheduler.c), the resource wait list (src/sync.c)
 * and the delay queue of src/os.c. A new entry goes in front of the first
 * entry whose key is strictly greater, which is after every entry with an
 * equal key.
 */
module Ordered {

  /** Keys in non-decreasing order. */
  ghost predicate Sorted(s: seq<int>)
  {
    forall i, j :: 0 <= i < j < |s| ==> s[i] <= s[j]
  }

  /** The position of the first key strictly greater than `x`, or `|s|`. */
  function UpperBound(s: seq<int>, x: int): (p: nat)
    ensures p <= |s|
    ensures forall i :: 0 <= i < p ==> s[i] <= x
    ensures p < |s| ==> s[p] > x
  {
    if s == [] || s[0] > x then 0 else 1 + UpperBound(s[1..], x)
  }

  /** In sorted keys, every key from the upper bound on is greater than `x`. */
  lemma UpperBoundSplits(s: seq<int>, x: int)
    requires Sorted(s)
    ensures forall i :: UpperBound(s, x) <= i < |s| ==> s[i] > x
  {
  }

  /** Inserting at the upper bound keeps the keys sorted. */
  lemma InsertSorted(s: seq<int>, x: int)
    requires Sorted(s)
    ensures Sorted(s[..UpperBound(s, x)] + [x] + s[UpperBound(s, x)..])
  {
    var p := UpperBound(s, x);
    var r := s[..p] + [x] + s[p..];
    forall i, j | 0 <= i < j < |r|
      ensures r[i] <= r[j]
    {
      if j < p || i > p {
      } else if i == p {
        assert r[j] == s[j - 1];
      } else if j == p {
        assert r[i] == s[i];
      } else {
        assert r[i] == s[i] && r[j] == s[j - 1];
      }
    }
  }

  /**
   * A walk that stops at the first key greater than `x`, or at the end,
   * stops at the upper bound.
   */
  lemma {:induction false} UpperBoundUnique(s: seq<int>, x: int, p: nat)
    requires p <= |s|
    requires forall i :: 0 <= i < p ==> s[i] <= x
    requires p < |s| ==> s[p] > x
    ensures p == UpperBound(s, x)
  {
    if p > 0 {
      assert s[0] <= x;
      UpperBoundUnique(s[1..], x, p - 1);
    }
  }

  /** In sorted keys whose first key exceeds `x`, every key exceeds `x`. */
  lemma AllAbove(s: seq<int>, x: int)
    requires Sorted(s) && (s != [] ==> s[0] > x)
    ensures forall i :: 0 <= i < |s| ==> s[i] > x
  {
  }

  /** A tail of sorted keys is sorted. */
  lemma SortedSuffix(s: seq<int>, k: nat)
    requires Sorted(s) && k <= |s|
    ensures Sorted(s[k..])
  {
    assert forall i :: 0 <= i < |s| - k ==> s[k..][i] == s[k + i];
  }
}
