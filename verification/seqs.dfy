/**
 Order-preserving selection over sequences: the list comprehension and the
 boolean-mask row selection that the forecast handler relies on, together
 with sums and the indices they keep.
 */
module Seqs {

  /** The elements of `s` that satisfy `p`, in their original order. */
  function Filter<T>(s: seq<T>, p: T -> bool): (r: seq<T>)
    ensures |r| <= |s|
    ensures forall k :: 0 <= k < |r| ==> r[k] in s && p(r[k])
    ensures forall i :: 0 <= i < |s| && p(s[i]) ==> s[i] in r
  {
    if |s| == 0 then []
    else
      var rest := Filter(s[..|s| - 1], p);
      if p(s[|s| - 1]) then rest + [s[|s| - 1]] else rest
  }

  /** The positions of `s` whose element satisfies `p`, in increasing order. */
  function KeptIndices<T>(s: seq<T>, p: T -> bool): (ix: seq<nat>)
    ensures forall k :: 0 <= k < |ix| ==> ix[k] < |s| && p(s[ix[k]])
    ensures forall k, l :: 0 <= k < l < |ix| ==> ix[k] < ix[l]
    ensures forall i :: 0 <= i < |s| && p(s[i]) ==> i in ix
  {
    if |s| == 0 then []
    else
      var rest := KeptIndices(s[..|s| - 1], p);
      if p(s[|s| - 1]) then rest + [|s| - 1] else rest
  }

  /** No element occurs twice. */
  predicate Distinct<T(==)>(s: seq<T>) {
    forall i, j :: 0 <= i < j < |s| ==> s[i] != s[j]
  }

  /** The selection is exactly the elements at the kept positions, in order. */
  lemma {:induction false} FilterAt<T>(s: seq<T>, p: T -> bool)
    ensures |Filter(s, p)| == |KeptIndices(s, p)|
    ensures forall k :: 0 <= k < |Filter(s, p)| ==> Filter(s, p)[k] == s[KeptIndices(s, p)[k]]
  {
    if |s| > 0 {
      var n := |s| - 1;
      var init := s[..n];
      FilterAt(init, p);
      var front := Filter(init, p);
      var frontIx := KeptIndices(init, p);
      forall k | 0 <= k < |front|
        ensures front[k] == s[frontIx[k]]
      {
        assert front[k] == init[frontIx[k]];
      }
    }
  }

  /** Two tests that agree on every element of `s` select the same elements. */
  lemma {:induction false} FilterCongruent<T>(s: seq<T>, p: T -> bool, q: T -> bool)
    requires forall i :: 0 <= i < |s| ==> p(s[i]) == q(s[i])
    ensures Filter(s, p) == Filter(s, q)
  {
    if |s| > 0 {
      FilterCongruent(s[..|s| - 1], p, q);
    }
  }

  /** Selecting twice with the same test selects nothing more. */
  lemma {:induction false} FilterIdempotent<T>(s: seq<T>, p: T -> bool)
    ensures Filter(Filter(s, p), p) == Filter(s, p)
  {
    if |s| > 0 {
      var n := |s| - 1;
      FilterIdempotent(s[..n], p);
      if p(s[n]) {
        var r := Filter(s, p);
        assert r[..|r| - 1] == Filter(s[..n], p);
      }
    }
  }

  /** Selecting from a sequence without repetitions yields none. */
  lemma FilterDistinct<T>(s: seq<T>, p: T -> bool)
    requires Distinct(s)
    ensures Distinct(Filter(s, p))
  {
  }

  /** Sum of a sequence of reals, added left to right. */
  function Sum(xs: seq<real>): real {
    if |xs| == 0 then 0.0 else Sum(xs[..|xs| - 1]) + xs[|xs| - 1]
  }

  /** A sum of non-negative terms is non-negative, and zero exactly when every term is. */
  lemma {:induction false} SumNonNegative(xs: seq<real>)
    requires forall i :: 0 <= i < |xs| ==> xs[i] >= 0.0
    ensures Sum(xs) >= 0.0
    ensures Sum(xs) == 0.0 <==> forall i :: 0 <= i < |xs| ==> xs[i] == 0.0
  {
    if |xs| > 0 {
      var init := xs[..|xs| - 1];
      SumNonNegative(init);
      if Sum(xs) == 0.0 {
        forall i | 0 <= i < |xs|
          ensures xs[i] == 0.0
        {
          if i < |xs| - 1 {
            assert xs[i] == init[i];
          }
        }
      }
    }
  }
}
