/** Order-preserving selection and first-match search over sequences: the two
    query shapes the chat room's document store is asked for (a `find` with a
    filter, and an update or delete of the first matching document). */
module Seqs {
  import opened Options

  /** The elements of `s` that satisfy `p`, in their original order. */
  function Filter<T(!new)>(s: seq<T>, p: T -> bool): (r: seq<T>)
    ensures |r| <= |s|
    ensures forall x :: x in r <==> x in s && p(x)
    decreases |s|
  {
    if |s| == 0 then []
    else Filter(s[..|s| - 1], p) + (if p(s[|s| - 1]) then [s[|s| - 1]] else [])
  }

  /** `idx` lists, in increasing order, exactly the positions of `s` whose
      element satisfies `p`, and `r` holds the elements at those positions. */
  ghost predicate IsOrderedSelection<T(!new)>(r: seq<T>, s: seq<T>, p: T -> bool, idx: seq<int>)
  {
    && |idx| == |r|
    && (forall k :: 0 <= k < |idx| ==> 0 <= idx[k] < |s| && r[k] == s[idx[k]])
    && (forall k, k' :: 0 <= k < k' < |idx| ==> idx[k] < idx[k'])
    && (forall i :: 0 <= i < |s| ==> (p(s[i]) <==> i in idx))
  }

  /** The positions of `s` selected by `p`, in increasing order. */
  function Positions<T(!new)>(s: seq<T>, p: T -> bool): seq<int>
    decreases |s|
  {
    if |s| == 0 then []
    else Positions(s[..|s| - 1], p) + (if p(s[|s| - 1]) then [|s| - 1] else [])
  }

  /** `Filter` keeps exactly the satisfying elements, and keeps them in order. */
  lemma {:induction false} FilterIsOrderedSelection<T(!new)>(s: seq<T>, p: T -> bool)
    ensures IsOrderedSelection(Filter(s, p), s, p, Positions(s, p))
    decreases |s|
  {
    if |s| > 0 {
      var n := |s| - 1;
      var init := s[..n];
      FilterIsOrderedSelection(init, p);
      var f, idx := Filter(init, p), Positions(init, p);
      var f', idx' := Filter(s, p), Positions(s, p);
      assert f' == f + (if p(s[n]) then [s[n]] else []);
      assert idx' == idx + (if p(s[n]) then [n] else []);
      forall k | 0 <= k < |idx'|
        ensures 0 <= idx'[k] < |s| && f'[k] == s[idx'[k]]
      {
        if k < |idx| {
          assert idx'[k] == idx[k] && f'[k] == f[k];
        }
      }
      forall i | 0 <= i < |s|
        ensures p(s[i]) <==> i in idx'
      {
        if i < n {
          assert init[i] == s[i];
          assert i in idx ==> i in idx';
          assert i in idx' ==> i in idx || i == n;
        }
      }
    }
  }

  /** A selection of elements whose keys are pairwise distinct still has
      pairwise distinct keys. */
  lemma {:induction false} FilterKeepsKeysDistinct<T(!new), K>(s: seq<T>, p: T -> bool, key: T -> K)
    requires forall i, j :: 0 <= i < j < |s| ==> key(s[i]) != key(s[j])
    ensures forall i, j :: 0 <= i < j < |Filter(s, p)| ==> key(Filter(s, p)[i]) != key(Filter(s, p)[j])
    decreases |s|
  {
    if |s| > 0 {
      var init := s[..|s| - 1];
      var last := s[|s| - 1];
      FilterKeepsKeysDistinct(init, p, key);
      var f := Filter(init, p);
      forall x | x in f
        ensures key(x) != key(last)
      {
        assert x in init;
        var i :| 0 <= i < |init| && init[i] == x;
        assert s[i] == x;
      }
    }
  }

  /** Every element lands on exactly one side of a predicate and its
      negation `q`. */
  lemma {:induction false} FilterSplitsLength<T(!new)>(s: seq<T>, p: T -> bool, q: T -> bool)
    requires forall x :: q(x) <==> !p(x)
    ensures |Filter(s, p)| + |Filter(s, q)| == |s|
    decreases |s|
  {
    if |s| > 0 {
      FilterSplitsLength(s[..|s| - 1], p, q);
    }
  }

  /** Filtering a sequence that grew by one element at the end. */
  lemma FilterSnoc<T(!new)>(s: seq<T>, x: T, p: T -> bool)
    ensures Filter(s + [x], p) == Filter(s, p) + (if p(x) then [x] else [])
  {
  }

  /** The position of the first element of `s` satisfying `p`, if any. */
  function FirstWhere<T>(s: seq<T>, p: T -> bool): (r: Option<nat>)
    ensures r.None? <==> forall i :: 0 <= i < |s| ==> !p(s[i])
    ensures r.Some? ==> r.value < |s| && p(s[r.value])
                        && forall i :: 0 <= i < r.value ==> !p(s[i])
    decreases |s|
  {
    if |s| == 0 then None
    else if p(s[0]) then Some(0)
    else match FirstWhere(s[1..], p)
      case None => None
      case Some(k) => Some(k + 1)
  }
}
