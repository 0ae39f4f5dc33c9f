/** Order-preserving filtering of a sequence, the shape shared by the
    registry scans (skip deleted, blacklisted and failing entries) and by the
    deployment aggregation (skip the runs that raised). */
module Filtering {

  /** The elements of `s` that satisfy `keep`, in their original order. */
  function Filter<T>(keep: T -> bool, s: seq<T>): (r: seq<T>)
    ensures |r| <= |s|
    ensures forall x :: x in r ==> x in s && keep(x)
  {
    if |s| == 0 then []
    else Filter(keep, s[..|s| - 1]) + (if keep(s[|s| - 1]) then [s[|s| - 1]] else [])
  }

  /** The positions of `s` whose element satisfies `keep`, ascending. */
  function KeptIndices<T>(keep: T -> bool, s: seq<T>): seq<int> {
    if |s| == 0 then []
    else KeptIndices(keep, s[..|s| - 1]) + (if keep(s[|s| - 1]) then [|s| - 1] else [])
  }

  predicate StrictlyIncreasing(ix: seq<int>) {
    forall j, k :: 0 <= j < k < |ix| ==> ix[j] < ix[k]
  }

  /** `Filter` keeps exactly the elements at `KeptIndices`, in ascending
      position order, and no position whose element satisfies `keep` is
      skipped: the filter is order preserving and complete. */
  lemma {:induction false} FilterByIndices<T>(keep: T -> bool, s: seq<T>)
    ensures |KeptIndices(keep, s)| == |Filter(keep, s)|
    ensures StrictlyIncreasing(KeptIndices(keep, s))
    ensures forall j :: 0 <= j < |KeptIndices(keep, s)| ==>
              0 <= KeptIndices(keep, s)[j] < |s|
              && Filter(keep, s)[j] == s[KeptIndices(keep, s)[j]]
              && keep(s[KeptIndices(keep, s)[j]])
    ensures forall i :: 0 <= i < |s| && keep(s[i]) ==> i in KeptIndices(keep, s)
  {
    KeptIndicesAscend(keep, s);
    KeptIndicesSelect(keep, s);
    KeptIndicesComplete(keep, s);
  }

  /** There is one kept index per kept element; the indices are positions
      of `s` and ascend. */
  lemma {:induction false} KeptIndicesAscend<T>(keep: T -> bool, s: seq<T>)
    ensures |KeptIndices(keep, s)| == |Filter(keep, s)|
    ensures forall j :: 0 <= j < |KeptIndices(keep, s)| ==> 0 <= KeptIndices(keep, s)[j] < |s|
    ensures StrictlyIncreasing(KeptIndices(keep, s))
    decreases |s|
  {
    if |s| > 0 {
      KeptIndicesAscend(keep, s[..|s| - 1]);
    }
  }

  /** The j-th kept element is the element at the j-th kept index. */
  lemma {:induction false} KeptIndicesSelect<T>(keep: T -> bool, s: seq<T>)
    ensures forall j :: 0 <= j < |KeptIndices(keep, s)| ==>
              0 <= KeptIndices(keep, s)[j] < |s| && j < |Filter(keep, s)|
              && Filter(keep, s)[j] == s[KeptIndices(keep, s)[j]]
              && keep(s[KeptIndices(keep, s)[j]])
    decreases |s|
  {
    if |s| > 0 {
      var n := |s| - 1;
      var init := s[..n];
      KeptIndicesSelect(keep, init);
      KeptIndicesAscend(keep, init);
      assert forall i :: 0 <= i < n ==> init[i] == s[i];
      if keep(s[n]) {
        assert KeptIndices(keep, s) == KeptIndices(keep, init) + [n];
        assert Filter(keep, s) == Filter(keep, init) + [s[n]];
      }
    }
  }

  /** Every position whose element satisfies `keep` is a kept index. */
  lemma {:induction false} KeptIndicesComplete<T>(keep: T -> bool, s: seq<T>)
    ensures forall i :: 0 <= i < |s| && keep(s[i]) ==> i in KeptIndices(keep, s)
    decreases |s|
  {
    if |s| > 0 {
      var init := s[..|s| - 1];
      KeptIndicesComplete(keep, init);
      assert forall i :: 0 <= i < |init| ==> init[i] == s[i];
    }
  }

  /** Filtering distributes over appending one element at the end, which is
      how a loop builds the filtered list one index at a time. */
  lemma FilterSnoc<T>(keep: T -> bool, s: seq<T>, x: T)
    ensures Filter(keep, s + [x]) == Filter(keep, s) + (if keep(x) then [x] else [])
  {
    assert (s + [x])[..|s + [x]| - 1] == s;
  }

  /** The filter is empty exactly when no element satisfies `keep`. */
  lemma {:induction false} FilterEmpty<T>(keep: T -> bool, s: seq<T>)
    ensures |Filter(keep, s)| == 0 <==> forall i :: 0 <= i < |s| ==> !keep(s[i])
    decreases |s|
  {
    if |s| > 0 {
      var init := s[..|s| - 1];
      FilterEmpty(keep, init);
      assert forall i :: 0 <= i < |init| ==> init[i] == s[i];
    }
  }

  /** Every element that satisfies `keep` survives the filter. */
  lemma {:induction false} FilterKeepsMember<T>(keep: T -> bool, s: seq<T>, x: T)
    requires x in s && keep(x)
    ensures x in Filter(keep, s)
    decreases |s|
  {
    var init := s[..|s| - 1];
    assert s == init + [s[|s| - 1]];
    if x != s[|s| - 1] {
      FilterKeepsMember(keep, init, x);
    }
  }

  /** Applies `f` to every element. */
  function Map<T, U>(f: T -> U, s: seq<T>): (r: seq<U>)
    ensures |r| == |s|
    ensures forall i :: 0 <= i < |s| ==> r[i] == f(s[i])
  {
    seq(|s|, i requires 0 <= i < |s| => f(s[i]))
  }
}
