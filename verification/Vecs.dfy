/** Growable vectors: first match, and removal that moves the last element into the gap. */
module Vecs {
  import opened Wrappers

  /** Index of the first element satisfying `p`. */
  function First<T>(s: seq<T>, p: T -> bool): (r: Option<nat>)
    ensures r.Some? ==> r.value < |s| && p(s[r.value]) && forall i :: 0 <= i < r.value ==> !p(s[i])
    ensures r.None? ==> forall x :: x in s ==> !p(x)
  {
    if s == [] then None
    else if p(s[0]) then Some(0)
    else match First(s[1..], p)
      case None => None
      case Some(i) => Some(i + 1)
  }

  function SwapRemove<T>(s: seq<T>, i: nat): seq<T>
    requires i < |s|
  {
    s[i := s[|s| - 1]][..|s| - 1]
  }

  lemma SwapRemoveContents<T>(s: seq<T>, i: nat)
    requires i < |s|
    ensures multiset(SwapRemove(s, i)) == multiset(s) - multiset{s[i]}
  {
    var last := |s| - 1;
    assert s == s[..last] + [s[last]];
    if i < last {
      assert SwapRemove(s, i) == s[..last][i := s[last]];
      assert multiset(s[..last][i := s[last]]) == multiset(s[..last]) - multiset{s[i]} + multiset{s[last]};
    } else {
      assert SwapRemove(s, i) == s[..last];
    }
  }
}
